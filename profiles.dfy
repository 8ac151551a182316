/** Profile discovery from the sections of `profiles.ini`. */
module Profiles {
  import opened Model

  /** The profile names the registry declares: the Python set of line 17. */
  ghost predicate Declared(sections: seq<Section>, n: string) {
    exists k :: 0 <= k < |sections| && "name" in sections[k] && sections[k]["name"] == n
  }

  ghost predicate NoDuplicates(names: seq<string>) {
    forall i, j :: 0 <= i < j < |names| ==> names[i] != names[j]
  }

  /**
    The distinct `name` values of the sections that carry one. The source
    turns a set into a list, so its order is unspecified; only membership and
    the absence of duplicates are promised.
   */
  function ProfileNames(sections: seq<Section>): (names: seq<string>)
    ensures NoDuplicates(names)
    ensures forall n :: n in names <==> Declared(sections, n)
  {
    if |sections| == 0 then []
    else
      var rest := ProfileNames(sections[1..]);
      assert forall n :: Declared(sections, n) <==>
        ("name" in sections[0] && sections[0]["name"] == n) || Declared(sections[1..], n) by {
        forall n ensures Declared(sections, n) <==>
          ("name" in sections[0] && sections[0]["name"] == n) || Declared(sections[1..], n) {
          if Declared(sections[1..], n) {
            var k :| 0 <= k < |sections[1..]| && "name" in sections[1..][k] && sections[1..][k]["name"] == n;
            assert sections[k + 1] == sections[1..][k];
          }
          if Declared(sections, n) {
            var k :| 0 <= k < |sections| && "name" in sections[k] && sections[k]["name"] == n;
            if k > 0 { assert sections[1..][k - 1] == sections[k]; }
          }
        }
      }
      if "name" in sections[0] && sections[0]["name"] !in rest then [sections[0]["name"]] + rest
      else rest
  }
}
