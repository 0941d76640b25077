/** path/path.go: the materialised path of a tree node, from the root down to the node itself. */
module Paths {

  type Uuid = nat

  const NIL: Uuid := 0

  // A generated version-4 UUID carries version bits, so it is never the nil UUID.
  type FreshUuid = u: Uuid | u != NIL witness 1

  type Path = seq<Uuid>

  function This(p: Path): Uuid {
    if |p| == 0 then NIL else p[|p| - 1]
  }

  function ParentID(p: Path): Uuid {
    if |p| > 1 then p[|p| - 2] else NIL
  }

  function ParentPath(p: Path): Path {
    if |p| > 1 then p[..|p| - 1] else []
  }

  // A path is the path of the parent and the node itself, and the parent is where that path ends.
  lemma PathParts(p: Path)
    requires p != []
    ensures p == ParentPath(p) + [This(p)]
    ensures |p| > 1 ==> This(ParentPath(p)) == ParentID(p)
    ensures |p| == 1 ==> ParentID(p) == NIL && ParentPath(p) == []
  {
  }
}
