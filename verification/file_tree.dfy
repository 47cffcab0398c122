/** An abstract directory tree standing in for `fs::read_dir` and `is_file`.

    A directory lists its entries in the order `read_dir` yields them; an
    entry is a regular file or a sub-directory. The tree passed to the model
    is the directory every relative path is resolved against (the process's
    working directory); its own name is not part of any path.
 */
module FileTree {
  import opened Results
  import opened Paths

  datatype Node = File(name: string) | Dir(name: string, children: seq<Node>)

  /** The first entry of a listing with the given name. */
  function Child(children: seq<Node>, name: string): (r: Option<Node>)
    ensures r.Some? ==> r.value in children && r.value.name == name
    ensures r.None? ==> forall k :: 0 <= k < |children| ==> children[k].name != name
  {
    if |children| == 0 then None
    else if children[0].name == name then Some(children[0])
    else Child(children[1..], name)
  }

  /** The entry at relative path `p` below `n`, if there is one. */
  function Lookup(n: Node, p: Path): Option<Node>
    decreases |p|
  {
    if |p| == 0 then Some(n)
    else match n
      case File(_) => None
      case Dir(_, children) =>
        match Child(children, p[0])
        case None => None
        case Some(c) => Lookup(c, p[1..])
  }

  /** The directory at relative path `p` below `n`: what `read_dir(p)`
      lists, or `None` when `p` names nothing or names a file. */
  function DirectoryAt(n: Node, p: Path): (r: Option<Node>)
    ensures r.Some? <==> Lookup(n, p).Some? && Lookup(n, p).value.Dir?
    ensures r.Some? ==> r == Lookup(n, p)
  {
    match Lookup(n, p)
    case Some(d) => if d.Dir? then Some(d) else None
    case None => None
  }

  /** `p` is the path of entry `c` (which sits in directory `dir`) when `c` is
      a file, or the path of a file somewhere below `c` when it is a directory. */
  ghost predicate FileAtOrBelow(c: Node, dir: Path, p: Path)
    decreases c
  {
    match c
    case File(name) => p == dir + [name]
    case Dir(name, children) =>
      exists k :: 0 <= k < |children| && FileAtOrBelow(children[k], dir + [name], p)
  }

  /** Every file found below an entry of `dir` lies strictly under `dir`. */
  lemma {:induction false} FileAtOrBelowIsUnder(c: Node, dir: Path, p: Path)
    requires FileAtOrBelow(c, dir, p)
    ensures |p| > |dir| && p[..|dir|] == dir
    decreases c
  {
    match c
    case File(name) =>
    case Dir(name, children) =>
      var k :| 0 <= k < |children| && FileAtOrBelow(children[k], dir + [name], p);
      FileAtOrBelowIsUnder(children[k], dir + [name], p);
      assert p[..|dir|] == p[..|dir| + 1][..|dir|];
  }
}
