/** The canonical workload filesystem: a map from in-root paths to entries. A path is the sequence of
    its components, so the root is the empty sequence and an ancestor is a proper prefix. */
module Trees {
  import opened Protocol

  type Name = Bytes
  type Path = seq<Name>

  const ROOT: Path := []

  datatype Entry =
    | Directory(mode: nat, uid: nat, gid: nat, mtime: nat)
    | File(mode: nat, uid: nat, gid: nat, mtime: nat, data: Bytes)
    | Symlink(mode: nat, uid: nat, gid: nat, mtime: nat, target: Bytes)

  const DEFAULT_DIRECTORY := Directory(0x1ed, 0, 0, 0)

  type Tree = map<Path, Entry>

  function Get(tree: Tree, path: Path): Option<Entry> {
    if path in tree then Some(tree[path]) else None
  }

  lemma SameLookups(t: Tree, u: Tree)
    requires forall p :: Get(t, p) == Get(u, p)
    ensures t == u
  {
    forall p ensures p in t <==> p in u {
      assert Get(t, p) == Get(u, p);
    }
    forall p | p in t ensures t[p] == u[p] {
      assert Get(t, p) == Get(u, p);
    }
  }

  /** The chain from the immediate parent up to the root; the root itself has none. */
  function Ancestors(path: Path): seq<Path> {
    if path == [] then [] else [path[..|path| - 1]] + Ancestors(path[..|path| - 1])
  }

  lemma {:induction false} AncestorsAreProperPrefixes(path: Path, p: Path)
    ensures p in Ancestors(path) <==> p < path
  {
    if path != [] {
      var parent := path[..|path| - 1];
      AncestorsAreProperPrefixes(parent, p);
      assert p < path <==> p == parent || p < parent;
    }
  }

  lemma AncestorsExact(path: Path)
    ensures forall p :: p in Ancestors(path) <==> p < path
  {
    forall p ensures p in Ancestors(path) <==> p < path {
      AncestorsAreProperPrefixes(path, p);
    }
  }

  function RemoveSubtree(tree: Tree, path: Path): Tree {
    map p | p in tree && !(path <= p) :: tree[p]
  }

  function RemoveChildren(tree: Tree, path: Path): Tree {
    map p | p in tree && !(path < p) :: tree[p]
  }

  function InsertDefault(tree: Tree, path: Path): Tree {
    if path in tree then tree else tree[path := DEFAULT_DIRECTORY]
  }

  function InsertDefaults(tree: Tree, paths: seq<Path>): Tree {
    if paths == [] then tree else InsertDefault(InsertDefaults(tree, paths[..|paths| - 1]), paths[|paths| - 1])
  }

  lemma {:induction false} InsertDefaultsLookup(tree: Tree, paths: seq<Path>, p: Path)
    ensures Get(InsertDefaults(tree, paths), p) ==
            if p in tree then Some(tree[p]) else if p in paths then Some(DEFAULT_DIRECTORY) else None
  {
    if paths != [] {
      var init, last := paths[..|paths| - 1], paths[|paths| - 1];
      InsertDefaultsLookup(tree, init, p);
      assert paths == init + [last];
    }
  }

  // ---- Well-formed trees ------------------------------------------------------

  const WHITEOUT_PREFIX: Bytes := ".wh."

  predicate NormalName(name: Name) {
    && name != [] && name != "." && name != ".."
    && '/' !in name && '\0' !in name
  }

  predicate NormalPath(path: Path) {
    forall i | 0 <= i < |path| :: NormalName(path[i])
  }

  predicate CleanPath(path: Path) {
    NormalPath(path) && forall i | 0 <= i < |path| :: !(WHITEOUT_PREFIX <= path[i])
  }

  /** Every proper ancestor of every entry is a directory of the tree. */
  ghost predicate Rooted(tree: Tree) {
    forall p, q | p in tree && q < p :: q in tree && tree[q].Directory?
  }

  /** No component is a marker name. */
  ghost predicate Clean(tree: Tree) {
    forall p | p in tree :: CleanPath(p)
  }

  ghost predicate WellFormed(tree: Tree) {
    Rooted(tree) && Clean(tree)
  }
}
