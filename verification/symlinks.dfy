/** Resolving symbolic links inside the workload root. */
module Symlinks {
  import opened Protocol
  import opened Trees
  import opened Paths

  const MAX_SYMLINK_TARGET_BYTES: nat := 4096
  const MAX_SYMLINK_HOPS: nat := 40

  predicate SyntaxValid(target: Bytes) {
    target != [] && '\0' !in target && |target| <= MAX_SYMLINK_TARGET_BYTES && target[0] != '/'
  }

  predicate IsLink(tree: Tree, path: Path) {
    path in tree && tree[path].Symlink?
  }

  /** The walk of the loop: pieces still to go through, the path resolved so far and the links
      followed. */
  function Walk(tree: Tree, at: Path, rest: seq<Name>, hops: nat): Option<Path>
    requires hops <= MAX_SYMLINK_HOPS
    decreases MAX_SYMLINK_HOPS - hops, |rest|
  {
    if rest == [] then Some(at)
    else if rest[0] == ".." then
      if at == [] then None else Walk(tree, at[..|at| - 1], rest[1..], hops)
    else
      var next := at + [rest[0]];
      if IsLink(tree, next) then
        if hops == MAX_SYMLINK_HOPS || !SyntaxValid(tree[next].target) then None
        else Walk(tree, at, Pieces(tree[next].target) + rest[1..], hops + 1)
      else Walk(tree, next, rest[1..], hops)
  }

  /** Resolution as a relation, one piece at a time and links in full: from `at`, through `rest`,
      following exactly `links` links, the walk ends at `end`. No bound on links. */
  ghost predicate Leads(tree: Tree, at: Path, rest: seq<Name>, links: nat, end: Path)
    decreases links, |rest|
  {
    if rest == [] then links == 0 && end == at
    else if rest[0] == ".." then at != [] && Leads(tree, at[..|at| - 1], rest[1..], links, end)
    else
      var next := at + [rest[0]];
      if IsLink(tree, next) then
        && SyntaxValid(tree[next].target)
        && exists inner: nat, mid: Path | inner < links ::
             Leads(tree, at, Pieces(tree[next].target), inner, mid)
               && Leads(tree, mid, rest[1..], links - 1 - inner, end)
      else Leads(tree, next, rest[1..], links, end)
  }

  /** Walking two stretches one after the other. */
  lemma {:induction false} LeadsThrough(tree: Tree, at: Path, one: seq<Name>, two: seq<Name>, a: nat, mid: Path, b: nat,
                                        end: Path)
    requires Leads(tree, at, one, a, mid) && Leads(tree, mid, two, b, end)
    ensures Leads(tree, at, one + two, a + b, end)
    decreases a, |one|
  {
    if one == [] {
      assert one + two == two;
    } else {
      assert (one + two)[0] == one[0] && (one + two)[1..] == one[1..] + two;
      var next := at + [one[0]];
      if one[0] == ".." {
        LeadsThrough(tree, at[..|at| - 1], one[1..], two, a, mid, b, end);
      } else if IsLink(tree, next) {
        var inner: nat, m: Path :| inner < a && Leads(tree, at, Pieces(tree[next].target), inner, m)
          && Leads(tree, m, one[1..], a - 1 - inner, mid);
        LeadsThrough(tree, m, one[1..], two, a - 1 - inner, mid, b, end);
        assert a + b - 1 - inner == (a - 1 - inner) + b;
      } else {
        LeadsThrough(tree, next, one[1..], two, a, mid, b, end);
      }
    }
  }

  /** A walk through two stretches passes a point between them. */
  lemma {:induction false} LeadsSplit(tree: Tree, at: Path, one: seq<Name>, two: seq<Name>, links: nat, end: Path)
    returns (a: nat, mid: Path)
    requires Leads(tree, at, one + two, links, end)
    ensures a <= links && Leads(tree, at, one, a, mid) && Leads(tree, mid, two, links - a, end)
    decreases links, |one|
  {
    if one == [] {
      assert one + two == two;
      a, mid := 0, at;
    } else {
      assert (one + two)[0] == one[0] && (one + two)[1..] == one[1..] + two;
      var next := at + [one[0]];
      if one[0] == ".." {
        a, mid := LeadsSplit(tree, at[..|at| - 1], one[1..], two, links, end);
      } else if IsLink(tree, next) {
        var inner: nat, m: Path :| inner < links && Leads(tree, at, Pieces(tree[next].target), inner, m)
          && Leads(tree, m, one[1..] + two, links - 1 - inner, end);
        a, mid := LeadsSplit(tree, m, one[1..], two, links - 1 - inner, end);
        a := a + 1 + inner;
        assert a - 1 - inner < links;
      } else {
        a, mid := LeadsSplit(tree, next, one[1..], two, links, end);
      }
    }
  }

  lemma {:induction false} WalkIsSound(tree: Tree, at: Path, rest: seq<Name>, hops: nat) returns (links: nat)
    requires hops <= MAX_SYMLINK_HOPS && Walk(tree, at, rest, hops).Some?
    ensures hops + links <= MAX_SYMLINK_HOPS
    ensures Leads(tree, at, rest, links, Walk(tree, at, rest, hops).value)
    decreases MAX_SYMLINK_HOPS - hops, |rest|
  {
    if rest == [] {
      links := 0;
    } else if rest[0] == ".." {
      links := WalkIsSound(tree, at[..|at| - 1], rest[1..], hops);
    } else {
      var next := at + [rest[0]];
      if IsLink(tree, next) {
        var end := Walk(tree, at, rest, hops).value;
        var pieces := Pieces(tree[next].target);
        var more := WalkIsSound(tree, at, pieces + rest[1..], hops + 1);
        var inner, mid := LeadsSplit(tree, at, pieces, rest[1..], more, end);
        links := more + 1;
        assert Leads(tree, mid, rest[1..], links - 1 - inner, end);
      } else {
        links := WalkIsSound(tree, next, rest[1..], hops);
      }
    }
  }

  lemma {:induction false} WalkIsComplete(tree: Tree, at: Path, rest: seq<Name>, hops: nat, links: nat, end: Path)
    requires hops + links <= MAX_SYMLINK_HOPS && Leads(tree, at, rest, links, end)
    ensures Walk(tree, at, rest, hops) == Some(end)
    decreases links, |rest|
  {
    if rest != [] {
      var next := at + [rest[0]];
      if rest[0] == ".." {
        WalkIsComplete(tree, at[..|at| - 1], rest[1..], hops, links, end);
      } else if IsLink(tree, next) {
        var pieces := Pieces(tree[next].target);
        var inner: nat, mid: Path :| inner < links && Leads(tree, at, pieces, inner, mid)
          && Leads(tree, mid, rest[1..], links - 1 - inner, end);
        LeadsThrough(tree, at, pieces, rest[1..], inner, mid, links - 1 - inner, end);
        WalkIsComplete(tree, at, pieces + rest[1..], hops + 1, links - 1, end);
      } else {
        WalkIsComplete(tree, next, rest[1..], hops, links, end);
      }
    }
  }

  /** The bounded loop finds `end` exactly when resolution leads there within the hop limit. */
  lemma WalkExact(tree: Tree, at: Path, rest: seq<Name>, end: Path)
    ensures Walk(tree, at, rest, 0) == Some(end) <==>
            exists links: nat | links <= MAX_SYMLINK_HOPS :: Leads(tree, at, rest, links, end)
  {
    if Walk(tree, at, rest, 0) == Some(end) {
      var links := WalkIsSound(tree, at, rest, 0);
      assert links <= MAX_SYMLINK_HOPS && Leads(tree, at, rest, links, end);
    } else if links: nat :| links <= MAX_SYMLINK_HOPS && Leads(tree, at, rest, links, end) {
      WalkIsComplete(tree, at, rest, 0, links, end);
    }
  }

  ghost predicate LinkFree(tree: Tree, path: Path) {
    forall n | 0 < n <= |path| :: !IsLink(tree, path[..n])
  }

  predicate Plain(rest: seq<Name>) {
    forall i | 0 <= i < |rest| :: Paths.Kept(rest[i]) && '/' !in rest[i]
  }

  predicate Inside(path: Path) {
    forall i | 0 <= i < |path| :: Paths.Kept(path[i]) && '/' !in path[i] && path[i] != ".."
  }

  lemma PlainPieces(raw: Bytes)
    ensures Plain(Pieces(raw))
  {
    forall i | 0 <= i < |Pieces(raw)| ensures Paths.Kept(Pieces(raw)[i]) && '/' !in Pieces(raw)[i] {
      PiecesAreKept(raw, i);
    }
  }

  /** A resolved path stays inside the root, with no dot components, and none of its prefixes is a
      link. */
  lemma {:induction false} WalkStaysInside(tree: Tree, at: Path, rest: seq<Name>, hops: nat)
    requires hops <= MAX_SYMLINK_HOPS && Walk(tree, at, rest, hops).Some?
    requires LinkFree(tree, at) && Inside(at) && Plain(rest)
    ensures var end := Walk(tree, at, rest, hops).value; LinkFree(tree, end) && Inside(end)
    decreases MAX_SYMLINK_HOPS - hops, |rest|
  {
    if rest != [] {
      var next := at + [rest[0]];
      if rest[0] == ".." {
        var up := at[..|at| - 1];
        assert forall n | 0 < n <= |up| :: up[..n] == at[..n];
        WalkStaysInside(tree, up, rest[1..], hops);
      } else if IsLink(tree, next) {
        PlainPieces(tree[next].target);
        WalkStaysInside(tree, at, Pieces(tree[next].target) + rest[1..], hops + 1);
      } else {
        assert forall n | 0 < n <= |at| :: next[..n] == at[..n];
        assert next[..|next|] == next;
        WalkStaysInside(tree, next, rest[1..], hops);
      }
    }
  }

  /** Where a link starts: the directory that holds it, then its target. */
  function Start(link: Path, target: Bytes): seq<Name> {
    (if link == [] then [] else link[..|link| - 1]) + Pieces(target)
  }

  /** The resolution loop: a growing list of components read through an index. */
  method ResolveSymlink(tree: Tree, link: Path, target: Bytes) returns (end: Option<Path>)
    ensures end == if SyntaxValid(target) then Walk(tree, [], Start(link, target), 0) else None
  {
    if target == [] || target[0] == '/' || '\0' in target || |target| > 4096 {
      return None;
    }
    var components := Start(link, target);
    var resolved: Path := [];
    var hops, index := 0, 0;
    while index < |components|
      invariant index <= |components| && hops <= MAX_SYMLINK_HOPS
      invariant Walk(tree, resolved, components[index..], hops) == Walk(tree, [], Start(link, target), 0)
      decreases MAX_SYMLINK_HOPS - hops, |components| - index
    {
      var part := components[index];
      assert components[index..][1..] == components[index + 1..];
      index := index + 1;
      if part == ".." {
        if resolved == [] {
          return None;
        }
        resolved := resolved[..|resolved| - 1];
      } else {
        var candidate := resolved + [part];
        if IsLink(tree, candidate) {
          if hops + 1 > MAX_SYMLINK_HOPS || !SyntaxValid(tree[candidate].target) {
            return None;
          }
          hops := hops + 1;
          var expansion := Pieces(tree[candidate].target);
          assert (components[..index] + expansion + components[index..])[index..] == expansion + components[index..];
          components := components[..index] + expansion + components[index..];
        } else {
          resolved := candidate;
        }
      }
    }
    end := Some(resolved);
  }

  /** In a rooted tree the directory that holds a link is itself free of links, so resolution starts
      there. */
  lemma {:induction false} WalkDown(tree: Tree, at: Path, down: Path, rest: seq<Name>)
    requires Rooted(tree) && (forall i | 0 <= i < |down| :: down[i] != "..")
    requires forall n | |at| < n <= |at| + |down| :: !IsLink(tree, (at + down)[..n])
    ensures Walk(tree, at, down + rest, 0) == Walk(tree, at + down, rest, 0)
    decreases |down|
  {
    if down == [] {
      assert at + down == at && down + rest == rest;
    } else {
      var next := at + [down[0]];
      assert (down + rest)[0] == down[0] && (down + rest)[1..] == down[1..] + rest;
      assert next + down[1..] == at + down;
      assert (at + down)[..|at| + 1] == next;
      WalkDown(tree, next, down[1..], rest);
    }
  }

  /** Every link of the tree resolves within the root and the hop limit. */
  ghost predicate LinksResolve(tree: Tree) {
    forall p | IsLink(tree, p) :: SyntaxValid(tree[p].target) && Walk(tree, [], Start(p, tree[p].target), 0).Some?
  }

  method ValidateSymlinks(tree: Tree) returns (ok: bool)
    ensures ok <==> LinksResolve(tree)
  {
    var left := tree.Keys;
    while left != {}
      invariant left <= tree.Keys
      invariant forall p | IsLink(tree, p) && p !in left :: SyntaxValid(tree[p].target)
                                                            && Walk(tree, [], Start(p, tree[p].target), 0).Some?
      decreases |left|
    {
      var p :| p in left;
      if tree[p].Symlink? {
        var end := ResolveSymlink(tree, p, tree[p].target);
        if end.None? {
          assert IsLink(tree, p);
          return false;
        }
      }
      left := left - {p};
    }
    ok := true;
  }

  /** What a validated tree promises of each link: from the directory that holds it, following at most
      forty links, it leads to a place inside the root that no link hides. */
  lemma ValidatedLinks(tree: Tree, link: Path) returns (links: nat, end: Path)
    requires WellFormed(tree) && LinksResolve(tree) && IsLink(tree, link) && link != []
    ensures links <= MAX_SYMLINK_HOPS
    ensures Leads(tree, link[..|link| - 1], Pieces(tree[link].target), links, end)
    ensures LinkFree(tree, end) && Inside(end)
  {
    var home, pieces := link[..|link| - 1], Pieces(tree[link].target);
    assert home < link && CleanPath(link);
    forall n | 0 < n <= |home| ensures !IsLink(tree, home[..n]) {
      assert home[..n] < link;
    }
    assert [] + home == home;
    forall i | 0 <= i < |home| ensures home[i] != ".." && Paths.Kept(home[i]) && '/' !in home[i] {
      assert NormalName(link[i]);
    }
    WalkDown(tree, [], home, pieces);
    PlainPieces(tree[link].target);
    WalkStaysInside(tree, home, pieces, 0);
    end := Walk(tree, home, pieces, 0).value;
    links := WalkIsSound(tree, home, pieces, 0);
  }
}
