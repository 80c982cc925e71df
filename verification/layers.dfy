/** Folding one OCI layer into the canonical tree. */
module Layers {
  import opened Protocol
  import opened Trees

  datatype Member = Member(name: Path, entry: Entry)

  datatype Marker = Whiteout(target: Path) | Opaque(target: Path)

  datatype Split = Refused | Addition | Mark(marker: Marker)

  const OPAQUE_NAME: Bytes := ".wh..wh..opq"

  predicate EmptyFile(entry: Entry) {
    entry.File? && entry.data == []
  }

  /** What one member says: a path to add, or a marker about the lower layers. */
  function SplitMarker(member: Member): Split {
    if member.name == [] then Addition
    else
      var base, parent := member.name[|member.name| - 1], member.name[..|member.name| - 1];
      if exists i | 0 <= i < |parent| :: WHITEOUT_PREFIX <= parent[i] then Refused
      else if base == OPAQUE_NAME then
        if EmptyFile(member.entry) then Mark(Opaque(parent)) else Refused
      else if WHITEOUT_PREFIX <= base then
        if !EmptyFile(member.entry) then Refused
        else
          var target := base[4..];
          if target == [] || target == "." || target == ".." || '/' in target || '\0' in target then Refused
          else Mark(Whiteout(parent + [target]))
      else Addition
  }

  /** No component is the name of a marker. */
  predicate PlainPath(path: Path) {
    forall i | 0 <= i < |path| :: !(".wh." <= path[i])
  }

  /** Which members are additions, opaque markers and whiteouts: everything else is refused. */
  lemma SplitExact(member: Member, dir: Path, name: Name)
    ensures SplitMarker(member) == Addition <==> PlainPath(member.name)
    ensures SplitMarker(member) == Mark(Opaque(dir)) <==>
            member.name == dir + [".wh..wh..opq"] && PlainPath(dir) && EmptyFile(member.entry)
    ensures SplitMarker(member) == Mark(Whiteout(dir + [name])) <==>
            && member.name == dir + [".wh." + name] && PlainPath(dir) && EmptyFile(member.entry)
            && NormalName(name) && name != ".wh..opq"
  {
    if member.name != [] {
      var n := |member.name| - 1;
      var base, parent := member.name[n], member.name[..n];
      assert member.name == parent + [base];
      assert PlainPath(member.name) <==> PlainPath(parent) && !(".wh." <= base);
      assert OPAQUE_NAME[..4] == ".wh." && OPAQUE_NAME[4..] == ".wh..opq";
      assert ".wh." <= base ==> base == ".wh." + base[4..];
      SameLast(parent, base, dir, ".wh." + name);
      SameLast(parent, base, dir, OPAQUE_NAME);
      SameLast(parent, base[if ".wh." <= base then 4 else 0..], dir, name);
      assert (".wh." + name)[4..] == name && ".wh." <= ".wh." + name;
    }
  }

  lemma SameLast(one: Path, a: Name, two: Path, b: Name)
    ensures one + [a] == two + [b] <==> one == two && a == b
  {
    if one + [a] == two + [b] {
      assert (one + [a])[..|one|] == one && (two + [b])[..|two|] == two;
      assert (one + [a])[|one|] == a && (two + [b])[|two|] == b;
    }
  }

  function Markers(members: seq<Member>): seq<Marker> {
    if members == [] then []
    else
      var split := SplitMarker(members[|members| - 1]);
      Markers(members[..|members| - 1]) + if split.Mark? then [split.marker] else []
  }

  function Additions(members: seq<Member>): seq<Member> {
    if members == [] then []
    else
      var last := members[|members| - 1];
      Additions(members[..|members| - 1]) + if SplitMarker(last).Addition? then [last] else []
  }

  /** No two members share a path. */
  predicate Distinct(members: seq<Member>) {
    forall i, j | 0 <= i < j < |members| :: members[i].name != members[j].name
  }

  predicate Readable(members: seq<Member>) {
    Distinct(members) && forall i | 0 <= i < |members| :: !SplitMarker(members[i]).Refused?
  }

  /** The layer itself makes `path` a directory. */
  predicate Provided(additions: seq<Member>, path: Path) {
    exists i | 0 <= i < |additions| ::
      path < additions[i].name || (path == additions[i].name && additions[i].entry.Directory?)
  }

  /** The paths a marker goes through: its target's ancestors, and for opacity the target too. */
  predicate Traverses(marker: Marker, path: Path) {
    path < marker.target || (marker.Opaque? && path == marker.target)
  }

  predicate MarkerAllowed(tree: Tree, additions: seq<Member>, marker: Marker) {
    forall p | p in tree && Traverses(marker, p) :: tree[p].Symlink? ==> Provided(additions, p)
  }

  predicate MarkersAllowed(tree: Tree, additions: seq<Member>, markers: seq<Marker>) {
    forall k | 0 <= k < |markers| :: MarkerAllowed(tree, additions, markers[k])
  }

  function RemoveMarked(tree: Tree, marker: Marker): Tree {
    match marker
    case Whiteout(target) => RemoveSubtree(tree, target)
    case Opaque(target) => RemoveChildren(tree, target)
  }

  function RemoveAllMarked(tree: Tree, markers: seq<Marker>): Tree {
    if markers == [] then tree
    else RemoveMarked(RemoveAllMarked(tree, markers[..|markers| - 1]), markers[|markers| - 1])
  }

  /** Some ancestor of `path` is there and is not a directory. */
  predicate Blocked(tree: Tree, path: Path) {
    exists p | p in tree :: p < path && !tree[p].Directory?
  }

  /** The member replaces an entry of the other sort, directory or not. */
  predicate ChangesSort(tree: Tree, member: Member) {
    member.name in tree && tree[member.name].Directory? != member.entry.Directory?
  }

  function Cleared(tree: Tree, member: Member): Tree {
    if ChangesSort(tree, member) then RemoveSubtree(tree, member.name) else tree
  }

  function Add(tree: Tree, member: Member): Option<Tree> {
    if Blocked(tree, member.name) then None
    else
      var rooted := InsertDefaults(tree, Ancestors(member.name));
      Some(Cleared(rooted, member)[member.name := member.entry])
  }

  function AddAll(tree: Tree, additions: seq<Member>): Option<Tree> {
    if additions == [] then Some(tree)
    else
      var before := AddAll(tree, additions[..|additions| - 1]);
      if before.None? then None else Add(before.value, additions[|additions| - 1])
  }

  /** Every opaque target that is there in the end is a directory. */
  predicate OpacityHolds(tree: Tree, markers: seq<Marker>) {
    forall k | 0 <= k < |markers| && markers[k].Opaque? ::
      markers[k].target in tree ==> tree[markers[k].target].Directory?
  }

  function Apply(tree: Tree, members: seq<Member>): Option<Tree> {
    var markers, additions := Markers(members), Additions(members);
    if !Readable(members) || !MarkersAllowed(tree, additions, markers) then None
    else
      var result := AddAll(RemoveAllMarked(tree, markers), additions);
      if result.None? || !OpacityHolds(result.value, markers) then None else result
  }
}

/** The in-place form: a tree whose entries one layer after another rewrites. */
module LayerFolding {
  import opened Protocol
  import opened Trees
  import opened Layers

  lemma ReadableStep(members: seq<Member>, i: nat)
    requires i < |members|
    ensures members[..i + 1][..i] == members[..i] && members[..i + 1][i] == members[i]
    ensures Readable(members[..i + 1]) <==>
            && Readable(members[..i]) && !SplitMarker(members[i]).Refused?
            && forall k | 0 <= k < i :: members[k].name != members[i].name
    ensures Readable(members) ==> Readable(members[..i + 1])
  {
    var long, short := members[..i + 1], members[..i];
    assert forall k | 0 <= k < i :: long[k] == short[k] == members[k];
    assert long[i] == members[i];
  }

  /** Sort the members into markers and additions; a repeated path or a bad marker refuses all. */
  method SortMembers(members: seq<Member>) returns (ok: bool, markers: seq<Marker>, additions: seq<Member>)
    ensures ok <==> Readable(members)
    ensures ok ==> markers == Markers(members) && additions == Additions(members)
  {
    hide SplitMarker;
    var seen: set<Path> := {};
    markers, additions := [], [];
    for i := 0 to |members|
      invariant forall p :: p in seen <==> exists k | 0 <= k < i :: members[k].name == p
      invariant Readable(members[..i])
      invariant markers == Markers(members[..i]) && additions == Additions(members[..i])
    {
      ReadableStep(members, i);
      if members[i].name in seen {
        return false, [], [];
      }
      seen := seen + {members[i].name};
      match SplitMarker(members[i])
      case Refused => return false, [], [];
      case Addition => additions := additions + [members[i]];
      case Mark(marker) => markers := markers + [marker];
    }
    assert members[..|members|] == members;
    ok := true;
  }

  /** The directories the layer provides: its own and every ancestor of an addition. */
  method CollectProvided(additions: seq<Member>) returns (provided: set<Path>)
    ensures forall p :: p in provided <==> Provided(additions, p)
  {
    provided := {};
    for i := 0 to |additions|
      invariant forall p :: p in provided <==> Provided(additions[..i], p)
    {
      ghost var before := provided;
      var chain := Ancestors(additions[i].name);
      AncestorsExact(additions[i].name);
      if additions[i].entry.Directory? {
        provided := provided + {additions[i].name};
      }
      provided := provided + set p | p in chain;
      forall p ensures p in provided <==> Provided(additions[..i + 1], p) {
        ProvidedStep(additions, i, p);
      }
    }
    assert additions[..|additions|] == additions;
  }

  lemma ProvidedStep(additions: seq<Member>, i: nat, p: Path)
    requires i < |additions|
    ensures Provided(additions[..i + 1], p) <==>
            || Provided(additions[..i], p) || p < additions[i].name
            || (p == additions[i].name && additions[i].entry.Directory?)
  {
    var long, short := additions[..i + 1], additions[..i];
    assert long[i] == additions[i];
    assert forall k | 0 <= k < i :: long[k] == short[k];
  }

  function Chain(marker: Marker): seq<Path> {
    (if marker.Opaque? then [marker.target] else []) + Ancestors(marker.target)
  }

  lemma ChainExact(marker: Marker)
    ensures forall p :: p in Chain(marker) <==> Traverses(marker, p)
  {
    AncestorsExact(marker.target);
  }

  /** No marker goes through a lower symbolic link the layer does not replace by a directory. */
  method CheckMarkers(tree: Tree, markers: seq<Marker>, additions: seq<Member>) returns (ok: bool)
    ensures ok == MarkersAllowed(tree, additions, markers)
  {
    var provided := CollectProvided(additions);
    for k := 0 to |markers|
      invariant forall j | 0 <= j < k :: MarkerAllowed(tree, additions, markers[j])
    {
      var marker := markers[k];
      var chain := Chain(marker);
      ChainExact(marker);
      for i := 0 to |chain|
        invariant forall j | 0 <= j < i && chain[j] in tree && tree[chain[j]].Symlink? :: chain[j] in provided
      {
        if chain[i] in tree && tree[chain[i]].Symlink? && chain[i] !in provided {
          assert chain[i] in chain;
          assert !MarkerAllowed(tree, additions, markers[k]);
          return false;
        }
      }
    }
    ok := true;
  }

  class CanonicalTree {
    var entries: Tree

    constructor ()
      ensures entries == map[]
    {
      entries := map[];
    }

    method RemoveByMarkers(markers: seq<Marker>)
      modifies this
      ensures entries == RemoveAllMarked(old(entries), markers)
    {
      for k := 0 to |markers|
        invariant entries == RemoveAllMarked(old(entries), markers[..k])
      {
        assert markers[..k + 1][..k] == markers[..k];
        match markers[k]
        case Whiteout(target) => entries := RemoveSubtree(entries, target);
        case Opaque(target) => entries := RemoveChildren(entries, target);
      }
      assert markers[..|markers|] == markers;
    }

    /** Add one path: refuse under a non-directory, create missing ancestors, and clear the subtree
        when a directory and a non-directory replace each other. */
    method AddMember(member: Member) returns (ok: bool)
      modifies this
      ensures ok <==> Add(old(entries), member).Some?
      ensures ok ==> entries == Add(old(entries), member).value
    {
      var chain := Ancestors(member.name);
      AncestorsExact(member.name);
      for i := 0 to |chain|
        invariant forall j | 0 <= j < i :: chain[j] in entries ==> entries[chain[j]].Directory?
        invariant entries == old(entries)
      {
        assert chain[i] in chain;
        if chain[i] in entries && !entries[chain[i]].Directory? {
          return false;
        }
      }
      forall p | p < member.name && p in entries ensures entries[p].Directory? {
        assert p in chain;
      }
      for i := 0 to |chain|
        invariant entries == InsertDefaults(old(entries), chain[..i])
      {
        assert chain[..i + 1][..i] == chain[..i];
        if chain[i] !in entries {
          entries := entries[chain[i] := DEFAULT_DIRECTORY];
        }
      }
      assert chain[..|chain|] == chain;
      var existing := Get(entries, member.name);
      if member.entry.Directory? {
        if existing.Some? && !existing.value.Directory? {
          entries := RemoveSubtree(entries, member.name);
        }
      } else if existing.Some? && existing.value.Directory? {
        entries := RemoveSubtree(entries, member.name);
      }
      entries := entries[member.name := member.entry];
      ok := true;
    }

    method AddMembers(additions: seq<Member>) returns (ok: bool)
      modifies this
      ensures ok <==> AddAll(old(entries), additions).Some?
      ensures ok ==> entries == AddAll(old(entries), additions).value
    {
      ok := true;
      for i := 0 to |additions|
        invariant ok && AddAll(old(entries), additions[..i]) == Some(entries)
      {
        assert additions[..i + 1][..i] == additions[..i];
        ok := AddMember(additions[i]);
        if !ok {
          RefusedStaysRefused(old(entries), additions, i + 1);
          return;
        }
      }
      assert additions[..|additions|] == additions;
    }

    /** Fold one layer into the tree. */
    method ApplyLayer(members: seq<Member>) returns (ok: bool)
      modifies this
      ensures ok <==> Apply(old(entries), members).Some?
      ensures ok ==> entries == Apply(old(entries), members).value
    {
      var markers, additions;
      ok, markers, additions := SortMembers(members);
      if !ok {
        return;
      }
      ok := CheckMarkers(entries, markers, additions);
      if !ok {
        return;
      }
      RemoveByMarkers(markers);
      ok := AddMembers(additions);
      if !ok {
        return;
      }
      for k := 0 to |markers|
        invariant forall j | 0 <= j < k && markers[j].Opaque? ::
            markers[j].target in entries ==> entries[markers[j].target].Directory?
        invariant AddAll(RemoveAllMarked(old(entries), markers), additions) == Some(entries)
      {
        if markers[k].Opaque? && markers[k].target in entries && !entries[markers[k].target].Directory? {
          return false;
        }
      }
    }
  }

  lemma {:induction false} RefusedStaysRefused(tree: Tree, additions: seq<Member>, i: nat)
    requires i <= |additions| && AddAll(tree, additions[..i]).None?
    ensures AddAll(tree, additions).None?
    decreases |additions|
  {
    if i == |additions| {
      assert additions[..i] == additions;
    } else {
      var init := additions[..|additions| - 1];
      assert init[..i] == additions[..i];
      RefusedStaysRefused(tree, init, i);
    }
  }
}
