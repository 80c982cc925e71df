/** Stacks of layers, and opacity spelled out. */
module Assembly {
  import opened Protocol
  import opened Trees
  import opened Layers
  import opened LayerFolding
  import opened LayerLaws

  predicate NormalLayer(members: seq<Member>) {
    forall i | 0 <= i < |members| :: NormalPath(members[i].name)
  }

  // ---- Well-formedness over stacks ---------------------------------------------

  lemma AdditionsAreClean(member: Member)
    requires NormalPath(member.name) && SplitMarker(member).Addition?
    ensures CleanPath(member.name)
  {
    if member.name != [] {
      var parent := member.name[..|member.name| - 1];
      assert forall i | 0 <= i < |parent| :: parent[i] == member.name[i];
    }
  }

  lemma LayerKeepsWellFormed(lower: Tree, members: seq<Member>)
    requires WellFormed(lower) && NormalLayer(members) && Apply(lower, members).Some?
    ensures WellFormed(Apply(lower, members).value)
  {
    hide Apply, SplitMarker, Additions, Markers;
    var tree, additions := Apply(lower, members).value, Additions(members);
    LayerIsDeclarative(lower, members);
    AdditionsExact(members);
    forall p | p in tree ensures CleanPath(p) {
      assert Get(tree, p) == ClosedForm(lower, members, p);
      if p !in Kept(lower, Markers(members)) {
        var n :| n in Added(additions) && p <= n;
        AddedKeys(additions, n, Added(additions)[n]);
        AdditionsAreClean(Member(n, Added(additions)[n]));
        assert forall i | 0 <= i < |p| :: p[i] == n[i];
      }
    }
  }

  /** Apply layer after layer, checking the size bounds (`bounded`) after each. */
  function Stack(layers: seq<seq<Member>>, bounded: Tree -> bool): Option<Tree> {
    if layers == [] then Some(map[])
    else
      var lower := Stack(layers[..|layers| - 1], bounded);
      if lower.None? then None
      else
        var tree := Apply(lower.value, layers[|layers| - 1]);
        if tree.None? || !bounded(tree.value) then None else tree
  }

  /** The whole image: the stack, with a default root, whose root must be a directory. */
  function Image(layers: seq<seq<Member>>, bounded: Tree -> bool): Option<Tree> {
    var stack := Stack(layers, bounded);
    if stack.None? then None
    else
      var tree := InsertDefault(stack.value, ROOT);
      if tree[ROOT].Directory? then Some(tree) else None
  }

  lemma {:induction false} StacksAreWellFormed(layers: seq<seq<Member>>, bounded: Tree -> bool)
    requires forall i | 0 <= i < |layers| :: NormalLayer(layers[i])
    requires Stack(layers, bounded).Some?
    ensures WellFormed(Stack(layers, bounded).value)
  {
    if layers != [] {
      StacksAreWellFormed(layers[..|layers| - 1], bounded);
      LayerKeepsWellFormed(Stack(layers[..|layers| - 1], bounded).value, layers[|layers| - 1]);
    }
  }

  /** Every accepted stack of layers gives a tree whose root is a directory, where every ancestor of
      every entry is a directory that is there, and no component is a marker name. */
  lemma ImagesAreWellFormed(layers: seq<seq<Member>>, bounded: Tree -> bool)
    requires forall i | 0 <= i < |layers| :: NormalLayer(layers[i])
    requires Image(layers, bounded).Some?
    ensures var tree := Image(layers, bounded).value;
            ROOT in tree && tree[ROOT].Directory? && WellFormed(tree)
  {
    StacksAreWellFormed(layers, bounded);
    var stack := Stack(layers, bounded).value;
    if ROOT !in stack {
      assert forall p | p in stack :: p == ROOT || ROOT < p;
      assert forall p | p in stack :: p in stack && ROOT < p ==> ROOT in stack;
      assert stack.Keys == {};
    }
  }

  /** The fold over layers, in place. */
  method Assemble(layers: seq<seq<Member>>, bounded: Tree -> bool) returns (ok: bool, tree: CanonicalTree)
    ensures fresh(tree)
    ensures ok <==> Image(layers, bounded).Some?
    ensures ok ==> tree.entries == Image(layers, bounded).value
  {
    tree := new CanonicalTree();
    for i := 0 to |layers|
      invariant fresh(tree) && Stack(layers[..i], bounded) == Some(tree.entries)
    {
      assert layers[..i + 1][..i] == layers[..i];
      ok := tree.ApplyLayer(layers[i]);
      if !ok || !bounded(tree.entries) {
        RefusedStackStays(layers, i + 1, bounded);
        return false, tree;
      }
    }
    assert layers[..|layers|] == layers;
    if ROOT !in tree.entries {
      tree.entries := tree.entries[ROOT := DEFAULT_DIRECTORY];
    }
    ok := tree.entries[ROOT].Directory?;
  }

  lemma {:induction false} RefusedStackStays(layers: seq<seq<Member>>, i: nat, bounded: Tree -> bool)
    requires i <= |layers| && Stack(layers[..i], bounded).None?
    ensures Stack(layers, bounded).None?
    decreases |layers|
  {
    if i == |layers| {
      assert layers[..i] == layers;
    } else {
      var init := layers[..|layers| - 1];
      assert init[..i] == layers[..i];
      RefusedStackStays(init, i, bounded);
    }
  }

  // ---- Opacity spelled out -------------------------------------------------------

  function WhiteoutName(target: Path, child: Name): Path {
    target + [WHITEOUT_PREFIX + child]
  }

  predicate WhitesOut(member: Member, target: Path, child: Name) {
    member.name == WhiteoutName(target, child)
  }

  ghost predicate WhitesOutOne(member: Member, children: set<Name>, target: Path) {
    exists c: Name | c in children :: WhitesOut(member, target, c)
  }

  ghost predicate WhitesOutChild(member: Member, lower: Tree, target: Path) {
    exists c: Name | target + [c] in lower :: WhitesOut(member, target, c)
  }

  predicate Used(members: seq<Member>, name: Path) {
    exists i | 0 <= i < |members| :: members[i].name == name
  }

  /** `whiteouts` names each child of `target` in the lower tree that the other members do not
      already name in a whiteout. */
  ghost predicate SpellsOut(whiteouts: seq<Member>, lower: Tree, target: Path, others: seq<Member>) {
    && Distinct(whiteouts)
    && (forall i | 0 <= i < |whiteouts| ::
          && EmptyFile(whiteouts[i].entry) && !Used(others, whiteouts[i].name)
          && WhitesOutChild(whiteouts[i], lower, target))
    && (forall c: Name | target + [c] in lower ::
          Used(others, WhiteoutName(target, c)) || Used(whiteouts, WhiteoutName(target, c)))
  }

  lemma WhiteoutSplits(target: Path, child: Name, entry: Entry)
    requires CleanPath(target + [child])
    ensures var split := SplitMarker(Member(WhiteoutName(target, child), entry));
            if EmptyFile(entry) then split == Mark(Whiteout(target + [child])) else split == Refused
  {
    var name := WhiteoutName(target, child);
    var base, parent := name[|name| - 1], name[..|name| - 1];
    assert parent == target && base == WHITEOUT_PREFIX + child;
    assert base[4..] == child;
    assert forall i | 0 <= i < |target| :: (target + [child])[i] == target[i];
    assert (target + [child])[|target|] == child;
    assert OPAQUE_NAME[4..] == WHITEOUT_PREFIX + ".opq";
    assert base != OPAQUE_NAME;
  }

  lemma {:induction false} AdditionsAppend(one: seq<Member>, two: seq<Member>)
    ensures Additions(one + two) == Additions(one) + Additions(two)
  {
    hide SplitMarker;
    if two == [] {
      assert one + two == one;
    } else {
      var init := two[..|two| - 1];
      AdditionsAppend(one, init);
      assert (one + two)[..|one + two| - 1] == one + init;
    }
  }

  lemma {:induction false} NoAdditions(members: seq<Member>)
    requires forall i | 0 <= i < |members| :: !SplitMarker(members[i]).Addition?
    ensures Additions(members) == []
  {
    if members != [] { NoAdditions(members[..|members| - 1]); }
  }

  lemma ReplacedAdditions(before: seq<Member>, middle: seq<Member>, after: seq<Member>)
    requires forall i | 0 <= i < |middle| :: !SplitMarker(middle[i]).Addition?
    ensures Additions(before + middle + after) == Additions(before) + Additions(after)
  {
    NoAdditions(middle);
    AdditionsAppend(before + middle, after);
    AdditionsAppend(before, middle);
  }

  lemma ReadableAround(before: seq<Member>, middle: seq<Member>, after: seq<Member>)
    requires Readable(before + after) && Readable(middle)
    requires forall i | 0 <= i < |middle| :: !Used(before + after, middle[i].name)
    ensures Readable(before + middle + after)
  {
    var all, others, b, c := before + middle + after, before + after, |before|, |before| + |middle|;
    forall i, j | 0 <= i < j < |all| ensures all[i].name != all[j].name {
      var i', j' := if i < b then i else if i < c then i - b else i - |middle|,
        if j < b then j else if j < c then j - b else j - |middle|;
      assert all[i] == if b <= i < c then middle[i'] else others[i'];
      assert all[j] == if b <= j < c then middle[j'] else others[j'];
    }
    forall i | 0 <= i < |all| ensures !SplitMarker(all[i]).Refused? {
      assert all[i] == if i < b then others[i] else if i < c then middle[i - b] else others[i - |middle|];
    }
  }

  lemma ReadableWithout(before: seq<Member>, middle: seq<Member>, after: seq<Member>)
    requires Readable(before + middle + after)
    ensures Readable(before + after)
  {
    var all, others := before + middle + after, before + after;
    forall i, j | 0 <= i < j < |others| ensures others[i].name != others[j].name {
      assert others[i] == all[if i < |before| then i else i + |middle|];
      assert others[j] == all[if j < |before| then j else j + |middle|];
    }
    forall i | 0 <= i < |others| ensures !SplitMarker(others[i]).Refused? {
      assert others[i] == all[if i < |before| then i else i + |middle|];
    }
  }

  lemma MarkersAround(before: seq<Member>, middle: seq<Member>, after: seq<Member>, k: Marker)
    ensures k in Markers(before + middle + after) <==>
            k in Markers(before + after) || exists m | m in middle :: SplitMarker(m) == Mark(k)
  {
    MarkersExact(before + middle + after);
    MarkersExact(before + after);
    assert forall m :: m in before + middle + after <==> m in before + after || m in middle;
  }

  /** Each spelled-out whiteout is a whiteout marker of a lower child. */
  lemma SpelledMarker(whiteouts: seq<Member>, lower: Tree, target: Path, others: seq<Member>, w: Member)
    requires SpellsOut(whiteouts, lower, target, others) && Clean(lower) && w in whiteouts
    ensures exists c: Name | target + [c] in lower :: SplitMarker(w) == Mark(Whiteout(target + [c]))
  {
    var i :| 0 <= i < |whiteouts| && whiteouts[i] == w;
    assert WhitesOutChild(whiteouts[i], lower, target);
    var c: Name :| target + [c] in lower && WhitesOut(whiteouts[i], target, c);
    WhiteoutSplits(target, c, w.entry);
    assert w == Member(WhiteoutName(target, c), w.entry);
  }

  /** Every lower child of the target is whited out, by a spelled-out member or by another one. */
  lemma ChildIsWhitedOut(whiteouts: seq<Member>, lower: Tree, target: Path, before: seq<Member>, after: seq<Member>,
                         child: Name)
    requires SpellsOut(whiteouts, lower, target, before + after) && Clean(lower) && Readable(before + after)
    requires target + [child] in lower
    ensures Whiteout(target + [child]) in Markers(before + whiteouts + after)
  {
    hide SplitMarker, Markers, CleanPath;
    var name, others := WhiteoutName(target, child), before + after;
    MarkersAround(before, whiteouts, after, Whiteout(target + [child]));
    if Used(others, name) {
      var i :| 0 <= i < |others| && others[i].name == name;
      WhiteoutSplits(target, child, others[i].entry);
      assert others[i] == Member(name, others[i].entry);
      MarkersExact(others);
    } else {
      var i :| 0 <= i < |whiteouts| && whiteouts[i].name == name;
      WhiteoutSplits(target, child, whiteouts[i].entry);
      assert whiteouts[i] == Member(name, whiteouts[i].entry);
      assert whiteouts[i] in whiteouts;
    }
  }

  lemma SurvivesBySet(markers: seq<Marker>, p: Path)
    ensures Survives(markers, p) <==> forall k | k in markers :: !Removes(k, p)
  {}

  lemma AllowedByMembership(tree: Tree, additions: seq<Member>, markers: seq<Marker>)
    ensures MarkersAllowed(tree, additions, markers) <==> forall k | k in markers :: MarkerAllowed(tree, additions, k)
  {}

  lemma WhitedOutIsHidden(lower: Tree, target: Path, before: seq<Member>, hiding: Member, after: seq<Member>,
                          whiteouts: seq<Member>, k: Marker, p: Path)
    requires Clean(lower) && SplitMarker(hiding) == Mark(Opaque(target))
             && SpellsOut(whiteouts, lower, target, before + after)
    requires k in Markers(before + whiteouts + after) && Removes(k, p)
    ensures !Survives(Markers(before + [hiding] + after), p)
  {
    var one := Markers(before + [hiding] + after);
    MarkersAround(before, whiteouts, after, k);
    MarkersAround(before, [hiding], after, k);
    MarkersAround(before, [hiding], after, Opaque(target));
    assert hiding in [hiding];
    if k !in one {
      var w :| w in whiteouts && SplitMarker(w) == Mark(k);
      SpelledMarker(whiteouts, lower, target, before + after, w);
      assert Opaque(target) in one && Removes(Opaque(target), p);
    }
  }

  lemma HiddenIsWhitedOut(lower: Tree, target: Path, before: seq<Member>, hiding: Member, after: seq<Member>,
                          whiteouts: seq<Member>, k: Marker, p: Path)
    requires WellFormed(lower) && Readable(before + after) && SplitMarker(hiding) == Mark(Opaque(target))
    requires SpellsOut(whiteouts, lower, target, before + after)
    requires k in Markers(before + [hiding] + after) && Removes(k, p) && p in lower
    ensures !Survives(Markers(before + whiteouts + after), p)
  {
    var two := Markers(before + whiteouts + after);
    MarkersAround(before, [hiding], after, k);
    MarkersAround(before, whiteouts, after, k);
    if k !in two {
      var child := ChildOnTheWay(lower, target, p);
      ChildIsWhitedOut(whiteouts, lower, target, before, after, child);
      assert Removes(Whiteout(target + [child]), p);
    }
  }

  lemma ChildOnTheWay(lower: Tree, target: Path, p: Path) returns (child: Name)
    requires Rooted(lower) && p in lower && target < p
    ensures target + [child] in lower && target + [child] <= p
  {
    child := p[|target|];
    var q := p[..|target| + 1];
    assert q == target + [child] && (q == p || q < p);
  }

  lemma SameKept(lower: Tree, target: Path, before: seq<Member>, hiding: Member, after: seq<Member>,
                 whiteouts: seq<Member>)
    requires WellFormed(lower) && Readable(before + after) && SplitMarker(hiding) == Mark(Opaque(target))
    requires SpellsOut(whiteouts, lower, target, before + after)
    ensures Kept(lower, Markers(before + [hiding] + after)) == Kept(lower, Markers(before + whiteouts + after))
  {
    var one, two := Markers(before + [hiding] + after), Markers(before + whiteouts + after);
    forall p | p in lower ensures Survives(one, p) <==> Survives(two, p) {
      SurvivesBySet(one, p);
      SurvivesBySet(two, p);
      if k :| k in two && Removes(k, p) {
        WhitedOutIsHidden(lower, target, before, hiding, after, whiteouts, k, p);
      }
      if k :| k in one && Removes(k, p) {
        HiddenIsWhitedOut(lower, target, before, hiding, after, whiteouts, k, p);
      }
    }
  }

  lemma SameAllowed(lower: Tree, additions: seq<Member>, target: Path, before: seq<Member>, hiding: Member,
                    after: seq<Member>, whiteouts: seq<Member>)
    requires WellFormed(lower) && SplitMarker(hiding) == Mark(Opaque(target))
    requires SpellsOut(whiteouts, lower, target, before + after)
    ensures MarkersAllowed(lower, additions, Markers(before + [hiding] + after)) <==>
            && MarkersAllowed(lower, additions, Markers(before + whiteouts + after))
            && MarkerAllowed(lower, additions, Opaque(target))
  {
    hide Markers, MarkersAllowed, SpellsOut, SplitMarker;
    var one, two := Markers(before + [hiding] + after), Markers(before + whiteouts + after);
    AllowedByMembership(lower, additions, one);
    AllowedByMembership(lower, additions, two);
    MarkersAround(before, [hiding], after, Opaque(target));
    assert hiding in [hiding];
    forall k | k in two ensures k in one
      || (MarkerAllowed(lower, additions, Opaque(target)) ==> MarkerAllowed(lower, additions, k)) {
      MarkersAround(before, whiteouts, after, k);
      MarkersAround(before, [hiding], after, k);
      if k !in one {
        var w :| w in whiteouts && SplitMarker(w) == Mark(k);
        SpelledMarker(whiteouts, lower, target, before + after, w);
        assert forall p | Traverses(k, p) :: Traverses(Opaque(target), p);
      }
    }
    forall k | k in one && k != Opaque(target) ensures k in two {
      MarkersAround(before, whiteouts, after, k);
      MarkersAround(before, [hiding], after, k);
    }
  }

  lemma SameOpaqueTargets(lower: Tree, target: Path, before: seq<Member>, hiding: Member, after: seq<Member>,
                          whiteouts: seq<Member>, t: Path)
    requires WellFormed(lower) && SplitMarker(hiding) == Mark(Opaque(target))
    requires SpellsOut(whiteouts, lower, target, before + after)
    ensures Opaque(t) in Markers(before + [hiding] + after) <==>
            Opaque(t) in Markers(before + whiteouts + after) || t == target
  {
    MarkersAround(before, whiteouts, after, Opaque(t));
    MarkersAround(before, [hiding], after, Opaque(t));
    assert hiding in [hiding];
    if w :| w in whiteouts && SplitMarker(w) == Mark(Opaque(t)) {
      SpelledMarker(whiteouts, lower, target, before + after, w);
    }
  }

  /** An opaque marker and a whiteout of each lower child give the same tree. The opaque form is
      stricter only about its own target: not a symbolic link left unreplaced, not a non-directory
      in the result. */
  lemma OpaqueIsExplicit(lower: Tree, target: Path, before: seq<Member>, hiding: Member, after: seq<Member>,
                         whiteouts: seq<Member>)
    requires WellFormed(lower) && Readable(before + [hiding] + after) && SplitMarker(hiding) == Mark(Opaque(target))
    requires SpellsOut(whiteouts, lower, target, before + after)
    ensures var explicit := Apply(lower, before + whiteouts + after);
            Apply(lower, before + [hiding] + after) ==
            if && explicit.Some?
               && MarkerAllowed(lower, Additions(before + after), Opaque(target))
               && (target in explicit.value ==> explicit.value[target].Directory?)
            then explicit else None
  {
    var one, two := before + [hiding] + after, before + whiteouts + after;
    ReadableWithout(before, [hiding], after);
    forall i | 0 <= i < |whiteouts| ensures SplitMarker(whiteouts[i]).Mark? {
      SpelledMarker(whiteouts, lower, target, before + after, whiteouts[i]);
    }
    ReadableAround(before, whiteouts, after);
    ReplacedAdditions(before, [hiding], after);
    ReplacedAdditions(before, whiteouts, after);
    AdditionsAppend(before, after);
    SameKept(lower, target, before, hiding, after, whiteouts);
    SameAllowed(lower, Additions(one), target, before, hiding, after, whiteouts);
    forall t ensures Opaque(t) in Markers(one) <==> Opaque(t) in Markers(two) || t == target {
      SameOpaqueTargets(lower, target, before, hiding, after, whiteouts, t);
    }
    assert forall p :: ClosedForm(lower, one, p) == ClosedForm(lower, two, p);
    LayerIsDeclarative(lower, one);
    LayerIsDeclarative(lower, two);
    if Apply(lower, two).Some? {
      assert Get(Apply(lower, two).value, target) == ClosedForm(lower, two, target);
      if Apply(lower, one).Some? {
        SameLookups(Apply(lower, one).value, Apply(lower, two).value);
      }
    }
  }

  /** `whiteouts` spells out exactly the given children, up to those the other members name. */
  ghost predicate SpellsSome(whiteouts: seq<Member>, children: set<Name>, target: Path, others: seq<Member>) {
    && Distinct(whiteouts)
    && (forall i | 0 <= i < |whiteouts| ::
          && EmptyFile(whiteouts[i].entry) && !Used(others, whiteouts[i].name)
          && WhitesOutOne(whiteouts[i], children, target))
    && (forall c: Name | c in children :: Used(others, WhiteoutName(target, c))
                                          || Used(whiteouts, WhiteoutName(target, c)))
  }

  lemma {:induction false} SpelledOutWithin(children: set<Name>, target: Path, others: seq<Member>)
    returns (whiteouts: seq<Member>)
    ensures SpellsSome(whiteouts, children, target, others)
  {
    if children == {} {
      return [];
    }
    var child :| child in children;
    var remaining := children - {child};
    var rest := SpelledOutWithin(remaining, target, others);
    assert children == remaining + {child};
    if Used(others, WhiteoutName(target, child)) {
      whiteouts := rest;
    } else {
      whiteouts := rest + [Member(WhiteoutName(target, child), File(0, 0, 0, 0, []))];
      SpellOneMore(remaining, child, rest, target, others);
    }
  }

  lemma SpellOneMore(remaining: set<Name>, child: Name, rest: seq<Member>, target: Path, others: seq<Member>)
    requires child !in remaining && SpellsSome(rest, remaining, target, others)
    requires !Used(others, WhiteoutName(target, child))
    ensures SpellsSome(rest + [Member(WhiteoutName(target, child), File(0, 0, 0, 0, []))], remaining + {child}, target,
                       others)
  {
    hide WhiteoutName;
    var name := WhiteoutName(target, child);
    var all := rest + [Member(name, File(0, 0, 0, 0, []))];
    forall i | 0 <= i < |rest| ensures rest[i].name != name && all[i] == rest[i] {
      assert WhitesOutOne(rest[i], remaining, target);
      var c: Name :| c in remaining && WhitesOut(rest[i], target, c);
      if rest[i].name == name {
        SameWhiteoutName(target, c, child);
      }
    }
    assert all[|rest|].name == name && WhitesOut(all[|rest|], target, child);
    forall c: Name | c in remaining + {child}
      && !Used(others, WhiteoutName(target, c)) ensures Used(all, WhiteoutName(target, c)) {
      if c != child {
        var i :| 0 <= i < |rest| && rest[i].name == WhiteoutName(target, c);
        assert all[i].name == WhiteoutName(target, c);
      }
    }
  }

  lemma SameWhiteoutName(target: Path, one: Name, two: Name)
    requires WhiteoutName(target, one) == WhiteoutName(target, two)
    ensures one == two
  {
    assert WhiteoutName(target, one)[|target|] == WHITEOUT_PREFIX + one;
    assert WhiteoutName(target, two)[|target|] == WHITEOUT_PREFIX + two;
    assert (WHITEOUT_PREFIX + one)[4..] == one;
    assert (WHITEOUT_PREFIX + two)[4..] == two;
  }

  lemma InChildren(lower: Tree, target: Path, children: set<Name>, c: Name)
    requires children == set p | p in lower && |p| == |target| + 1 && target < p :: p[|target|]
    ensures c in children <==> target + [c] in lower
  {
    var path := target + [c];
    assert path[|target|] == c;
    if c in children {
      var p :| p in lower && |p| == |target| + 1 && target < p && p[|target|] == c;
      assert p == path;
    }
  }

  /** Every opaque marker can be spelled out. */
  lemma SpelledOut(lower: Tree, target: Path, others: seq<Member>) returns (whiteouts: seq<Member>)
    ensures SpellsOut(whiteouts, lower, target, others)
  {
    var children := set p | p in lower && |p| == |target| + 1 && target < p :: p[|target|];
    whiteouts := SpelledOutWithin(children, target, others);
    forall c: Name | target + [c] in lower
      ensures Used(others, WhiteoutName(target, c)) || Used(whiteouts, WhiteoutName(target, c))
    {
      InChildren(lower, target, children, c);
      assert c in children;
    }
    forall i | 0 <= i < |whiteouts| ensures WhitesOutChild(whiteouts[i], lower, target) {
      assert WhitesOutOne(whiteouts[i], children, target);
      var c: Name :| c in children && WhitesOut(whiteouts[i], target, c);
      InChildren(lower, target, children, c);
    }
  }
}
