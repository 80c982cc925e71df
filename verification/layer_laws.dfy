/** What folding a layer means, without its loops: the result is a closed formula over the lower tree,
    the set of markers and the set of additions. */
module LayerLaws {
  import opened Protocol
  import opened Trees
  import opened Layers

  // ---- Markers act at once ----------------------------------------------------

  predicate Removes(marker: Marker, path: Path) {
    if marker.Whiteout? then marker.target <= path else marker.target < path
  }

  predicate Survives(markers: seq<Marker>, path: Path) {
    forall k | 0 <= k < |markers| :: !Removes(markers[k], path)
  }

  function Kept(tree: Tree, markers: seq<Marker>): Tree {
    map p | p in tree && Survives(markers, p) :: tree[p]
  }

  lemma {:induction false} MarkersActAtOnce(tree: Tree, markers: seq<Marker>)
    ensures RemoveAllMarked(tree, markers) == Kept(tree, markers)
  {
    if markers != [] {
      var init, last := markers[..|markers| - 1], markers[|markers| - 1];
      MarkersActAtOnce(tree, init);
      forall p ensures Survives(markers, p) <==> Survives(init, p) && !Removes(last, p) {
        assert forall k | 0 <= k < |init| :: init[k] == markers[k];
      }
    }
  }

  lemma KeptIsRooted(tree: Tree, markers: seq<Marker>)
    requires Rooted(tree)
    ensures Rooted(Kept(tree, markers))
  {}

  // ---- Additions -----------------------------------------------------------------

  function Added(additions: seq<Member>): map<Path, Entry> {
    if additions == [] then map[]
    else
      var last := additions[|additions| - 1];
      Added(additions[..|additions| - 1])[last.name := last.entry]
  }

  /** The entry at `path` once `added` is laid over `kept`: nothing below an added non-directory,
      the addition itself, what was kept, or a directory made for something below. */
  ghost function Laid(kept: Tree, added: map<Path, Entry>, path: Path): Option<Entry> {
    if exists n | n in added :: n < path && !added[n].Directory? then None
    else if path in added then Some(added[path])
    else if path in kept then Some(kept[path])
    else if exists n | n in added :: path < n then Some(DEFAULT_DIRECTORY)
    else None
  }

  /** Above `path`, everything added so far is a directory and every kept non-directory has been
      replaced. */
  ghost predicate Open(kept: Tree, added: map<Path, Entry>, path: Path) {
    && (forall q | q in added && q < path :: added[q].Directory?)
    && (forall q | q in kept && q < path :: kept[q].Directory? || q in added)
  }

  /** Each addition finds its ancestors open when its turn comes. */
  ghost predicate InTurn(kept: Tree, additions: seq<Member>) {
    forall i | 0 <= i < |additions| :: Open(kept, Added(additions[..i]), additions[i].name)
  }

  ghost predicate IsLaid(tree: Tree, kept: Tree, added: map<Path, Entry>) {
    forall p :: Get(tree, p) == Laid(kept, added, p)
  }

  lemma {:induction false} HighestNonDirectory(added: map<Path, Entry>, path: Path, n: Path) returns (top: Path)
    requires n in added && n < path && !added[n].Directory?
    ensures top in added && top < path && !added[top].Directory?
    ensures forall q | q in added && q < top :: added[q].Directory?
    decreases |n|
  {
    if q :| q in added && q < n && !added[q].Directory? {
      top := HighestNonDirectory(added, path, q);
    } else {
      top := n;
    }
  }

  lemma BlockedMeansNotOpen(kept: Tree, added: map<Path, Entry>, tree: Tree, path: Path)
    requires IsLaid(tree, kept, added)
    ensures Blocked(tree, path) <==> !Open(kept, added, path)
  {
    if p :| p in tree && p < path && !tree[p].Directory? {
      assert Get(tree, p) == Laid(kept, added, p);
    }
    if !Open(kept, added, path) {
      if n :| n in added && n < path && !added[n].Directory? {
        var top := HighestNonDirectory(added, path, n);
        assert Get(tree, top) == Laid(kept, added, top);
      } else {
        var q :| q in kept && q < path && !kept[q].Directory? && q !in added;
        assert Get(tree, q) == Laid(kept, added, q);
      }
    }
  }

  /** The tree after one unblocked addition, path by path. */
  lemma AddLookup(tree: Tree, member: Member, p: Path)
    requires Rooted(tree) && !Blocked(tree, member.name)
    ensures Get(Add(tree, member).value, p) ==
            if p == member.name then Some(member.entry)
            else if member.name < p && !member.entry.Directory? then None
            else if p in tree then Some(tree[p])
            else if p < member.name then Some(DEFAULT_DIRECTORY) else None
  {
    AncestorsAreProperPrefixes(member.name, p);
    AncestorsAreProperPrefixes(member.name, member.name);
    var chain := Ancestors(member.name);
    InsertDefaultsLookup(tree, chain, p);
    InsertDefaultsLookup(tree, chain, member.name);
  }

  lemma AddKeepsRooted(tree: Tree, member: Member)
    requires Rooted(tree) && !Blocked(tree, member.name)
    ensures Rooted(Add(tree, member).value)
  {
    var result := Add(tree, member).value;
    forall p, q | p in result && q < p ensures q in result && result[q].Directory? {
      AddLookup(tree, member, p);
      AddLookup(tree, member, q);
      assert Get(result, p).Some? && Get(result, q) == Get(result, q);
    }
  }

  lemma AddLays(kept: Tree, added: map<Path, Entry>, tree: Tree, member: Member)
    requires Rooted(tree) && IsLaid(tree, kept, added) && !Blocked(tree, member.name)
    requires member.name !in added
    ensures IsLaid(Add(tree, member).value, kept, added[member.name := member.entry])
  {
    BlockedMeansNotOpen(kept, added, tree, member.name);
    forall p ensures Get(Add(tree, member).value, p) == Laid(kept, added[member.name := member.entry], p) {
      AddLookup(tree, member, p);
      LaidStep(kept, added, tree, member, p);
    }
  }

  lemma LaidStep(kept: Tree, added: map<Path, Entry>, tree: Tree, member: Member, p: Path)
    requires Rooted(tree) && IsLaid(tree, kept, added) && Open(kept, added, member.name)
    requires member.name !in added
    ensures Laid(kept, added[member.name := member.entry], p) ==
            if p == member.name then Some(member.entry)
            else if member.name < p && !member.entry.Directory? then None
            else if p in tree then Some(tree[p])
            else if p < member.name then Some(DEFAULT_DIRECTORY) else None
  {
    var added' := added[member.name := member.entry];
    assert member.name in added' && forall n | n in added :: n in added' && added'[n] == added[n];
    assert Get(tree, p) == Laid(kept, added, p);
    if n :| n in added && n < p && !added[n].Directory? {
      assert n in added' && !(n < member.name);
    }
  }

  lemma {:induction false} AddedKeys(additions: seq<Member>, p: Path, e: Entry)
    requires Distinct(additions)
    ensures p in Added(additions) <==> exists i | 0 <= i < |additions| :: additions[i].name == p
    ensures p in Added(additions) && Added(additions)[p] == e <==> Member(p, e) in additions
  {
    if additions != [] {
      var init, last := additions[..|additions| - 1], additions[|additions| - 1];
      assert additions == init + [last];
      AddedKeys(init, p, e);
      assert Member(last.name, last.entry) == last;
      assert last in additions && forall m | m in init :: m in additions;
      assert Member(p, e) in additions <==> Member(p, e) in init || Member(p, e) == last;
    }
  }

  /** Laying additions down one by one: when each step succeeds and what the steps amount to. */
  lemma {:induction false} AdditionsAreLaid(kept: Tree, additions: seq<Member>)
    requires Rooted(kept) && Distinct(additions)
    ensures AddAll(kept, additions).Some? <==> InTurn(kept, additions)
    ensures AddAll(kept, additions).Some? ==>
              var tree := AddAll(kept, additions).value; Rooted(tree) && IsLaid(tree, kept, Added(additions))
  {
    if additions != [] {
      var n := |additions| - 1;
      var init, last := additions[..n], additions[n];
      AdditionsAreLaid(kept, init);
      InTurnStep(kept, additions);
      if InTurn(kept, init) {
        var tree := AddAll(kept, init).value;
        AddedKeys(init, last.name, last.entry);
        BlockedMeansNotOpen(kept, Added(init), tree, last.name);
        if !Blocked(tree, last.name) {
          AddKeepsRooted(tree, last);
          AddLays(kept, Added(init), tree, last);
        }
      }
    }
  }

  lemma InTurnStep(kept: Tree, additions: seq<Member>)
    requires additions != []
    ensures var n := |additions| - 1;
            InTurn(kept, additions) <==>
            InTurn(kept, additions[..n]) && Open(kept, Added(additions[..n]), additions[n].name)
  {
    hide Added, Open;
    var n := |additions| - 1;
    assert forall i | 0 <= i < n :: additions[..n][..i] == additions[..i];
  }

  // ---- Whole layers ----------------------------------------------------------------

  lemma {:induction false} AdditionsExact(members: seq<Member>)
    ensures forall m :: m in Additions(members) <==> m in members && SplitMarker(m).Addition?
    ensures Distinct(members) ==> Distinct(Additions(members))
  {
    if members != [] {
      var init, last := members[..|members| - 1], members[|members| - 1];
      assert members == init + [last];
      AdditionsExact(init);
      if Distinct(members) {
        forall m | m in Additions(init) ensures m.name != last.name {
          assert m in init;
        }
        assert forall k | 0 <= k < |Additions(init)| :: Additions(init)[k] in Additions(init);
      }
    }
  }

  lemma {:induction false} MarkersExact(members: seq<Member>)
    ensures forall k :: k in Markers(members) <==> exists m | m in members :: SplitMarker(m) == Mark(k)
  {
    if members != [] {
      var init, last := members[..|members| - 1], members[|members| - 1];
      assert members == init + [last];
      MarkersExact(init);
      forall k ensures k in Markers(members) <==> exists m | m in members :: SplitMarker(m) == Mark(k) {
        assert k in Markers(members) <==> k in Markers(init) || SplitMarker(last) == Mark(k);
      }
    }
  }

  /** The entry at `path` after the layer, read off the lower tree, the markers and the additions. */
  ghost function ClosedForm(lower: Tree, members: seq<Member>, path: Path): Option<Entry> {
    Laid(Kept(lower, Markers(members)), Added(Additions(members)), path)
  }

  /** Exactly when a layer is accepted. */
  ghost predicate Acceptable(lower: Tree, members: seq<Member>) {
    && Readable(members)
    && MarkersAllowed(lower, Additions(members), Markers(members))
    && InTurn(Kept(lower, Markers(members)), Additions(members))
    && forall t | Opaque(t) in Markers(members) :: ClosedForm(lower, members, t).None?
                                                   || ClosedForm(lower, members, t).value.Directory?
  }

  /** A layer is accepted exactly when it is acceptable, and the result is the closed form. */
  lemma LayerIsDeclarative(lower: Tree, members: seq<Member>)
    requires Rooted(lower)
    ensures Apply(lower, members).Some? <==> Acceptable(lower, members)
    ensures Apply(lower, members).Some? ==> Rooted(Apply(lower, members).value)
    ensures Apply(lower, members).Some? ==>
              forall p :: Get(Apply(lower, members).value, p) == ClosedForm(lower, members, p)
  {
    var markers, additions := Markers(members), Additions(members);
    if Readable(members) {
      MarkersActAtOnce(lower, markers);
      KeptIsRooted(lower, markers);
      AdditionsExact(members);
      AdditionsAreLaid(Kept(lower, markers), additions);
      if InTurn(Kept(lower, markers), additions) {
        OpacityByLookup(AddAll(Kept(lower, markers), additions).value, lower, members);
      }
    }
  }

  lemma OpacityByLookup(tree: Tree, lower: Tree, members: seq<Member>)
    requires forall p :: Get(tree, p) == ClosedForm(lower, members, p)
    ensures OpacityHolds(tree, Markers(members)) <==>
            forall t | Opaque(t) in Markers(members) :: ClosedForm(lower, members, t).None?
                                                        || ClosedForm(lower, members, t).value.Directory?
  {
    var markers := Markers(members);
    forall t | Opaque(t) in markers
      ensures (t in tree ==> tree[t].Directory?) <==>
              (ClosedForm(lower, members, t).None? || ClosedForm(lower, members, t).value.Directory?)
    {
      assert Get(tree, t) == ClosedForm(lower, members, t);
    }
    assert forall k | 0 <= k < |markers| && markers[k].Opaque? :: Opaque(markers[k].target) in markers;
    if OpacityHolds(tree, markers) {
      forall t | Opaque(t) in markers ensures t in tree ==> tree[t].Directory? {
        var k :| 0 <= k < |markers| && markers[k] == Opaque(t);
      }
    }
  }

  // ---- Order -------------------------------------------------------------------------

  lemma SameMembers(members: seq<Member>, shuffled: seq<Member>)
    requires multiset(members) == multiset(shuffled)
    ensures forall m :: m in members <==> m in shuffled
  {
    forall m ensures m in members <==> m in shuffled {
      assert m in members <==> m in multiset(members);
      assert m in shuffled <==> m in multiset(shuffled);
    }
  }

  lemma TwiceCounts(members: seq<Member>, i: nat, j: nat)
    requires i < j < |members| && members[i] == members[j]
    ensures multiset(members)[members[i]] >= 2
  {
    assert members == members[..j] + [members[j]] + members[j + 1..];
    assert members[..j][i] == members[i];
    assert members[i] in multiset(members[..j]);
  }

  lemma {:induction false} OnceCounts(members: seq<Member>, m: Member)
    requires Distinct(members)
    ensures multiset(members)[m] <= 1
  {
    if members != [] {
      var init, last := members[..|members| - 1], members[|members| - 1];
      assert members == init + [last];
      OnceCounts(init, m);
      assert m == last ==> m !in init;
      assert multiset(members) == multiset(init) + multiset([last]);
    }
  }

  lemma ShuffleStaysReadable(members: seq<Member>, shuffled: seq<Member>)
    requires multiset(members) == multiset(shuffled) && Readable(members)
    ensures Readable(shuffled)
  {
    SameMembers(members, shuffled);
    forall i, j | 0 <= i < j < |shuffled| ensures shuffled[i].name != shuffled[j].name {
      assert shuffled[i] in shuffled && shuffled[j] in shuffled;
      var a :| 0 <= a < |members| && members[a] == shuffled[i];
      var b :| 0 <= b < |members| && members[b] == shuffled[j];
      if shuffled[i] == shuffled[j] {
        TwiceCounts(shuffled, i, j);
        OnceCounts(members, shuffled[i]);
      } else {
        assert a != b;
      }
    }
    forall i | 0 <= i < |shuffled| ensures !SplitMarker(shuffled[i]).Refused? {
      assert shuffled[i] in shuffled;
    }
  }

  lemma SameMarkers(members: seq<Member>, shuffled: seq<Member>)
    requires multiset(members) == multiset(shuffled)
    ensures forall k :: k in Markers(members) <==> k in Markers(shuffled)
  {
    SameMembers(members, shuffled);
    MarkersExact(members);
    MarkersExact(shuffled);
  }

  lemma KeptBySet(lower: Tree, markers: seq<Marker>, others: seq<Marker>)
    requires forall k :: k in markers <==> k in others
    ensures Kept(lower, markers) == Kept(lower, others)
  {
    forall p ensures Survives(markers, p) <==> Survives(others, p) {
      assert Survives(markers, p) <==> forall k | k in markers :: !Removes(k, p);
      assert Survives(others, p) <==> forall k | k in others :: !Removes(k, p);
    }
  }

  lemma AllowedBySet(lower: Tree, additions: seq<Member>, markers: seq<Marker>, others: seq<Marker>)
    requires forall k | k in others :: k in markers
    requires MarkersAllowed(lower, additions, markers)
    ensures MarkersAllowed(lower, additions, others)
  {
    forall k | 0 <= k < |others| ensures MarkerAllowed(lower, additions, others[k]) {
      assert others[k] in others;
      var j :| 0 <= j < |markers| && markers[j] == others[k];
    }
  }

  lemma ShuffleStaysAcceptable(lower: Tree, members: seq<Member>, shuffled: seq<Member>)
    requires multiset(members) == multiset(shuffled) && Additions(members) == Additions(shuffled)
    requires Acceptable(lower, members)
    ensures Acceptable(lower, shuffled)
    ensures forall p :: ClosedForm(lower, members, p) == ClosedForm(lower, shuffled, p)
  {
    ShuffleStaysReadable(members, shuffled);
    SameMarkers(members, shuffled);
    KeptBySet(lower, Markers(members), Markers(shuffled));
    AllowedBySet(lower, Additions(members), Markers(members), Markers(shuffled));
  }

  /** Moving markers about changes nothing: any reordering that keeps the order of the additions has
      the same outcome, refusal included. */
  lemma MarkersMayMove(lower: Tree, members: seq<Member>, shuffled: seq<Member>)
    requires Rooted(lower)
    requires multiset(members) == multiset(shuffled) && Additions(members) == Additions(shuffled)
    ensures Apply(lower, members) == Apply(lower, shuffled)
  {
    LayerIsDeclarative(lower, members);
    LayerIsDeclarative(lower, shuffled);
    if Acceptable(lower, members) {
      ShuffleStaysAcceptable(lower, members, shuffled);
      SameLookups(Apply(lower, members).value, Apply(lower, shuffled).value);
    } else if Acceptable(lower, shuffled) {
      ShuffleStaysAcceptable(lower, shuffled, members);
    }
  }

  lemma SameAdditions(members: seq<Member>, shuffled: seq<Member>)
    requires multiset(members) == multiset(shuffled) && Distinct(members) && Distinct(shuffled)
    ensures Added(Additions(members)) == Added(Additions(shuffled))
  {
    SameMembers(members, shuffled);
    AdditionsExact(members);
    AdditionsExact(shuffled);
    var one, two := Added(Additions(members)), Added(Additions(shuffled));
    forall p | p in one ensures p in two && two[p] == one[p] {
      AddedKeys(Additions(members), p, one[p]);
      AddedKeys(Additions(shuffled), p, one[p]);
    }
    forall p | p in two ensures p in one {
      AddedKeys(Additions(members), p, two[p]);
      AddedKeys(Additions(shuffled), p, two[p]);
    }
  }

  /** However the members are ordered, every order that succeeds gives the same tree. */
  lemma EveryOrderAgrees(lower: Tree, members: seq<Member>, shuffled: seq<Member>)
    requires Rooted(lower) && multiset(members) == multiset(shuffled)
    requires Apply(lower, members).Some? && Apply(lower, shuffled).Some?
    ensures Apply(lower, members) == Apply(lower, shuffled)
  {
    LayerIsDeclarative(lower, members);
    LayerIsDeclarative(lower, shuffled);
    SameMarkers(members, shuffled);
    KeptBySet(lower, Markers(members), Markers(shuffled));
    SameAdditions(members, shuffled);
    SameLookups(Apply(lower, members).value, Apply(lower, shuffled).value);
  }
}
