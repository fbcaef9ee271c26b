/** `remove_resource_references` as it runs: over a stale snapshot, calling itself for tags it empties. */
module References {
  import opened Sequences
  import opened Strings
  import opened Constraints
  import opened ConstraintsInPlace
  import opened ConstraintCommands
  import opened Tags
  import opened CibRest
  import opened TagCascade
  import opened TagCircles

  /** After the turns for `seen`, names `removed` and the matching nodes seen are filtered out. */
  ghost predicate Turns(tags0: seq<Tag>, tags: seq<Tag>, seen: seq<Ref>, name: string, removed: set<string>) {
    && tags == FilterSets(tags0, Gone(removed, MatchingKeys(seen, name)))
    && LeastClosed(tags0, MatchingKeys(seen, name), removed)
  }

  ghost predicate RestTurns(rest0: Rest, rest: Rest, removed: set<string>) {
    if removed == {} then rest == rest0 else rest == FilterRest(rest0, removed)
  }

  lemma {:induction false} NoTurns(tags: seq<Tag>, refs: seq<Ref>, name: string)
    ensures Turns(tags, tags, refs[..0], name, {})
  {
    assert MatchingKeys(refs[..0], name) == {};
    var drop := Gone({}, {});
    assert NoneOf(SetRefs(tags), drop);
    FilterSetsNothing(tags, drop);
    forall t <- tags | t.refs != [] ensures !Emptied(t, drop) {
      assert t.refs[0] in t.refs && !drop(t.refs[0]);
    }
    assert Closed(tags, {}, {});
  }

  lemma {:induction false} SkipTurn(
      tags0: seq<Tag>, tags: seq<Tag>, refs: seq<Ref>, i: nat, name: string, removed: set<string>)
    requires i < |refs| && refs[i].id != name && Turns(tags0, tags, refs[..i], name, removed)
    ensures Turns(tags0, tags, refs[..i + 1], name, removed)
  {
    assert refs[..i + 1] == refs[..i] + [refs[i]];
    MatchingKeysSnoc(refs[..i], refs[i], name);
    assert MatchingKeys(refs[..i], name) + {} == MatchingKeys(refs[..i], name);
  }

  lemma {:induction false} TakeTurn(
      tags0: seq<Tag>, before: seq<Tag>, tags: seq<Tag>, refs: seq<Ref>, i: nat, name: string,
      removed: set<string>, inner: set<string>)
    requires i < |refs| && refs[i].id == name && Turns(tags0, before, refs[..i], name, removed)
    requires tags == FilterSets(before, Gone(inner, {refs[i].key}))
    requires LeastClosed(before, {refs[i].key}, inner)
    ensures Turns(tags0, tags, refs[..i + 1], name, removed + inner)
  {
    assert refs[..i + 1] == refs[..i] + [refs[i]];
    MatchingKeysSnoc(refs[..i], refs[i], name);
    var keys := MatchingKeys(refs[..i], name);
    var p, q, both := Gone(removed, keys), Gone(inner, {refs[i].key}), Gone(removed + inner, keys + {refs[i].key});
    FilterSetsTwice(tags0, p, q, both);
    LeastTwice(tags0, keys, removed, {refs[i].key}, inner);
  }

  /** The turn of an attached node. */
  lemma {:induction false} NextTurn(tags0: seq<Tag>, tags: seq<Tag>, rest0: Rest, rest: Rest, refs: seq<Ref>, i: nat,
                                    name: string, removed: set<string>)
    requires i < |refs| && refs == SetRefs(tags0) && refs[i].id == name && RestValid(rest0)
    requires Turns(tags0, tags, refs[..i], name, removed) && RestTurns(rest0, rest, removed)
    ensures var inner := LeastOf(tags, {refs[i].key});
      && Turns(tags0, FilterSets(tags, Gone(inner, {refs[i].key})), refs[..i + 1], name, removed + inner)
      && (UniqueTagIds(tags0) && Findable(rest0, removed) ==>
            (Findable(rest0, removed + inner) <==> Findable(rest, inner)))
      && removed + inner <= Removal(tags0, name)
  {
    var inner := LeastOf(tags, {refs[i].key});
    LeastOfIsLeast(tags, {refs[i].key});
    TakeTurn(tags0, tags, FilterSets(tags, Gone(inner, {refs[i].key})), refs, i, name, removed, inner);
    TurnsInRemoval(tags0, refs, i + 1, name, removed + inner);
    if UniqueTagIds(tags0) {
      TurnsApart(tags0, tags, refs[..i], name, removed, {refs[i].key});
      FindableTurn(rest0, rest, removed, inner);
    }
  }

  lemma {:induction false} RestTurn(rest0: Rest, before: Rest, rest: Rest, removed: set<string>, inner: set<string>)
    requires RestTurns(rest0, before, removed) && RestTurns(before, rest, inner)
    ensures RestTurns(rest0, rest, removed + inner)
  {
    if removed != {} && inner != {} {
      FilterRestTwice(rest0, removed, inner);
    }
    assert removed + {} == removed && {} + inner == inner;
  }

  /** The node of the snapshot that is asked for its parent has one, unless the cascade has come back to the name. */
  lemma {:induction false} TurnIsAttached(
      tags0: seq<Tag>, tags: seq<Tag>, refs: seq<Ref>, i: nat, name: string, removed: set<string>)
    requires refs == SetRefs(tags0) && DistinctRefs(refs) && i < |refs| && refs[i].id == name
    requires Turns(tags0, tags, refs[..i], name, removed)
    ensures refs[i] in SetRefs(tags) <==> name !in removed
    ensures refs[i] in SetRefs(tags) <==> !Returns(tags0, MatchingKeys(refs[..i], name), name)
  {
    var drop := Gone(removed, MatchingKeys(refs[..i], name));
    SetRefsOfFilter(tags0, drop);
    FilterRefsKeeps(refs, drop);
    NotRemovedYet(refs, i, name);
    assert Closed(tags0, MatchingKeys(refs[..i], name), removed);
  }

  lemma {:induction false} TurnsEnd(tags0: seq<Tag>, tags: seq<Tag>, refs: seq<Ref>, name: string, removed: set<string>)
    requires refs == SetRefs(tags0) && DistinctRefs(refs) && Turns(tags0, tags, refs, name, removed)
    ensures removed == LeastOf(tags0, MatchingKeys(refs, name))
    ensures tags == FilterSets(tags0, ByNames(Removal(tags0, name)))
  {
    var keys := MatchingKeys(refs, name);
    KeysMeanName(refs, name);
    LeastOfIsLeast(tags0, keys);
    FilterSetsSame(tags0, Gone(removed, keys), ByNames(Removal(tags0, name)));
  }

  // ----- one reference -------------------------------------------------------

  lemma {:induction false} OneParent(tags: seq<Tag>, i: nat, j: nat, key: nat)
    requires DistinctRefs(SetRefs(tags)) && i < |tags| && j < |tags|
    requires HasKey(tags[i].refs, key) && HasKey(tags[j].refs, key)
    ensures i == j
  {
    var a, b := if i < j then i else j, if i < j then j else i;
    if a < b {
      var later := tags[1..];
      if a == 0 {
        assert later[b - 1] == tags[b];
        KeyInSet(later, b - 1, key);
        DistinctSplit(tags[0].refs, SetRefs(later));
      } else {
        assert later[a - 1] == tags[a] && later[b - 1] == tags[b];
        DistinctSplit(tags[0].refs, SetRefs(later));
        OneParent(later, a - 1, b - 1, key);
      }
    }
  }

  lemma {:induction false} KeyInSet(tags: seq<Tag>, i: nat, key: nat)
    requires i < |tags| && HasKey(tags[i].refs, key)
    ensures HasKey(SetRefs(tags), key)
  {
    var k :| 0 <= k < |tags[i].refs| && tags[i].refs[k].key == key;
    assert tags[i] in tags && tags[i].refs[k] in tags[i].refs;
    SetRefsMember(tags, tags[i].refs[k]);
    InSetRefs(tags, tags[i].refs[k]);
  }

  /** What taking one node out of its parent leaves, with the parent standing or emptied. */
  lemma {:induction false} Detaching(tags: seq<Tag>, r: Ref, i: nat, refs: seq<Ref>)
    requires OneTagEach(tags) && r in SetRefs(tags) && HasKey(SetRefs(tags), r.key) && i == ParentOf(tags, r.key)
    requires refs == DetachRef(tags[i].refs, r.key)
    ensures FilterSets(tags, ByKeys({r.key})) ==
      tags[..i] + (if refs == [] then [] else [tags[i].(refs := refs)]) + tags[i + 1..]
    ensures refs != [] ==> LeastClosed(tags, {r.key}, {})
    ensures refs == [] ==> Emptied(tags[i], ByKeys({r.key}))
  {
    var drop, t := ByKeys({r.key}), tags[i];
    DetachAtParent(tags, r.key, i, refs);
    DetachInSetsIsFilter(tags, r.key, drop);
    TagRefsDistinct(tags, i);
    DetachRefIsFilter(t.refs, r.key, drop);
    AllRefsDropped(t.refs, drop);
    forall u <- tags | Emptied(u, drop) ensures u == t && refs == [] {
      var j :| 0 <= j < |tags| && tags[j] == u;
      assert u.refs[0] in u.refs;
      assert HasKey(u.refs, r.key);
      OneParent(tags, i, j, r.key);
    }
    if refs != [] {
      forall u <- tags ensures !Emptied(u, Gone({}, {r.key})) {
        assert Emptied(u, Gone({}, {r.key})) ==> Emptied(u, drop);
      }
      assert Closed(tags, {r.key}, {});
    }
  }

  lemma {:induction false} TagRefsDistinct(tags: seq<Tag>, i: nat)
    requires DistinctRefs(SetRefs(tags)) && i < |tags|
    ensures DistinctRefs(tags[i].refs)
  {
    DistinctSplit(tags[0].refs, SetRefs(tags[1..]));
    if i > 0 {
      TagRefsDistinct(tags[1..], i - 1);
    }
  }

  lemma {:induction false} InSetRefs(tags: seq<Tag>, r: Ref)
    requires r in SetRefs(tags)
    ensures HasKey(SetRefs(tags), r.key)
  {
    var k :| 0 <= k < |SetRefs(tags)| && SetRefs(tags)[k] == r;
    assert SetRefs(tags)[k].key == r.key;
  }

  lemma {:induction false} StandingParent(tags: seq<Tag>, r: Ref, i: nat, refs: seq<Ref>)
    requires i < |tags| && refs != []
    requires FilterSets(tags, ByKeys({r.key})) == tags[..i] + [tags[i].(refs := refs)] + tags[i + 1..]
    ensures FilterSets(tags, Gone({}, {r.key})) == tags[..i] + [tags[i].(refs := refs)] + tags[i + 1..]
  {
    FilterSetsSame(tags, ByKeys({r.key}), Gone({}, {r.key}));
  }

  function Parted(tags: seq<Tag>, i: nat): seq<Tag>
    requires i < |tags|
  {
    tags[..i] + [tags[i].(refs := [])] + tags[i + 1..]
  }

  lemma {:induction false} PartedMember(tags: seq<Tag>, i: nat, t: Tag)
    requires i < |tags|
    ensures t in Parted(tags, i) <==> t in tags[..i] + tags[i + 1..] || t == tags[i].(refs := [])
  {
  }

  lemma {:induction false} PartedDistinct(tags: seq<Tag>, i: nat)
    requires DistinctTags(tags) && i < |tags|
    ensures DistinctTags(Parted(tags, i))
  {
    assert forall j | 0 <= j < |tags| :: Parted(tags, i)[j].key == tags[j].key;
  }

  /** An emptied tag may be removed by name: the call for its id starts from fewer references. */
  lemma {:induction false} EmptiedParent(tags: seq<Tag>, r: Ref, i: nat, left: seq<Tag>)
    requires OneTagEach(tags) && r in SetRefs(tags)
    requires i < |tags| && Emptied(tags[i], ByKeys({r.key})) && left == Parted(tags, i)
    requires FilterSets(tags, ByKeys({r.key})) == tags[..i] + tags[i + 1..]
    ensures OneTagEach(left) && |SetRefs(left)| < |SetRefs(tags)|
  {
    var drop := ByKeys({r.key});
    OnlyRef(tags, r, i);
    assert tags[i] in tags && tags[i].refs[0] in tags[i].refs;
    SetRefsAround(tags[..i], tags[i].(refs := []), tags[i + 1..]);
    SetRefsOfFilter(tags, drop);
    FilterRefsShrinks(SetRefs(tags), drop);
    FilterRefsKeeps(SetRefs(tags), drop);
    PartedDistinct(tags, i);
  }

  lemma {:induction false} PartedRanked(
      tags: seq<Tag>, r: Ref, i: nat, doomed: string -> bool, rank: string -> nat, left: seq<Tag>)
    requires DistinctRefs(SetRefs(tags)) && Ranked(tags, doomed, rank) && doomed(r.id) && r in SetRefs(tags)
    requires i < |tags| && Emptied(tags[i], ByKeys({r.key})) && left == Parted(tags, i)
    ensures Ranked(left, doomed, rank) && doomed(tags[i].id)
  {
    OnlyRef(tags, r, i);
    assert tags[i] in tags;
    forall t <- left | t.refs != [] && forall s <- t.refs :: doomed(s.id)
      ensures doomed(t.id) && forall s <- t.refs :: rank(s.id) < rank(t.id)
    {
      PartedMember(tags, i, t);
      assert t in tags;
    }
  }

  lemma {:induction false} PartedUnique(tags: seq<Tag>, i: nat)
    requires UniqueTagIds(tags) && DistinctTags(tags) && i < |tags|
    ensures UniqueIds(Parted(tags, i), tags[i].id)
  {
    var left := Parted(tags, i);
    forall j, k | 0 <= j < |tags| && 0 <= k < |tags| && left[j].id == left[k].id ensures j == k {
      assert tags[j] in tags && tags[k] in tags;
      assert tags[j] == tags[k];
    }
  }

  /** The call for the id of an emptied tag starts in order, and does not come back to it. */
  lemma {:induction false} PartedOrderly(tags: seq<Tag>, r: Ref, i: nat, left: seq<Tag>)
    requires OneTagEach(tags) && Orderly(tags, r.id) && r in SetRefs(tags) && OneTagEach(left)
    requires i < |tags| && Emptied(tags[i], ByKeys({r.key})) && left == Parted(tags, i)
    ensures Orderly(left, tags[i].id) && (UniqueTagIds(tags) ==> UniqueTagIds(left))
    ensures !ComesBack(left, tags[i].id) && !Circles(left, tags[i].id)
  {
    if UniqueTagIds(tags) {
      PartedUnique(tags, i);
      var ranks := UniqueIsRanked(left, tags[i].id);
      assert DoomedBy(ranks)(tags[i].id);
      RankedNeverReturns(left, tags[i].id, DoomedBy(ranks), RankBy(ranks));
    } else {
      var doomed: string -> bool, rank: string -> nat :| Ranked(tags, doomed, rank) && doomed(r.id);
      PartedRanked(tags, r, i, doomed, rank, left);
      RankedNeverReturns(left, tags[i].id, doomed, rank);
    }
  }

  lemma {:induction false} SetRefsAround(a: seq<Tag>, t: Tag, b: seq<Tag>)
    requires t.refs == []
    ensures SetRefs(a + [t] + b) == SetRefs(a + b)
  {
    if a == [] {
      assert a + [t] + b == [t] + b && a + b == b;
      assert ([t] + b)[1..] == b;
    } else {
      assert (a + [t] + b)[1..] == a[1..] + [t] + b && (a + b)[1..] == a[1..] + b;
      SetRefsAround(a[1..], t, b);
    }
  }

  /** References with the same key are one reference. */
  lemma {:induction false} SameKeySameRef(tags: seq<Tag>, r: Ref, s: Ref)
    requires DistinctRefs(SetRefs(tags)) && r in SetRefs(tags) && s in SetRefs(tags) && r.key == s.key
    ensures r == s
  {
    var k :| 0 <= k < |SetRefs(tags)| && SetRefs(tags)[k] == r;
    var l :| 0 <= l < |SetRefs(tags)| && SetRefs(tags)[l] == s;
    assert k == l;
  }

  lemma {:induction false} OnlyRef(tags: seq<Tag>, r: Ref, i: nat)
    requires DistinctRefs(SetRefs(tags)) && r in SetRefs(tags) && i < |tags| && Emptied(tags[i], ByKeys({r.key}))
    ensures forall s <- tags[i].refs :: s == r
    ensures forall t <- tags, s <- t.refs :: s.key == r.key ==> s == r
  {
    forall t <- tags, s <- t.refs | s.key == r.key ensures s == r {
      SetRefsMember(tags, s);
      SameKeySameRef(tags, r, s);
    }
  }

  /** Names that are closed before the node goes take its emptied parent and are closed after that, and the converse. */
  lemma {:induction false} ClosedParted(tags: seq<Tag>, r: Ref, i: nat, names: set<string>, left: seq<Tag>)
    requires i < |tags| && Emptied(tags[i], ByKeys({r.key})) && left == Parted(tags, i)
    requires forall t <- tags[..i] + tags[i + 1..], s <- t.refs :: s.key != r.key
    ensures Closed(tags, {r.key}, names) <==> Takes(left, tags[i].id, names)
  {
    if Closed(tags, {r.key}, names) {
      assert Emptied(tags[i], Gone(names, {r.key}));
      forall t <- left | Emptied(t, ByNames(names)) ensures t.id in names {
        PartedMember(tags, i, t);
        assert t in tags && Emptied(t, Gone(names, {r.key}));
      }
    }
    if Takes(left, tags[i].id, names) {
      forall t <- tags | Emptied(t, Gone(names, {r.key})) ensures t.id in names {
        if t != tags[i] {
          assert t in tags[..i] + tags[i + 1..];
          PartedMember(tags, i, t);
          assert Emptied(t, ByNames(names));
        }
      }
    }
  }

  lemma {:induction false} NoneFiltered(tags: seq<Tag>, drop: Ref -> bool)
    ensures forall t <- FilterSets(tags, drop), s <- t.refs :: !drop(s)
  {
    Survivors(tags, drop);
    forall t <- FilterSets(tags, drop), s <- t.refs ensures !drop(s) {
      var u :| u in tags && t == u.(refs := FilterRefs(u.refs, drop));
      FilterRefsKeeps(u.refs, drop);
    }
  }

  lemma {:induction false} ParentTakes(tags: seq<Tag>, r: Ref, i: nat, left: seq<Tag>, removed: set<string>)
    requires ParentEmptied(tags, r, i, left) && LeastRemoval(left, tags[i].id, removed)
    ensures LeastClosed(tags, {r.key}, removed)
  {
    NoneFiltered(tags, ByKeys({r.key}));
    forall t <- tags[..i] + tags[i + 1..], s <- t.refs ensures s.key != r.key {
      assert !ByKeys({r.key})(s);
    }
    ClosedParted(tags, r, i, removed, left);
    forall other: set<string> | Closed(tags, {r.key}, other) ensures removed <= other {
      ClosedParted(tags, r, i, other, left);
    }
  }

  lemma {:induction false} RemovingParent(tags: seq<Tag>, r: Ref, i: nat, left: seq<Tag>)
    requires ParentEmptied(tags, r, i, left)
    ensures var removed := Removal(left, tags[i].id);
      && RemoveTag(FilterSets(left, ByNames(removed)), tags[i].key) == FilterSets(tags, Gone(removed, {r.key}))
      && LeastOf(tags, {r.key}) == removed
  {
    var removed := Removal(left, tags[i].id);
    FilterAroundEmpty(tags[..i], tags[i].(refs := []), tags[i + 1..], ByNames(removed));
    FilterSetsTwice(tags, ByKeys({r.key}), ByNames(removed), Gone(removed, {r.key}));
    LeastOfIsLeast(tags, {r.key});
    RemovalIsLeast(left, tags[i].id);
    ParentTakes(tags, r, i, left, removed);
  }

  lemma {:induction false} KeepsRankable(tags: seq<Tag>, r: Ref, removed: set<string>)
    requires DistinctRefs(SetRefs(tags)) && Rankable(tags, r.id) && r in SetRefs(tags)
    requires LeastClosed(tags, {r.key}, removed)
    ensures Rankable(FilterSets(tags, Gone(removed, {r.key})), r.id)
  {
    var doomed: string -> bool, rank: string -> nat :| Ranked(tags, doomed, rank) && doomed(r.id);
    forall t <- tags, s <- t.refs | s.key == r.key ensures s == r {
      SetRefsMember(tags, s);
      SameKeySameRef(tags, r, s);
    }
    var names := set t <- tags | doomed(t.id) :: t.id;
    forall t <- tags | Emptied(t, Gone(names, {r.key})) ensures t.id in names {
      assert forall s <- t.refs :: Gone(names, {r.key})(s);
    }
    assert Closed(tags, {r.key}, names);
    RankedFilter(tags, doomed, rank, Gone(removed, {r.key}));
  }

  lemma {:induction false} KeepsValid(tags: seq<Tag>, r: Ref, removed: set<string>)
    requires OneTagEach(tags) && Orderly(tags, r.id) && r in SetRefs(tags) && LeastClosed(tags, {r.key}, removed)
    ensures var left := FilterSets(tags, Gone(removed, {r.key}));
      OneTagEach(left) && Orderly(left, r.id) && |SetRefs(left)| <= |SetRefs(tags)|
  {
    FilterKeepsOneTagEach(tags, Gone(removed, {r.key}));
    if UniqueTagIds(tags) {
      UniqueFilter(tags, Gone(removed, {r.key}));
    } else {
      KeepsRankable(tags, r, removed);
    }
  }

  ghost predicate ParentEmptied(tags: seq<Tag>, r: Ref, i: nat, left: seq<Tag>) {
    && i < |tags| && DistinctTags(tags) && left == Parted(tags, i) && Emptied(tags[i], ByKeys({r.key}))
    && OneTagEach(left) && Orderly(left, tags[i].id) && (UniqueTagIds(tags) ==> UniqueTagIds(left))
    && !ComesBack(left, tags[i].id) && !Circles(left, tags[i].id)
    && |SetRefs(left)| < |SetRefs(tags)|
    && FilterSets(tags, ByKeys({r.key})) == tags[..i] + tags[i + 1..]
  }

  ghost predicate ParentStands(tags: seq<Tag>, r: Ref, left: seq<Tag>) {
    left == FilterSets(tags, Gone({}, {r.key})) && LeastOf(tags, {r.key}) == {}
  }

  lemma {:induction false} Detached(tags: seq<Tag>, r: Ref, i: nat, refs: seq<Ref>)
    requires OneTagEach(tags) && Orderly(tags, r.id) && r in SetRefs(tags)
    requires HasKey(SetRefs(tags), r.key) && i == ParentOf(tags, r.key) && refs == DetachRef(tags[i].refs, r.key)
    ensures var left := tags[..i] + [tags[i].(refs := refs)] + tags[i + 1..];
      if refs == [] then ParentEmptied(tags, r, i, left) else ParentStands(tags, r, left)
  {
    Detaching(tags, r, i, refs);
    if refs == [] {
      assert tags[..i] + [] == tags[..i];
      EmptiedParent(tags, r, i, Parted(tags, i));
      PartedOrderly(tags, r, i, Parted(tags, i));
    } else {
      StandingParent(tags, r, i, refs);
      LeastOfIsLeast(tags, {r.key});
    }
  }

  // ----- turns that fail -----------------------------------------------------

  lemma {:induction false} GoneForGood(
      tags0: seq<Tag>, tags: seq<Tag>, seen: seq<Ref>, name: string, removed: set<string>, y: string)
    requires UniqueTagIds(tags0) && Turns(tags0, tags, seen, name, removed) && y in removed
    ensures forall u <- tags :: u.id != y
  {
    var drop := Gone(removed, MatchingKeys(seen, name));
    LeastIsEmptied(tags0, MatchingKeys(seen, name), removed, y);
    var t :| t in tags0 && t.id == y && Emptied(t, drop);
    Survivors(tags0, drop);
    forall u <- tags ensures u.id != y {
      var v :| v in tags0 && !Emptied(v, drop) && u == v.(refs := FilterRefs(v.refs, drop));
      assert v.id == y ==> v == t;
    }
  }

  /** What one node takes with it has not gone before. */
  lemma {:induction false} TurnsApart(
      tags0: seq<Tag>, tags: seq<Tag>, seen: seq<Ref>, name: string, removed: set<string>, keys: set<nat>)
    requires UniqueTagIds(tags0) && Turns(tags0, tags, seen, name, removed)
    ensures removed !! LeastOf(tags, keys)
  {
    forall y <- removed ensures y !in LeastOf(tags, keys) {
      GoneForGood(tags0, tags, seen, name, removed, y);
    }
  }

  lemma FindableTurn(rest0: Rest, before: Rest, removed: set<string>, inner: set<string>)
    requires RestValid(rest0) && RestTurns(rest0, before, removed) && removed !! inner
    ensures Findable(rest0, removed + inner) <==> Findable(rest0, removed) && Findable(before, inner)
  {
    if removed == {} {
      assert removed + inner == inner;
    } else {
      FindableTwice(rest0, removed, inner);
    }
  }

  /** Where the loop is after `i` nodes of its snapshot: `removed` are the names that went with emptied tags. */
  ghost predicate Progress(tags0: seq<Tag>, rest0: Rest, tags: seq<Tag>, rest: Rest, snapshot: seq<Ref>, i: nat,
                           name: string, removed: set<string>) {
    && i <= |snapshot| && snapshot == SetRefs(tags0) && DistinctRefs(snapshot) && RestValid(rest0)
    && Turns(tags0, tags, snapshot[..i], name, removed) && RestTurns(rest0, rest, removed)
    && OneTagEach(tags) && Orderly(tags, name) && RestValid(rest) && |SetRefs(tags)| <= |snapshot|
    && (UniqueTagIds(tags0) ==> Findable(rest0, removed))
    && forall j | 0 <= j < i && snapshot[j].id == name :: !Returns(tags0, MatchingKeys(snapshot[..j], name), name)
  }

  lemma {:induction false} FirstProgress(tags: seq<Tag>, rest: Rest, name: string)
    requires OneTagEach(tags) && Orderly(tags, name) && RestValid(rest)
    ensures Progress(tags, rest, tags, rest, SetRefs(tags), 0, name, {})
  {
    NoTurns(tags, SetRefs(tags), name);
  }

  lemma {:induction false} SkipProgress(tags0: seq<Tag>, rest0: Rest, tags: seq<Tag>, rest: Rest, snapshot: seq<Ref>,
                                        i: nat, name: string, removed: set<string>)
    requires i < |snapshot| && snapshot[i].id != name
    requires Progress(tags0, rest0, tags, rest, snapshot, i, name, removed)
    ensures Progress(tags0, rest0, tags, rest, snapshot, i + 1, name, removed)
  {
    SkipTurn(tags0, tags, snapshot, i, name, removed);
  }

  /** With all turns taken, what is left to do is the name itself. */
  lemma {:induction false} LastProgress(tags0: seq<Tag>, rest0: Rest, tags: seq<Tag>, rest: Rest, snapshot: seq<Ref>,
                                        name: string, removed: set<string>)
    requires Progress(tags0, rest0, tags, rest, snapshot, |snapshot|, name, removed)
    ensures !ComesBack(tags0, name) && tags == FilterSets(tags0, ByNames(Removal(tags0, name)))
    ensures UniqueTagIds(tags0) ==> (Findable(rest, {name}) <==> Succeeds(tags0, rest0, name))
    ensures FilterRest(rest, {name}) == FilterRest(rest0, Removal(tags0, name))
  {
    assert snapshot[..|snapshot|] == snapshot;
    TurnsEnd(tags0, tags, snapshot, name, removed);
    LeastOfIsLeast(tags0, MatchingKeys(snapshot, name));
    if UniqueTagIds(tags0) {
      FindableAtEnd(rest0, rest, removed, name);
    }
    RestTurn(rest0, rest, FilterRest(rest, {name}), removed, {name});
  }

  /** The node taken may take others with it; if what is listed for them is there, the loop has got on. */
  lemma {:induction false} TakeProgress(tags0: seq<Tag>, rest0: Rest, tags: seq<Tag>, before: Rest, rest: Rest,
                                        snapshot: seq<Ref>, i: nat, name: string, removed: set<string>)
    requires i < |snapshot| && snapshot[i].id == name && snapshot[i] in SetRefs(tags)
    requires Progress(tags0, rest0, tags, before, snapshot, i, name, removed)
    requires var (key, inner) := (snapshot[i].key, LeastOf(tags, {snapshot[i].key}));
      && (UniqueTagIds(tags) ==> Findable(before, inner))
      && RestTurns(before, rest, inner) && RestValid(rest)
    ensures var (key, inner) := (snapshot[i].key, LeastOf(tags, {snapshot[i].key}));
      Progress(tags0, rest0, FilterSets(tags, Gone(inner, {key})), rest, snapshot, i + 1, name, removed + inner)
  {
    var inner := LeastOf(tags, {snapshot[i].key});
    NextTurn(tags0, tags, rest0, before, snapshot, i, name, removed);
    RestTurn(rest0, before, rest, removed, inner);
    LeastOfIsLeast(tags, {snapshot[i].key});
    KeepsValid(tags, snapshot[i], inner);
    TurnIsAttached(tags0, tags, snapshot, i, name, removed);
    if UniqueTagIds(tags0) {
      UniqueFilter(tags0, Gone(removed, MatchingKeys(snapshot[..i], name)));
    }
  }

  /** If it is not, the whole cascade cannot end in order. */
  lemma {:induction false} FailedTurn(tags0: seq<Tag>, rest0: Rest, tags: seq<Tag>, before: Rest, snapshot: seq<Ref>,
                                      i: nat, name: string, removed: set<string>)
    requires i < |snapshot| && snapshot[i].id == name && UniqueTagIds(tags0)
    requires Progress(tags0, rest0, tags, before, snapshot, i, name, removed)
    ensures UniqueTagIds(tags)
    ensures !Findable(before, LeastOf(tags, {snapshot[i].key})) ==> !Succeeds(tags0, rest0, name)
  {
    UniqueFilter(tags0, Gone(removed, MatchingKeys(snapshot[..i], name)));
    NextTurn(tags0, tags, rest0, before, snapshot, i, name, removed);
  }

  /** The cascade ends: it does not come back, every list is up to date, and a name that goes twice has no list. */
  ghost predicate Succeeds(tags: seq<Tag>, rest: Rest, name: string) {
    && !ComesBack(tags, name)
    && Findable(rest, Removal(tags, name))
    && (Circles(tags, name) ==> PlainOf(rest.listing, name) == [])
  }

  /** How a call ends: in order, with a node that has no parent any more, or with a listed constraint that is not there. */
  datatype Ending = Ended | NoParent | NoConstraint

  /** What removing a name comes to: when it ends in order, and what it leaves then. */
  ghost predicate Removes(tags: seq<Tag>, rest: Rest, name: string, ending: Ending, left: seq<Tag>, leftRest: Rest) {
    && (UniqueTagIds(tags) ==> (ending == Ended <==> Succeeds(tags, rest, name)))
    && (ending == Ended ==> !ComesBack(tags, name)) && (ending == NoParent ==> ComesBack(tags, name))
    && (ending == Ended ==>
          && left == FilterSets(tags, ByNames(Removal(tags, name)))
          && leftRest == FilterRest(rest, Removal(tags, name)))
  }

  /** A constraint between a group and a tag that holds just the group is listed for both, and gone for the second. */
  lemma ListedTwiceFails(t: Tag, rest: Rest)
    requires t.id == "a" && t.refs == [Ref(0, "g")]
    requires rest.listing.plain == map["g" := ["c"], "a" := ["c"]]
    ensures Removal([t], "g") == {"a", "g"} && !Succeeds([t], rest, "g")
  {
    var keys := MatchingKeys(SetRefs([t]), "g");
    assert SetRefs([t]) == t.refs + SetRefs([]);
    assert SetRefs([t])[0] == Ref(0, "g") && keys == {0};
    forall names: set<string> | Closed([t], keys, names) ensures "a" in names {
      assert Emptied(t, Gone(names, keys));
    }
    assert LeastOf([t], keys) == {"a"};
    assert "c" in PlainOf(rest.listing, "a") && "c" in PlainOf(rest.listing, "g");
  }

  /** Names that go up to some turn are among those that go in all. */
  lemma {:induction false} TurnsInRemoval(tags: seq<Tag>, refs: seq<Ref>, i: nat, name: string, removed: set<string>)
    requires refs == SetRefs(tags) && i <= |refs| && LeastClosed(tags, MatchingKeys(refs[..i], name), removed)
    ensures removed <= Removal(tags, name)
  {
    var all := MatchingKeys(refs, name);
    LeastOfIsLeast(tags, all);
    assert MatchingKeys(refs[..i], name) <= all by {
      forall j | 0 <= j < i && refs[..i][j].id == name ensures refs[..i][j].key in all {
        assert refs[..i][j] == refs[j];
      }
    }
    forall t <- tags | Emptied(t, Gone(LeastOf(tags, all), MatchingKeys(refs[..i], name))) ensures t.id in LeastOf(tags, all) {
      assert Emptied(t, Gone(LeastOf(tags, all), all));
    }
    assert Closed(tags, MatchingKeys(refs[..i], name), LeastOf(tags, all));
  }

  /** The last removal, of the name itself: it fails if the name is listed and has gone before. */
  lemma FindableAtEnd(rest0: Rest, rest: Rest, removed: set<string>, name: string)
    requires RestValid(rest0) && RestTurns(rest0, rest, removed) && Findable(rest0, removed)
    ensures Findable(rest, {name}) <==>
      Findable(rest0, removed + {name}) && (name in removed ==> PlainOf(rest0.listing, name) == [])
  {
    if name in removed {
      assert removed + {name} == removed;
      FoundAgain(rest0, removed, name);
    } else {
      FindableTurn(rest0, rest, removed, {name});
    }
  }

  class Cib {
    var tags: seq<Tag>
    var rest: Rest

    constructor (tags: seq<Tag>, rest: Rest)
      ensures this.tags == tags && this.rest == rest
    {
      this.tags, this.rest := tags, rest;
    }

    /** One level: rewritten, removed, or left alone if it does not list the device. */
    static method RmDevice(devices: string, name: string) returns (left: seq<string>)
      ensures left == FilterLevel(devices, {name})
    {
      var deviceList := Fields(devices, ',');
      if name in deviceList {
        var newDeviceList := FilterStrings(deviceList, {name});
        left := if newDeviceList != [] then [Join(newDeviceList, ',')] else [];
      } else {
        FilterStringsNothing(deviceList, {name});
        JoinOfFields(devices, ',');
        left := [devices];
      }
    }

    /** `stonith_level_rm_device`: levels are visited one by one. */
    method StonithLevelRmDevice(name: string)
      requires RestValid(rest)
      modifies this`rest
      ensures rest == old(rest).(levels := FilterLevels(old(rest.levels), {name}),
                                 hasTopology := old(rest.hasTopology) && FilterLevels(old(rest.levels), {name}) != [])
    {
      if !rest.hasTopology {
        return;
      }
      var levels := rest.levels;
      var kept: seq<string> := [];
      assert levels[0..] == levels;
      for i := 0 to |levels|
        invariant rest == old(rest)
        invariant kept + FilterLevels(levels[i..], {name}) == FilterLevels(levels, {name})
      {
        assert levels[i..][1..] == levels[i + 1..];
        ConcatAssociates(kept, FilterLevel(levels[i], {name}), FilterLevels(levels[i + 1..], {name}));
        var left := RmDevice(levels[i], name);
        kept := kept + left;
      }
      assert levels[|levels|..] == [] && kept + [] == kept;
      rest := rest.(levels := kept, hasTopology := kept != []);
    }

    /** What a call for `name` may rely on. */
    ghost predicate Valid(name: string)
      reads this
    {
      OneTagEach(tags) && Orderly(tags, name) && RestValid(rest)
    }

    /** The last loop: permissions that refer to the name go. */
    method RemovePermissions(name: string)
      modifies this`rest
      ensures rest == old(rest).(permissions := FilterStrings(old(rest.permissions), {name}))
    {
      var permissions, kept := rest.permissions, [];
      assert permissions[0..] == permissions;
      for i := 0 to |permissions|
        invariant rest == old(rest)
        invariant kept + FilterStrings(permissions[i..], {name}) == FilterStrings(permissions, {name})
      {
        assert permissions[i..][1..] == permissions[i + 1..];
        var here := if permissions[i] == name then [] else [permissions[i]];
        assert FilterStrings(permissions[i..], {name}) == here + FilterStrings(permissions[i + 1..], {name});
        ConcatAssociates(kept, here, FilterStrings(permissions[i + 1..], {name}));
        kept := kept + here;
      }
      assert permissions[|permissions|..] == [] && kept + [] == kept;
      rest := rest.(permissions := kept);
    }

    /** `constraint_rm` for one constraint: all of that id go, but there has to be one. */
    method ConstraintRm(id: string) returns (found: bool)
      modifies this`rest
      ensures found <==> HasId(old(rest.constraints), id)
      ensures rest == old(rest).(constraints := DropIds(old(rest.constraints), {id}))
    {
      found := false;
      var constraints, kept := rest.constraints, [];
      assert constraints[0..] == constraints;
      for i := 0 to |constraints|
        invariant rest == old(rest)
        invariant kept + DropIds(constraints[i..], {id}) == DropIds(constraints, {id})
        invariant found <==> exists j | 0 <= j < i :: constraints[j].id == id
      {
        assert constraints[i..][1..] == constraints[i + 1..];
        var here := if constraints[i].id == id then [] else [constraints[i]];
        assert DropIds(constraints[i..], {id}) == here + DropIds(constraints[i + 1..], {id});
        ConcatAssociates(kept, here, DropIds(constraints[i + 1..], {id}));
        found := found || constraints[i].id == id;
        kept := kept + here;
      }
      assert constraints[|constraints|..] == [] && kept + [] == kept;
      rest := rest.(constraints := kept);
    }

    /** The first half of `remove_constraints_containing`: constraints without sets that the library listed. */
    method RemovePlain(name: string) returns (found: bool)
      modifies this`rest
      ensures var left := RemoveEach(old(rest.constraints), PlainOf(old(rest.listing), name));
        && (found <==> left.Some?)
        && (found ==> rest == old(rest).(constraints := left.value))
    {
      var ids := PlainOf(rest.listing, name);
      assert ids[0..] == ids;
      for i := 0 to |ids|
        invariant rest == old(rest).(constraints := rest.constraints)
        invariant RemoveEach(rest.constraints, ids[i..]) == RemoveEach(old(rest.constraints), ids)
      {
        assert ids[i..][1..] == ids[i + 1..];
        found := ConstraintRm(ids[i]);
        if !found {
          return;
        }
      }
      found := true;
    }

    /** The second half: the loop over the sets, if the library listed any. */
    method RemoveFromSets(name: string)
      requires RestValid(rest)
      modifies this`rest
      ensures rest == old(rest).(constraints := Filter(old(rest.constraints), ByNames({name} * old(rest.listing.inSets))))
    {
      if name in rest.listing.inSets {
        var section := new ConstraintsSection(rest.constraints);
        section.RemoveFromSets(name);
        rest := rest.(constraints := section.constraints);
        assert {name} * rest.listing.inSets == {name};
      } else {
        assert {name} * rest.listing.inSets == {};
        FilterNothing(rest.constraints, ByNames({}));
      }
    }

    /** `remove_constraints_containing`: the command exits if a listed constraint is not there. */
    method RemoveConstraintsContaining(name: string) returns (found: bool)
      requires RestValid(rest)
      modifies this`rest
      ensures found <==> Findable(old(rest), {name})
      ensures found ==>
        rest == old(rest).(constraints := FilterListed(old(rest.constraints), old(rest.listing), {name}))
    {
      DropPlainValid(rest, {name});
      PlainIsDropped(rest, name);
      found := RemovePlain(name);
      if found {
        RemoveFromSets(name);
      }
    }

    /** Constraints, fencing levels and permissions, in turn. */
    method RemoveFromRest(name: string) returns (found: bool)
      requires RestValid(rest)
      modifies this`rest
      ensures found <==> Findable(old(rest), {name})
      ensures found ==> rest == FilterRest(old(rest), {name}) && RestValid(rest)
    {
      FilterRestValid(rest, {name});
      found := RemoveConstraintsContaining(name);
      if !found {
        return;
      }
      assert rest.constraints == FilterRest(old(rest), {name}).constraints;
      StonithLevelRmDevice(name);
      RemovePermissions(name);
    }

    ghost predicate SoFar(
        tags0: seq<Tag>, rest0: Rest, snapshot: seq<Ref>, i: nat, name: string, removed: set<string>)
      reads this
    {
      Progress(tags0, rest0, tags, rest, snapshot, i, name, removed)
    }

    /**
     * Removes what refers to `name`, and to every tag that this empties. The snapshot is taken once; it may hold nodes
     * that calls of this method have removed from the document. If one of them is asked for its parent an exception is
     * raised; that happens to the outermost call only, and only if the cascade comes back to its name.
     */
    method RemoveReferences(name: string) returns (ending: Ending)
      requires Valid(name)
      modifies this
      ensures Removes(old(tags), old(rest), name, ending, tags, rest)
      ensures ending == Ended ==> Valid(name)
      decreases |SetRefs(tags)|, 2
    {
      var snapshot := SetRefs(tags);
      ghost var tags0, rest0, removed := tags, rest, {};
      FirstProgress(tags, rest, name);
      for i := 0 to |snapshot|
        invariant SoFar(tags0, rest0, snapshot, i, name, removed)
      {
        ending, removed := Turn(tags0, rest0, snapshot, i, name, removed);
        if ending != Ended {
          return;
        }
      }
      ending := AfterLoop(tags0, rest0, snapshot, name, removed);
    }

    /** What follows the loop over the tags. */
    method AfterLoop(ghost tags0: seq<Tag>, ghost rest0: Rest, ghost snapshot: seq<Ref>, name: string,
                     ghost removed: set<string>)
      returns (ending: Ending)
      requires SoFar(tags0, rest0, snapshot, |snapshot|, name, removed)
      modifies this`rest
      ensures Removes(tags0, rest0, name, ending, tags, rest)
      ensures ending == Ended ==> Valid(name)
    {
      LastProgress(tags0, rest0, tags, rest, snapshot, name, removed);
      var found := RemoveFromRest(name);
      ending := if found then Ended else NoConstraint;
    }

    /** One turn of the loop. */
    method Turn(ghost tags0: seq<Tag>, ghost rest0: Rest, snapshot: seq<Ref>, i: nat, name: string,
                ghost removed: set<string>)
      returns (ending: Ending, ghost more: set<string>)
      requires i < |snapshot| && SoFar(tags0, rest0, snapshot, i, name, removed)
      modifies this
      ensures ending == Ended ==> SoFar(tags0, rest0, snapshot, i + 1, name, more)
      ensures ending == NoParent ==> ComesBack(tags0, name)
      ensures ending == NoConstraint && UniqueTagIds(tags0) ==> !Succeeds(tags0, rest0, name)
      decreases |SetRefs(tags)|, 1
    {
      ending, more := Ended, removed;
      if snapshot[i].id == name {
        TurnIsAttached(tags0, tags, snapshot, i, name, removed);
        if snapshot[i] !in SetRefs(tags) {
          return NoParent, more;
        }
        ghost var before, restBefore := tags, rest;
        if UniqueTagIds(tags0) {
          FailedTurn(tags0, rest0, tags, rest, snapshot, i, name, removed);
        }
        var found := RemoveReference(snapshot[i]);
        if !found {
          return NoConstraint, more;
        }
        more := removed + LeastOf(before, {snapshot[i].key});
        TakeProgress(tags0, rest0, before, restBefore, rest, snapshot, i, name, removed);
      } else {
        SkipProgress(tags0, rest0, tags, rest, snapshot, i, name, removed);
      }
    }

    /** The branch of the loop: the node leaves its tag; a tag emptied by that is removed with what refers to it. */
    method RemoveReference(r: Ref) returns (found: bool)
      requires Valid(r.id) && r in SetRefs(tags)
      modifies this
      ensures UniqueTagIds(old(tags)) ==> (found <==> Findable(old(rest), LeastOf(old(tags), {r.key})))
      ensures found ==> RestValid(rest) && RestTurns(old(rest), rest, LeastOf(old(tags), {r.key}))
      ensures found ==> tags == FilterSets(old(tags), Gone(LeastOf(old(tags), {r.key}), {r.key}))
      decreases |SetRefs(tags)|, 0
    {
      ghost var tags0 := tags;
      var tag, emptied;
      ghost var i;
      tag, emptied, i := DetachFromParent(r);
      found := true;
      if emptied {
        found := RemoveParent(tag, tags0, r, i);
      }
    }

    /** What an emptied tag takes with it, and the tag itself. */
    method RemoveParent(tag: Tag, ghost tags0: seq<Tag>, ghost r: Ref, ghost i: nat) returns (found: bool)
      requires ParentEmptied(tags0, r, i, tags) && tag == tags0[i] && RestValid(rest)
      modifies this
      ensures UniqueTagIds(tags0) ==> (found <==> Findable(old(rest), LeastOf(tags0, {r.key})))
      ensures found ==> RestValid(rest) && RestTurns(old(rest), rest, LeastOf(tags0, {r.key}))
      ensures found ==> tags == FilterSets(tags0, Gone(LeastOf(tags0, {r.key}), {r.key}))
      decreases |SetRefs(tags)|, 3
    {
      RemovingParent(tags0, r, i, tags);
      var ending := RemoveReferences(tag.id);
      found := ending == Ended;
      if found {
        tags := RemoveTag(tags, tag.key);
      }
    }

    /** `tag.removeChild(obj_ref)`, and whether the tag is empty after that. */
    method DetachFromParent(r: Ref) returns (tag: Tag, emptied: bool, ghost i: nat)
      requires Valid(r.id) && r in SetRefs(tags)
      modifies this`tags
      ensures i < |old(tags)| && tag == old(tags)[i]
      ensures if emptied then ParentEmptied(old(tags), r, i, tags) else ParentStands(old(tags), r, tags)
    {
      InSetRefs(tags, r);
      var index := ParentOf(tags, r.key);
      i, tag := index, tags[index];
      var refs := DetachRef(tag.refs, r.key);
      emptied := refs == [];
      Detached(tags, r, index, refs);
      tags := tags[..index] + [tag.(refs := refs)] + tags[index + 1..];
    }
  }
}
