/** The commands that remove references from the constraints section, as they walk over it. */
module ConstraintCommands {
  import opened Sequences
  import opened Constraints
  import opened ConstraintsInPlace

  function MatchingKeys(refs: seq<Ref>, name: string): set<nat> {
    set i | 0 <= i < |refs| && refs[i].id == name :: refs[i].key
  }

  function SetOf(keys: seq<nat>): set<nat> {
    set i | 0 <= i < |keys| :: keys[i]
  }

  lemma SetOfSnoc(keys: seq<nat>, last: nat)
    ensures SetOf(keys + [last]) == SetOf(keys) + {last}
  {
    var all := keys + [last];
    assert all[|keys|] == last;
    assert forall i | 0 <= i < |keys| :: all[i] == keys[i];
    forall key <- SetOf(keys) ensures key in SetOf(all) {
      var i :| 0 <= i < |keys| && keys[i] == key;
      assert all[i] == key;
    }
  }

  lemma MatchingKeysSnoc(refs: seq<Ref>, last: Ref, name: string)
    ensures MatchingKeys(refs + [last], name) == MatchingKeys(refs, name) + if last.id == name then {last.key} else {}
  {
    var all := refs + [last];
    forall i | 0 <= i < |refs| && refs[i].id == name ensures refs[i].key in MatchingKeys(all, name) {
      assert all[i] == refs[i];
    }
    assert last.id == name ==> all[|refs|].key in MatchingKeys(all, name);
  }

  /** Having removed nodes by key, remove one more. */
  lemma DetachOneMore(cs: seq<Constraint>, keys: set<nat>, key: nat)
    requires DistinctRefs(AllRefs(cs))
    ensures Detach(Filter(cs, ByKeys(keys)), key) == Filter(cs, ByKeys(keys + {key}))
  {
    var p, q, both := ByKeys(keys), ByKeys({key}), ByKeys(keys + {key});
    AllRefsOfFilter(cs, p);
    FilterRefsKeeps(AllRefs(cs), p);
    DetachIsFilter(Filter(cs, p), key, q);
    FilterTwice(cs, p, q, both);
  }

  lemma KeysMeanName(refs: seq<Ref>, name: string)
    requires DistinctRefs(refs)
    ensures forall r <- refs :: r.key in MatchingKeys(refs, name) <==> r.id == name
  {
    forall r <- refs ensures r.key in MatchingKeys(refs, name) <==> r.id == name {
      var k :| 0 <= k < |refs| && refs[k] == r;
      if r.key in MatchingKeys(refs, name) {
        var i :| 0 <= i < |refs| && refs[i].id == name && refs[i].key == r.key;
        assert i == k;
      }
    }
  }

  /** By the time all nodes of a name are removed by key, the name is filtered out. */
  lemma KeysAreNames(cs: seq<Constraint>, name: string)
    requires DistinctRefs(AllRefs(cs))
    ensures Filter(cs, ByKeys(MatchingKeys(AllRefs(cs), name))) == Filter(cs, ByNames({name}))
  {
    KeysMeanName(AllRefs(cs), name);
    FilterSame(cs, ByKeys(MatchingKeys(AllRefs(cs), name)), ByNames({name}));
  }

  /** A node not yet removed is still in the document. */
  lemma StillAttached(cs: seq<Constraint>, keys: set<nat>, r: Ref)
    requires r in AllRefs(cs) && r.key !in keys
    ensures r in AllRefs(Filter(cs, ByKeys(keys)))
  {
    AllRefsOfFilter(cs, ByKeys(keys));
    FilterRefsKeeps(AllRefs(cs), ByKeys(keys));
  }

  /** A node met later in the snapshot is none of the nodes removed before. */
  lemma NotRemovedYet(refs: seq<Ref>, i: nat, name: string)
    requires DistinctRefs(refs) && i < |refs|
    ensures refs[i].key !in MatchingKeys(refs[..i], name)
  {
  }

  predicate SomeOrder(cs: seq<Constraint>, names: set<string>) {
    cs != [] && (OrderNames(cs[0], names) || SomeOrder(cs[1..], names))
  }

  predicate SomeRef(refs: seq<Ref>, names: set<string>) {
    refs != [] && (refs[0].id in names || SomeRef(refs[1..], names))
  }

  predicate Mentions(cs: seq<Constraint>, names: set<string>) {
    SomeOrder(cs, names) || SomeRef(AllRefs(cs), names)
  }

  lemma {:induction false} SomeOrderSnoc(cs: seq<Constraint>, last: Constraint, names: set<string>)
    ensures SomeOrder(cs + [last], names) <==> SomeOrder(cs, names) || OrderNames(last, names)
  {
    if cs == [] {
      assert cs + [last] == [last];
    } else {
      assert (cs + [last])[1..] == cs[1..] + [last];
      SomeOrderSnoc(cs[1..], last, names);
    }
  }

  lemma {:induction false} SomeRefSnoc(refs: seq<Ref>, last: Ref, names: set<string>)
    ensures SomeRef(refs + [last], names) <==> SomeRef(refs, names) || last.id in names
  {
    if refs == [] {
      assert refs + [last] == [last];
    } else {
      assert (refs + [last])[1..] == refs[1..] + [last];
      SomeRefSnoc(refs[1..], last, names);
    }
  }

  lemma {:induction false} SomeOrderMore(cs: seq<Constraint>, a: set<string>, b: set<string>)
    ensures SomeOrder(cs, a + b) <==> SomeOrder(cs, a) || SomeOrder(cs, b)
  {
    if cs != [] {
      SomeOrderMore(cs[1..], a, b);
    }
  }

  lemma {:induction false} SomeRefMore(refs: seq<Ref>, a: set<string>, b: set<string>)
    ensures SomeRef(refs, a + b) <==> SomeRef(refs, a) || SomeRef(refs, b)
  {
    if refs != [] {
      SomeRefMore(refs[1..], a, b);
    }
  }

  lemma {:induction false} NoNames(cs: seq<Constraint>, refs: seq<Ref>)
    ensures !SomeOrder(cs, {}) && !SomeRef(refs, {})
    decreases |cs| + |refs|
  {
    if cs != [] {
      NoNames(cs[1..], refs);
    }
    if refs != [] {
      NoNames(cs, refs[1..]);
    }
  }

  lemma {:induction false} SomeOrderMeans(cs: seq<Constraint>, names: set<string>)
    ensures SomeOrder(cs, names) <==>
      exists c <- cs :: c.kind == Order && (c.first in names || c.second in names)
  {
    if cs != [] {
      assert forall c :: c in cs <==> c == cs[0] || c in cs[1..];
      SomeOrderMeans(cs[1..], names);
    }
  }

  lemma {:induction false} SomeRefMeans(refs: seq<Ref>, names: set<string>)
    ensures SomeRef(refs, names) <==> exists r <- refs :: r.id in names
  {
    if refs != [] {
      assert forall r :: r in refs <==> r == refs[0] || r in refs[1..];
      SomeRefMeans(refs[1..], names);
    }
  }

  lemma {:induction false} AllRefsMean(cs: seq<Constraint>, r: Ref)
    ensures r in AllRefs(cs) <==> exists c <- cs, s <- c.sets :: r in s.refs
  {
    if cs != [] {
      assert forall c :: c in cs <==> c == cs[0] || c in cs[1..];
      SetRefsMember(cs[0].sets, r);
      AllRefsMean(cs[1..], r);
    }
  }

  /** Something is found exactly if an order constraint, or a reference in any set, names one of the resources. */
  lemma MentionsMeans(cs: seq<Constraint>, names: set<string>)
    ensures Mentions(cs, names) <==>
      || (exists c <- cs :: c.kind == Order && (c.first in names || c.second in names))
      || (exists c <- cs, s <- c.sets, r <- s.refs :: r.id in names)
  {
    SomeOrderMeans(cs, names);
    SomeRefMeans(AllRefs(cs), names);
    if r :| r in AllRefs(cs) && r.id in names {
      AllRefsMean(cs, r);
      var c, s :| c in cs && s in c.sets && r in s.refs;
    }
    if c, s, r :| c in cs && s in c.sets && r in s.refs && r.id in names {
      AllRefsMean(cs, r);
    }
  }

  lemma {:induction false} NoSomeRef(refs: seq<Ref>, names: set<string>)
    requires !SomeRef(refs, names)
    ensures NoneOf(refs, ByNames(names))
  {
    if refs != [] {
      NoSomeRef(refs[1..], names);
    }
  }

  // ----- orders by name ------------------------------------------------------

  function RemoveChild(cs: seq<Constraint>, key: nat): seq<Constraint> {
    if cs == [] then []
    else if cs[0].key == key then cs[1..]
    else [cs[0]] + RemoveChild(cs[1..], key)
  }

  lemma {:induction false} RemoveChildAt(a: seq<Constraint>, c: Constraint, b: seq<Constraint>)
    requires forall x <- a :: x.key != c.key
    ensures RemoveChild(a + [c] + b, c.key) == a + b
  {
    if a == [] {
      assert a + [c] + b == [c] + b;
      assert a + b == b;
    } else {
      assert a[0] in a;
      assert (a + [c] + b)[1..] == a[1..] + [c] + b;
      RemoveChildAt(a[1..], c, b);
      assert [a[0]] + (a[1..] + b) == a + b;
    }
  }

  lemma {:induction false} DropOrdersSnoc(cs: seq<Constraint>, c: Constraint, names: set<string>)
    ensures DropOrders(cs + [c], names) == DropOrders(cs, names) + if OrderNames(c, names) then [] else [c]
  {
    if cs == [] {
      assert cs + [c] == [c];
      assert DropOrders([c][1..], names) == [];
    } else {
      assert (cs + [c])[1..] == cs[1..] + [c];
      DropOrdersSnoc(cs[1..], c, names);
    }
  }

  lemma {:induction false} DropOrdersSubset(cs: seq<Constraint>, names: set<string>)
    ensures forall c <- DropOrders(cs, names) :: c in cs && !OrderNames(c, names)
    ensures !SomeOrder(cs, names) ==> DropOrders(cs, names) == cs
  {
    if cs != [] {
      assert cs == [cs[0]] + cs[1..];
      DropOrdersSubset(cs[1..], names);
    }
  }

  /** References of the constraints that stay are references that were there. */
  lemma {:induction false} DropOrdersRefs(cs: seq<Constraint>, names: set<string>)
    ensures forall r <- AllRefs(DropOrders(cs, names)) :: r in AllRefs(cs)
    ensures DistinctRefs(AllRefs(cs)) ==> DistinctRefs(AllRefs(DropOrders(cs, names)))
  {
    if cs != [] {
      var here, later := SetRefs(cs[0].sets), AllRefs(cs[1..]);
      DropOrdersRefs(cs[1..], names);
      var kept := DropOrders(cs[1..], names);
      if OrderNames(cs[0], names) {
        assert [] + kept == kept;
        if DistinctRefs(AllRefs(cs)) { DistinctSplit(here, later); }
      } else {
        assert ([cs[0]] + kept)[1..] == kept;
        if DistinctRefs(AllRefs(cs)) {
          DistinctSplit(here, later);
          forall i, j | 0 <= i < |here| && 0 <= j < |AllRefs(kept)| ensures here[i].key != AllRefs(kept)[j].key {
            assert AllRefs(kept)[j] in later;
            assert HasKey(here, here[i].key);
          }
        }
      }
    }
  }

  /** One turn of the loop over a stale snapshot: its node is still attached, and removing it is filtering it out. */
  lemma RefTurn(cs: seq<Constraint>, snapshot: seq<Ref>, i: nat, name: string)
    requires DistinctRefs(snapshot) && snapshot == AllRefs(cs) && i < |snapshot|
    ensures var now, next := Filter(cs, ByKeys(MatchingKeys(snapshot[..i], name))),
                             Filter(cs, ByKeys(MatchingKeys(snapshot[..i + 1], name)));
      if snapshot[i].id == name then snapshot[i] in AllRefs(now) && Detach(now, snapshot[i].key) == next
      else now == next
  {
    assert snapshot[..i + 1] == snapshot[..i] + [snapshot[i]];
    MatchingKeysSnoc(snapshot[..i], snapshot[i], name);
    if snapshot[i].id == name {
      NotRemovedYet(snapshot, i, name);
      StillAttached(cs, MatchingKeys(snapshot[..i], name), snapshot[i]);
      DetachOneMore(cs, MatchingKeys(snapshot[..i], name), snapshot[i].key);
    } else {
      assert MatchingKeys(snapshot[..i], name) + {} == MatchingKeys(snapshot[..i], name);
    }
  }

  function OrdersHandled(snapshot: seq<Constraint>, i: nat, name: string): seq<Constraint>
    requires i <= |snapshot|
  {
    DropOrders(snapshot[..i], {name}) + snapshot[i..]
  }

  lemma OrdersHandledEnds(snapshot: seq<Constraint>, name: string)
    ensures OrdersHandled(snapshot, 0, name) == snapshot && !SomeOrder(snapshot[..0], {name})
    ensures OrdersHandled(snapshot, |snapshot|, name) == DropOrders(snapshot, {name})
  {
    assert snapshot[..|snapshot|] == snapshot;
    assert DropOrders(snapshot[..0], {name}) == [];
  }

  lemma OrderNamesOne(c: Constraint, name: string)
    ensures OrderNames(c, {name}) <==> c.kind == Order && (c.first == name || c.second == name)
  {
  }

  lemma OrderTurn(snapshot: seq<Constraint>, i: nat, name: string)
    requires i < |snapshot| && DistinctKeys(snapshot)
    ensures OrdersHandled(snapshot, i + 1, name) ==
      if OrderNames(snapshot[i], {name}) then RemoveChild(OrdersHandled(snapshot, i, name), snapshot[i].key)
      else OrdersHandled(snapshot, i, name)
    ensures SomeOrder(snapshot[..i + 1], {name}) <==>
      SomeOrder(snapshot[..i], {name}) || OrderNames(snapshot[i], {name})
  {
    var c, before, after := snapshot[i], DropOrders(snapshot[..i], {name}), snapshot[i + 1..];
    assert snapshot[..i + 1] == snapshot[..i] + [c];
    SomeOrderSnoc(snapshot[..i], c, {name});
    DropOrdersSnoc(snapshot[..i], c, {name});
    assert snapshot[i..] == [c] + after;
    ConcatAssociates(before, [c], after);
    forall x <- before ensures x.key != c.key {
      DropOrdersSubset(snapshot[..i], {name});
      assert x in snapshot[..i];
    }
    RemoveChildAt(before, c, after);
    assert before + [] == before;
  }

  lemma {:induction false} DropOrdersKeys(cs: seq<Constraint>, names: set<string>)
    requires DistinctKeys(cs)
    ensures DistinctKeys(DropOrders(cs, names))
  {
    if cs != [] {
      DropOrdersKeys(cs[1..], names);
      DropOrdersSubset(cs[1..], names);
      var kept := DropOrders(cs[1..], names);
      forall j | 0 <= j < |kept| ensures kept[j].key != cs[0].key {
        assert kept[j] in cs[1..];
      }
    }
  }

  function ConstraintKeys(cs: seq<Constraint>): set<nat> {
    set i | 0 <= i < |cs| :: cs[i].key
  }

  lemma KeysOfCons(c: Constraint, cs: seq<Constraint>)
    ensures ConstraintKeys([c] + cs) == {c.key} + ConstraintKeys(cs)
  {
    var all := [c] + cs;
    assert all[0] == c && forall i | 0 <= i < |cs| :: cs[i] == all[i + 1];
    forall key <- ConstraintKeys(cs) ensures key in ConstraintKeys(all) {
      var i :| 0 <= i < |cs| && cs[i].key == key;
      assert all[i + 1].key == key;
    }
  }

  lemma KeysCons(c: Constraint, cs: seq<Constraint>)
    ensures ConstraintKeys([c] + cs) == {c.key} + ConstraintKeys(cs)
    ensures DistinctKeys([c] + cs) <==> DistinctKeys(cs) && c.key !in ConstraintKeys(cs)
  {
    var all := [c] + cs;
    KeysOfCons(c, cs);
    assert all[0] == c && forall i | 0 <= i < |cs| :: cs[i] == all[i + 1];
    if DistinctKeys(cs) && c.key !in ConstraintKeys(cs) {
      DistinctCons(c, cs);
    }
    if DistinctKeys(all) {
      forall i, j | 0 <= i < j < |cs| ensures cs[i].key != cs[j].key {
        assert all[i + 1] == cs[i] && all[j + 1] == cs[j];
      }
    }
  }

  lemma DistinctCons(c: Constraint, cs: seq<Constraint>)
    requires DistinctKeys(cs) && c.key !in ConstraintKeys(cs)
    ensures DistinctKeys([c] + cs)
  {
    var all := [c] + cs;
    forall i, j | 0 <= i < j < |all| ensures all[i].key != all[j].key {
      assert cs[j - 1].key in ConstraintKeys(cs);
      assert all[j] == cs[j - 1] && (i > 0 ==> all[i] == cs[i - 1]);
    }
  }

  lemma {:induction false} FilterKeys(cs: seq<Constraint>, drop: Ref -> bool)
    requires DistinctKeys(cs)
    ensures DistinctKeys(Filter(cs, drop)) && ConstraintKeys(Filter(cs, drop)) <= ConstraintKeys(cs)
  {
    if cs != [] {
      assert cs == [cs[0]] + cs[1..];
      KeysCons(cs[0], cs[1..]);
      FilterKeys(cs[1..], drop);
      var kept, later := FilterConstraint(cs[0], drop), Filter(cs[1..], drop);
      if kept == [] {
        assert kept + later == later;
      } else {
        KeysCons(kept[0], later);
        assert kept == [kept[0]];
      }
    }
  }

  lemma FilterKeepsNodes(cs: seq<Constraint>, drop: Ref -> bool)
    requires OneNodeEach(cs)
    ensures OneNodeEach(Filter(cs, drop))
  {
    AllRefsOfFilter(cs, drop);
    FilterRefsKeeps(AllRefs(cs), drop);
    FilterKeys(cs, drop);
  }

  function NamesOf(argv: seq<string>): set<string> {
    set i | 0 <= i < |argv| :: argv[i]
  }

  lemma NamesOfSnoc(argv: seq<string>, last: string)
    ensures NamesOf(argv + [last]) == NamesOf(argv) + {last}
  {
    var all := argv + [last];
    forall i | 0 <= i < |argv| ensures argv[i] in NamesOf(all) {
      assert all[i] == argv[i];
    }
    assert all[|argv|] == last;
  }

  lemma RemoveNoNames(cs: seq<Constraint>, names: set<string>)
    requires !Mentions(cs, names)
    ensures RemoveNames(cs, names) == cs
  {
    DropOrdersSubset(cs, names);
    NoSomeRef(AllRefs(cs), names);
    FilterNothing(cs, ByNames(names));
  }

  lemma MentionsMore(cs: seq<Constraint>, names: set<string>, name: string)
    ensures Mentions(cs, names + {name}) <==> Mentions(cs, names) || Mentions(cs, {name})
    ensures !Mentions(cs, names) ==> RemoveNames(cs, names) == cs
  {
    SomeOrderMore(cs, names, {name});
    SomeRefMore(AllRefs(cs), names, {name});
    if !Mentions(cs, names) {
      RemoveNoNames(cs, names);
    }
  }

  lemma MentionsAfterOrders(cs: seq<Constraint>, names: set<string>)
    ensures SomeOrder(cs, names) || SomeRef(AllRefs(DropOrders(cs, names)), names) <==> Mentions(cs, names)
    ensures !Mentions(cs, names) ==> RemoveNames(cs, names) == cs
  {
    DropOrdersSubset(cs, names);
    if !Mentions(cs, names) {
      RemoveNoNames(cs, names);
    }
  }

  // ----- what the filter means -----------------------------------------------

  lemma {:induction false} AllSetsDropped(sets: seq<ResourceSet>, drop: Ref -> bool)
    ensures FilterSets(sets, drop) == [] <==> forall s <- sets :: s.refs != [] && forall r <- s.refs :: drop(r)
  {
    if sets != [] {
      assert sets == [sets[0]] + sets[1..];
      AllRefsDropped(sets[0].refs, drop);
      AllSetsDropped(sets[1..], drop);
    }
  }

  /** A constraint goes exactly when it has sets and each of them had references and lost them all. */
  lemma DroppedExactly(c: Constraint, drop: Ref -> bool)
    ensures FilterConstraint(c, drop) == [] <==>
      c.sets != [] && forall s <- c.sets :: s.refs != [] && forall r <- s.refs :: drop(r)
  {
    AllSetsDropped(c.sets, drop);
  }

  lemma {:induction false} NoOrderLeft(cs: seq<Constraint>, names: set<string>)
    ensures !SomeOrder(DropOrders(cs, names), names)
  {
    if cs != [] {
      NoOrderLeft(cs[1..], names);
      assert ([cs[0]] + DropOrders(cs[1..], names))[1..] == DropOrders(cs[1..], names);
      assert [] + DropOrders(cs[1..], names) == DropOrders(cs[1..], names);
    }
  }

  /** No order constraint and no reference names the removed resources any more; removing them again does nothing. */
  lemma NothingLeft(cs: seq<Constraint>, names: set<string>)
    ensures var kept := RemoveNames(cs, names);
      && !SomeOrder(kept, names)
      && (forall r <- AllRefs(kept) :: r in AllRefs(cs) && r.id !in names)
      && RemoveNames(kept, names) == kept
  {
    var kept := RemoveNames(cs, names);
    OrdersAndRefsCommute(cs, names, ByNames(names));
    NoOrderLeft(Filter(cs, ByNames(names)), names);
    AllRefsOfFilter(DropOrders(cs, names), ByNames(names));
    FilterRefsKeeps(AllRefs(DropOrders(cs, names)), ByNames(names));
    DropOrdersRefs(cs, names);
    RemoveNamesTwice(cs, names, names);
    assert names + names == names;
  }

  // ----- constraints of other kinds ------------------------------------------

  function OtherKinds(cs: seq<Constraint>): seq<Constraint> {
    if cs == [] then [] else (if cs[0].kind == Order then [] else [cs[0]]) + OtherKinds(cs[1..])
  }

  /** A filter changes nothing exactly if it drops no reference. */
  lemma {:induction false} FilterKeepsAll(cs: seq<Constraint>, drop: Ref -> bool)
    ensures Filter(cs, drop) == cs <==> NoneOf(AllRefs(cs), drop)
  {
    if NoneOf(AllRefs(cs), drop) {
      FilterNothing(cs, drop);
    } else if Filter(cs, drop) == cs {
      AllRefsOfFilter(cs, drop);
      FilterRefsKeeps(AllRefs(cs), drop);
    }
  }

  lemma {:induction false} OtherKindsOfFilter(cs: seq<Constraint>, names: set<string>, drop: Ref -> bool)
    ensures OtherKinds(Filter(DropOrders(cs, names), drop)) == Filter(OtherKinds(cs), drop)
  {
    if cs != [] {
      var c, rest := cs[0], cs[1..];
      OtherKindsOfFilter(rest, names, drop);
      var here := if OrderNames(c, names) then [] else [c];
      FilterAppend(here, DropOrders(rest, names), drop);
      FilterOne(c, drop);
      OtherKindsAppend(Filter(here, drop), Filter(DropOrders(rest, names), drop));
      FilterAppend(if c.kind == Order then [] else [c], OtherKinds(rest), drop);
      OtherKindsOfOne(c, drop);
    }
  }

  lemma {:induction false} OtherKindsAppend(a: seq<Constraint>, b: seq<Constraint>)
    ensures OtherKinds(a + b) == OtherKinds(a) + OtherKinds(b)
  {
    if a == [] {
      assert a + b == b;
    } else {
      assert (a + b)[1..] == a[1..] + b;
      OtherKindsAppend(a[1..], b);
      ConcatAssociates(if a[0].kind == Order then [] else [a[0]], OtherKinds(a[1..]), OtherKinds(b));
    }
  }

  lemma OtherKindsOfOne(c: Constraint, drop: Ref -> bool)
    ensures OtherKinds(FilterConstraint(c, drop)) == if c.kind == Order then [] else FilterConstraint(c, drop)
  {
    var left := FilterConstraint(c, drop);
    if left != [] {
      assert left[1..] == [] && OtherKinds(left[1..]) == [];
    }
  }

  /** `order_rm` leaves the constraints of other kinds alone exactly if no set of theirs refers to a name given. */
  lemma OrderRmSparesOthers(cs: seq<Constraint>, names: set<string>)
    ensures OtherKinds(RemoveNames(cs, names)) == OtherKinds(cs) <==> !SomeRef(AllRefs(OtherKinds(cs)), names)
  {
    OtherKindsOfFilter(cs, names, ByNames(names));
    FilterKeepsAll(OtherKinds(cs), ByNames(names));
    SomeRefMeansSome(AllRefs(OtherKinds(cs)), names);
  }

  lemma {:induction false} SomeRefMeansSome(refs: seq<Ref>, names: set<string>)
    ensures SomeRef(refs, names) <==> exists r <- refs :: r.id in names
  {
    if refs != [] {
      SomeRefMeansSome(refs[1..], names);
      assert refs == [refs[0]] + refs[1..];
    }
  }

  /** One of them stays as it is, under the same condition. */
  lemma OrderRmSparesOne(c: Constraint, names: set<string>)
    requires c.kind != Order
    ensures RemoveNames([c], names) == [c] <==> forall r <- SetRefs(c.sets) :: r.id !in names
  {
    OrderRmSparesOthers([c], names);
    assert OtherKinds([c][1..]) == [] && OtherKinds([c]) == [c] + OtherKinds([c][1..]);
    assert OtherKinds([c]) == [c];
    assert AllRefs([c]) == SetRefs(c.sets) + AllRefs([c][1..]) == SetRefs(c.sets);
    SomeRefMeansSome(SetRefs(c.sets), names);
    assert DropOrders([c], names) == [c] + DropOrders([c][1..], names) == [c];
    FilterOne(c, ByNames(names));
    OtherKindsOfOne(c, ByNames(names));
    assert RemoveNames([c], names) == FilterConstraint(c, ByNames(names));
  }

  /** A colocation, or any other constraint, of the named resource alone is removed altogether. */
  lemma OrderRmRemovesAColocation(c: Constraint, s: ResourceSet, r: Ref)
    requires c.kind != Order && c.sets == [s] && s.refs == [r]
    ensures RemoveNames([c], {r.id}) == []
  {
    var drop := ByNames({r.id});
    assert DropOrders([c], {r.id}) == [c] + DropOrders([c][1..], {r.id});
    FilterOne(c, drop);
    DroppedExactly(c, drop);
  }

  datatype Outcome = UsageError | NothingFound | Replaced

  class ConstraintsSection {
    var constraints: seq<Constraint>

    constructor (constraints: seq<Constraint>)
      ensures this.constraints == constraints
    {
      this.constraints := constraints;
    }

    /** The loop of `remove_constraints_containing` over all references of a snapshot. */
    method RemoveFromSets(name: string)
      requires DistinctRefs(AllRefs(constraints))
      modifies this
      ensures constraints == old(Filter(constraints, ByNames({name})))
    {
      var snapshot := AllRefs(constraints);
      ghost var original := constraints;
      FilterNothing(original, ByKeys({}));
      assert MatchingKeys(snapshot[..0], name) == {};
      for i := 0 to |snapshot|
        invariant constraints == Filter(original, ByKeys(MatchingKeys(snapshot[..i], name)))
      {
        RefTurn(original, snapshot, i, name);
        if snapshot[i].id == name {
          assert snapshot[i] in AllRefs(constraints);
          constraints := Detach(constraints, snapshot[i].key);
        }
      }
      assert snapshot[..|snapshot|] == snapshot;
      KeysAreNames(original, name);
    }

    /** The first loop of `order_rm`: order constraints that name the resource go. */
    method RemoveOrders(name: string) returns (found: bool)
      requires OneNodeEach(constraints)
      modifies this
      ensures constraints == old(DropOrders(constraints, {name}))
      ensures found <==> SomeOrder(old(constraints), {name})
    {
      found := false;
      var snapshot := constraints;
      OrdersHandledEnds(snapshot, name);
      for i := 0 to |snapshot|
        invariant constraints == OrdersHandled(snapshot, i, name)
        invariant found <==> SomeOrder(snapshot[..i], {name})
      {
        var c := snapshot[i];
        OrderTurn(snapshot, i, name);
        OrderNamesOne(c, name);
        if c.kind == Order && (c.first == name || c.second == name) {
          constraints := RemoveChild(constraints, c.key);
          found := true;
        }
      }
      assert snapshot[..|snapshot|] == snapshot;
    }

    /** The second loop: the matching nodes are collected. */
    static method CollectRefs(snapshot: seq<Ref>, name: string) returns (keys: seq<nat>, found: bool)
      requires DistinctRefs(snapshot)
      ensures SetOf(keys) == MatchingKeys(snapshot, name)
      ensures forall j, k | 0 <= j < k < |keys| :: keys[j] != keys[k]
      ensures found <==> SomeRef(snapshot, {name})
    {
      keys, found := [], false;
      for i := 0 to |snapshot|
        invariant SetOf(keys) == MatchingKeys(snapshot[..i], name)
        invariant forall j, k | 0 <= j < k < |keys| :: keys[j] != keys[k]
        invariant found <==> SomeRef(snapshot[..i], {name})
      {
        var r := snapshot[i];
        assert snapshot[..i + 1] == snapshot[..i] + [r];
        MatchingKeysSnoc(snapshot[..i], r, name);
        SomeRefSnoc(snapshot[..i], r, {name});
        NotRemovedYet(snapshot, i, name);
        if r.id == name {
          assert forall j | 0 <= j < |keys| :: keys[j] in SetOf(keys);
          SetOfSnoc(keys, r.key);
          keys := keys + [r.key];
          found := true;
        }
      }
      assert snapshot[..|snapshot|] == snapshot;
    }

    /** The second and third loop: matching references are collected, then removed. */
    method RemoveCollected(name: string) returns (found: bool)
      requires DistinctRefs(AllRefs(constraints))
      modifies this
      ensures constraints == old(Filter(constraints, ByNames({name})))
      ensures found <==> SomeRef(old(AllRefs(constraints)), {name})
    {
      var keys;
      keys, found := CollectRefs(AllRefs(constraints), name);
      RemoveKeys(keys);
      KeysAreNames(old(constraints), name);
    }

    method RemoveKeys(keys: seq<nat>)
      requires DistinctRefs(AllRefs(constraints))
      requires forall j, k | 0 <= j < k < |keys| :: keys[j] != keys[k]
      modifies this
      ensures constraints == old(Filter(constraints, ByKeys(SetOf(keys))))
    {
      FilterNothing(constraints, ByKeys({}));
      assert SetOf(keys[..0]) == {};
      for i := 0 to |keys|
        invariant constraints == Filter(old(constraints), ByKeys(SetOf(keys[..i])))
      {
        ghost var done := SetOf(keys[..i]);
        assert keys[..i + 1] == keys[..i] + [keys[i]];
        SetOfSnoc(keys[..i], keys[i]);
        DetachOneMore(old(constraints), done, keys[i]);
        constraints := Detach(constraints, keys[i]);
      }
      assert keys[..|keys|] == keys;
    }

    /** One turn of `order_rm`. */
    method RemoveName(name: string) returns (found: bool)
      requires OneNodeEach(constraints)
      modifies this
      ensures constraints == old(RemoveNames(constraints, {name})) && OneNodeEach(constraints)
      ensures found ==> Mentions(old(constraints), {name})
      ensures !found ==> constraints == old(constraints) && !Mentions(old(constraints), {name})
    {
      found := RemoveOrders(name);
      DropOrdersRefs(old(constraints), {name});
      DropOrdersKeys(old(constraints), {name});
      var more := RemoveCollected(name);
      FilterKeepsNodes(old(DropOrders(constraints, {name})), ByNames({name}));
      MentionsAfterOrders(old(constraints), {name});
      found := found || more;
    }

    /** `order_rm`; an outcome other than `Replaced` pushes nothing. */
    method OrderRm(argv: seq<string>) returns (outcome: Outcome)
      requires OneNodeEach(constraints)
      modifies this
      ensures outcome == if argv == [] then UsageError
                         else if Mentions(old(constraints), NamesOf(argv)) then Replaced else NothingFound
      ensures outcome == Replaced ==> constraints == old(RemoveNames(constraints, NamesOf(argv)))
      ensures outcome != Replaced ==> constraints == old(constraints)
    {
      if argv == [] {
        return UsageError;
      }
      var elementFound := false;
      ghost var original := constraints;
      assert NamesOf(argv[..0]) == {};
      NoNames(original, AllRefs(original));
      RemoveNoNames(original, NamesOf(argv[..0]));
      for i := 0 to |argv|
        invariant constraints == RemoveNames(original, NamesOf(argv[..i])) && OneNodeEach(constraints)
        invariant elementFound <==> Mentions(original, NamesOf(argv[..i]))
        invariant !elementFound ==> constraints == original
      {
        assert argv[..i + 1] == argv[..i] + [argv[i]];
        NamesOfSnoc(argv[..i], argv[i]);
        RemoveNamesTwice(original, NamesOf(argv[..i]), {argv[i]});
        MentionsMore(original, NamesOf(argv[..i]), argv[i]);
        var found := RemoveName(argv[i]);
        elementFound := elementFound || found;
      }
      assert argv[..|argv|] == argv;
      outcome := if elementFound then Replaced else NothingFound;
    }
  }
}
