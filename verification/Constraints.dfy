/** The constraints section: removing references from resource sets, and what that empties. */
module Constraints {
  import opened Sequences

  /** Elements are told apart by their keys, as DOM nodes are by identity. A missing attribute reads as "". */
  datatype Ref = Ref(key: nat, id: string)

  datatype ResourceSet = ResourceSet(key: nat, id: string, refs: seq<Ref>)

  datatype Kind = Location | Order | Colocation | Ticket

  datatype Constraint = Constraint(
    key: nat, kind: Kind, id: string, rsc: string, withRsc: string, first: string, second: string,
    others: map<string, string>, sets: seq<ResourceSet>)

  // ----- the filter ----------------------------------------------------------

  function FilterRefs(refs: seq<Ref>, drop: Ref -> bool): seq<Ref> {
    if refs == [] then []
    else (if drop(refs[0]) then [] else [refs[0]]) + FilterRefs(refs[1..], drop)
  }

  /** A set without the dropped references; none if this emptied it. */
  function FilterSet(s: ResourceSet, drop: Ref -> bool): seq<ResourceSet> {
    var refs := FilterRefs(s.refs, drop);
    if refs == [] && s.refs != [] then [] else [s.(refs := refs)]
  }

  function FilterSets(sets: seq<ResourceSet>, drop: Ref -> bool): seq<ResourceSet> {
    if sets == [] then [] else FilterSet(sets[0], drop) + FilterSets(sets[1..], drop)
  }

  /** A constraint without the dropped references and emptied sets; none if this emptied it. */
  function FilterConstraint(c: Constraint, drop: Ref -> bool): seq<Constraint> {
    var sets := FilterSets(c.sets, drop);
    if sets == [] && c.sets != [] then [] else [c.(sets := sets)]
  }

  function Filter(cs: seq<Constraint>, drop: Ref -> bool): seq<Constraint> {
    if cs == [] then [] else FilterConstraint(cs[0], drop) + Filter(cs[1..], drop)
  }

  predicate OrderNames(c: Constraint, names: set<string>) {
    c.kind == Order && (c.first in names || c.second in names)
  }

  function DropOrders(cs: seq<Constraint>, names: set<string>): seq<Constraint> {
    if cs == [] then []
    else (if OrderNames(cs[0], names) then [] else [cs[0]]) + DropOrders(cs[1..], names)
  }

  function ByNames(names: set<string>): Ref -> bool {
    (r: Ref) => r.id in names
  }

  function ByKeys(keys: set<nat>): Ref -> bool {
    (r: Ref) => r.key in keys
  }

  /** The filter over all names at once. */
  function RemoveNames(cs: seq<Constraint>, names: set<string>): seq<Constraint> {
    Filter(DropOrders(cs, names), ByNames(names))
  }

  // ----- what the filter leaves ----------------------------------------------

  lemma {:induction false} FilterRefsSelects(refs: seq<Ref>, drop: Ref -> bool, keep: Ref -> bool)
    requires forall r :: keep(r) <==> !drop(r)
    ensures Selects(refs, FilterRefs(refs, drop), keep)
  {
    if refs != [] {
      FilterRefsSelects(refs[1..], drop, keep);
      var later := FilterRefs(refs[1..], drop);
      assert ([refs[0]] + later)[1..] == later && [] + later == later;
    }
  }

  /** Had references, and loses them all. */
  predicate EmptiedSet(s: ResourceSet, keep: Ref -> bool) {
    s.refs != [] && forall r <- s.refs :: !keep(r)
  }

  /** Had sets, and loses them all. */
  predicate EmptiedConstraint(c: Constraint, keep: Ref -> bool) {
    c.sets != [] && forall s <- c.sets :: EmptiedSet(s, keep)
  }

  /** The same set with the references to keep, in order. */
  ghost predicate SetLeft(after: ResourceSet, before: ResourceSet, keep: Ref -> bool) {
    after == before.(refs := after.refs) && Selects(before.refs, after.refs, keep)
  }

  /** The sets that are not emptied, in order, each with the references to keep. */
  ghost predicate SetsLeft(after: seq<ResourceSet>, before: seq<ResourceSet>, keep: Ref -> bool) {
    if before == [] then after == []
    else if EmptiedSet(before[0], keep) then SetsLeft(after, before[1..], keep)
    else after != [] && SetLeft(after[0], before[0], keep) && SetsLeft(after[1..], before[1..], keep)
  }

  /** The constraints that are not emptied, in order; nothing about them changes but their sets. */
  ghost predicate ConstraintsLeft(after: seq<Constraint>, before: seq<Constraint>, keep: Ref -> bool) {
    if before == [] then after == []
    else if EmptiedConstraint(before[0], keep) then ConstraintsLeft(after, before[1..], keep)
    else
      && after != [] && after[0] == before[0].(sets := after[0].sets)
      && SetsLeft(after[0].sets, before[0].sets, keep)
      && ConstraintsLeft(after[1..], before[1..], keep)
  }

  lemma FilterSetMeans(s: ResourceSet, drop: Ref -> bool, keep: Ref -> bool)
    requires forall r :: keep(r) <==> !drop(r)
    ensures FilterSet(s, drop) == [] <==> EmptiedSet(s, keep)
    ensures FilterSet(s, drop) != [] ==> |FilterSet(s, drop)| == 1 && SetLeft(FilterSet(s, drop)[0], s, keep)
  {
    FilterRefsSelects(s.refs, drop, keep);
    SelectedAre(s.refs, FilterRefs(s.refs, drop), keep);
    var left := FilterRefs(s.refs, drop);
    assert left != [] ==> left[0] in left;
  }

  lemma {:induction false} FilterSetsMean(sets: seq<ResourceSet>, drop: Ref -> bool, keep: Ref -> bool)
    requires forall r :: keep(r) <==> !drop(r)
    ensures SetsLeft(FilterSets(sets, drop), sets, keep)
    ensures FilterSets(sets, drop) == [] <==> forall s <- sets :: EmptiedSet(s, keep)
  {
    if sets != [] {
      assert sets == [sets[0]] + sets[1..];
      FilterSetMeans(sets[0], drop, keep);
      FilterSetsMean(sets[1..], drop, keep);
      var (here, later) := (FilterSet(sets[0], drop), FilterSets(sets[1..], drop));
      assert here == [] ==> here + later == later;
      assert |here| == 1 ==> (here + later)[1..] == later;
    }
  }

  /** What the filter leaves of constraints, set by set and reference by reference. */
  lemma {:induction false} FilterMeans(cs: seq<Constraint>, drop: Ref -> bool, keep: Ref -> bool)
    requires forall r :: keep(r) <==> !drop(r)
    ensures ConstraintsLeft(Filter(cs, drop), cs, keep)
  {
    if cs != [] {
      FilterSetsMean(cs[0].sets, drop, keep);
      FilterMeans(cs[1..], drop, keep);
      var (here, later) := (FilterConstraint(cs[0], drop), Filter(cs[1..], drop));
      assert here == [] ==> here + later == later;
      assert |here| == 1 ==> (here + later)[1..] == later;
    }
  }

  lemma {:induction false} DropOrdersSelects(cs: seq<Constraint>, names: set<string>)
    ensures Selects(cs, DropOrders(cs, names),
      (c: Constraint) => !(c.kind == Order && (c.first in names || c.second in names)))
  {
    if cs != [] {
      DropOrdersSelects(cs[1..], names);
      var later := DropOrders(cs[1..], names);
      assert ([cs[0]] + later)[1..] == later && [] + later == later;
    }
  }

  /**
   * What removing names leaves: order constraints that name one are gone, all others stay in order, and of their sets
   * just the references to the names are gone, with the sets and constraints this empties.
   */
  lemma RemoveNamesMeans(cs: seq<Constraint>, names: set<string>) returns (others: seq<Constraint>)
    ensures Selects(cs, others, (c: Constraint) => !(c.kind == Order && (c.first in names || c.second in names)))
    ensures ConstraintsLeft(RemoveNames(cs, names), others, (r: Ref) => r.id !in names)
  {
    others := DropOrders(cs, names);
    DropOrdersSelects(cs, names);
    FilterMeans(others, ByNames(names), (r: Ref) => r.id !in names);
  }

  // ----- one pass after the other is one pass --------------------------------

  lemma {:induction false} FilterRefsTwice(refs: seq<Ref>, p: Ref -> bool, q: Ref -> bool, both: Ref -> bool)
    requires forall r :: both(r) <==> p(r) || q(r)
    ensures FilterRefs(FilterRefs(refs, p), q) == FilterRefs(refs, both)
  {
    if refs != [] {
      FilterRefsTwice(refs[1..], p, q, both);
      assert ([refs[0]] + FilterRefs(refs[1..], p))[1..] == FilterRefs(refs[1..], p);
      assert [] + FilterRefs(refs[1..], p) == FilterRefs(refs[1..], p);
    }
  }

  lemma FilterSetsOne(s: ResourceSet, drop: Ref -> bool)
    ensures FilterSets([s], drop) == FilterSet(s, drop)
  {
    assert FilterSets([s][1..], drop) == [];
  }

  lemma {:induction false} FilterSetsAppend(a: seq<ResourceSet>, b: seq<ResourceSet>, drop: Ref -> bool)
    ensures FilterSets(a + b, drop) == FilterSets(a, drop) + FilterSets(b, drop)
  {
    if a == [] {
      assert a + b == b;
    } else {
      assert (a + b)[1..] == a[1..] + b;
      FilterSetsAppend(a[1..], b, drop);
      ConcatAssociates(FilterSet(a[0], drop), FilterSets(a[1..], drop), FilterSets(b, drop));
    }
  }

  lemma {:induction false} FilterSetsTwice(sets: seq<ResourceSet>, p: Ref -> bool, q: Ref -> bool, both: Ref -> bool)
    requires forall r :: both(r) <==> p(r) || q(r)
    ensures FilterSets(FilterSets(sets, p), q) == FilterSets(sets, both)
  {
    if sets != [] {
      var s := sets[0];
      FilterSetsTwice(sets[1..], p, q, both);
      FilterRefsTwice(s.refs, p, q, both);
      FilterSetsAppend(FilterSet(s, p), FilterSets(sets[1..], p), q);
      FilterSetsOne(s.(refs := FilterRefs(s.refs, p)), q);
    }
  }

  lemma FilterOne(c: Constraint, drop: Ref -> bool)
    ensures Filter([c], drop) == FilterConstraint(c, drop)
  {
    assert Filter([c][1..], drop) == [];
  }

  lemma {:induction false} FilterAppend(a: seq<Constraint>, b: seq<Constraint>, drop: Ref -> bool)
    ensures Filter(a + b, drop) == Filter(a, drop) + Filter(b, drop)
  {
    if a == [] {
      assert a + b == b;
    } else {
      assert (a + b)[1..] == a[1..] + b;
      FilterAppend(a[1..], b, drop);
      ConcatAssociates(FilterConstraint(a[0], drop), Filter(a[1..], drop), Filter(b, drop));
    }
  }

  lemma {:induction false} FilterTwice(cs: seq<Constraint>, p: Ref -> bool, q: Ref -> bool, both: Ref -> bool)
    requires forall r :: both(r) <==> p(r) || q(r)
    ensures Filter(Filter(cs, p), q) == Filter(cs, both)
  {
    if cs != [] {
      var c := cs[0];
      FilterTwice(cs[1..], p, q, both);
      FilterSetsTwice(c.sets, p, q, both);
      FilterAppend(FilterConstraint(c, p), Filter(cs[1..], p), q);
      FilterOne(c.(sets := FilterSets(c.sets, p)), q);
    }
  }

  lemma {:induction false} DropOrdersTwice(cs: seq<Constraint>, a: set<string>, b: set<string>)
    ensures DropOrders(DropOrders(cs, a), b) == DropOrders(cs, a + b)
  {
    if cs != [] {
      DropOrdersTwice(cs[1..], a, b);
      assert ([cs[0]] + DropOrders(cs[1..], a))[1..] == DropOrders(cs[1..], a);
      assert [] + DropOrders(cs[1..], a) == DropOrders(cs[1..], a);
    }
  }

  /** References go from the constraints that stay; which stay is settled by attributes that do not change. */
  lemma {:induction false} OrdersAndRefsCommute(cs: seq<Constraint>, names: set<string>, drop: Ref -> bool)
    ensures DropOrders(Filter(cs, drop), names) == Filter(DropOrders(cs, names), drop)
  {
    if cs != [] {
      var c, others := cs[0], cs[1..];
      OrdersAndRefsCommute(others, names, drop);
      FilterAppend([c], DropOrders(others, names), drop);
      FilterOne(c, drop);
      var once := c.(sets := FilterSets(c.sets, drop));
      assert ([once] + Filter(others, drop))[1..] == Filter(others, drop);
      assert [] + Filter(others, drop) == Filter(others, drop);
      assert [] + DropOrders(others, names) == DropOrders(others, names);
    }
  }

  /** Removing names one after the other is removing them all at once, so their order does not matter. */
  lemma RemoveNamesTwice(cs: seq<Constraint>, a: set<string>, b: set<string>)
    ensures RemoveNames(RemoveNames(cs, a), b) == RemoveNames(cs, a + b)
  {
    OrdersAndRefsCommute(DropOrders(cs, a), b, ByNames(a));
    DropOrdersTwice(cs, a, b);
    FilterTwice(DropOrders(cs, a + b), ByNames(a), ByNames(b), ByNames(a + b));
  }
}
