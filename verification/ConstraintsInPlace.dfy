/** The in-place removals of `order_rm` and `remove_constraints_containing`, proved equal to the filter. */
module ConstraintsInPlace {
  import opened Sequences
  import opened Constraints

  // ----- nodes ---------------------------------------------------------------

  function SetRefs(sets: seq<ResourceSet>): seq<Ref> {
    if sets == [] then [] else sets[0].refs + SetRefs(sets[1..])
  }

  lemma {:induction false} SetRefsMember(sets: seq<ResourceSet>, r: Ref)
    ensures r in SetRefs(sets) <==> exists s <- sets :: r in s.refs
  {
    if sets != [] {
      assert sets == [sets[0]] + sets[1..];
      SetRefsMember(sets[1..], r);
    }
  }

  /** getElementsByTagName("resource_ref"), in document order. */
  function AllRefs(cs: seq<Constraint>): seq<Ref> {
    if cs == [] then [] else SetRefs(cs[0].sets) + AllRefs(cs[1..])
  }

  predicate HasKey(refs: seq<Ref>, key: nat) {
    exists i | 0 <= i < |refs| :: refs[i].key == key
  }

  ghost predicate DistinctRefs(refs: seq<Ref>) {
    forall i, j | 0 <= i < j < |refs| :: refs[i].key != refs[j].key
  }

  /** Every element is one node. */
  ghost predicate OneNodeEach(cs: seq<Constraint>) {
    DistinctRefs(AllRefs(cs)) && DistinctKeys(cs)
  }

  ghost predicate DistinctKeys(cs: seq<Constraint>) {
    forall i, j | 0 <= i < j < |cs| :: cs[i].key != cs[j].key
  }

  // ----- removing one node ---------------------------------------------------

  function DetachRef(refs: seq<Ref>, key: nat): seq<Ref> {
    if refs == [] then []
    else if refs[0].key == key then refs[1..]
    else [refs[0]] + DetachRef(refs[1..], key)
  }

  /** The parent set of the node loses it, and goes when it has no reference left. */
  function DetachInSets(sets: seq<ResourceSet>, key: nat): seq<ResourceSet> {
    if sets == [] then []
    else if HasKey(sets[0].refs, key) then
      var refs := DetachRef(sets[0].refs, key);
      (if refs == [] then [] else [sets[0].(refs := refs)]) + sets[1..]
    else [sets[0]] + DetachInSets(sets[1..], key)
  }

  /** ... and so does the parent constraint of a set that went. */
  function Detach(cs: seq<Constraint>, key: nat): seq<Constraint> {
    if cs == [] then []
    else if HasKey(SetRefs(cs[0].sets), key) then
      var sets := DetachInSets(cs[0].sets, key);
      (if sets == [] then [] else [cs[0].(sets := sets)]) + cs[1..]
    else [cs[0]] + Detach(cs[1..], key)
  }

  ghost predicate NoneOf(refs: seq<Ref>, drop: Ref -> bool) {
    forall i | 0 <= i < |refs| :: !drop(refs[i])
  }

  lemma {:induction false} FilterRefsNothing(refs: seq<Ref>, drop: Ref -> bool)
    requires NoneOf(refs, drop)
    ensures FilterRefs(refs, drop) == refs
  {
    if refs != [] {
      FilterRefsNothing(refs[1..], drop);
    }
  }

  lemma NoneOfSplit(a: seq<Ref>, b: seq<Ref>, drop: Ref -> bool)
    requires NoneOf(a + b, drop)
    ensures NoneOf(a, drop) && NoneOf(b, drop)
  {
    forall i | 0 <= i < |a| ensures !drop(a[i]) { assert (a + b)[i] == a[i]; }
    forall i | 0 <= i < |b| ensures !drop(b[i]) { assert (a + b)[|a| + i] == b[i]; }
  }

  lemma {:induction false} FilterSetsNothing(sets: seq<ResourceSet>, drop: Ref -> bool)
    requires NoneOf(SetRefs(sets), drop)
    ensures FilterSets(sets, drop) == sets
  {
    if sets != [] {
      NoneOfSplit(sets[0].refs, SetRefs(sets[1..]), drop);
      FilterRefsNothing(sets[0].refs, drop);
      FilterSetsNothing(sets[1..], drop);
    }
  }

  /** What is not concerned stays as it is, empty sets and constraints without sets included. */
  lemma {:induction false} FilterNothing(cs: seq<Constraint>, drop: Ref -> bool)
    requires NoneOf(AllRefs(cs), drop)
    ensures Filter(cs, drop) == cs
  {
    if cs != [] {
      NoneOfSplit(SetRefs(cs[0].sets), AllRefs(cs[1..]), drop);
      FilterSetsNothing(cs[0].sets, drop);
      FilterNothing(cs[1..], drop);
    }
  }

  lemma DistinctSplit(a: seq<Ref>, b: seq<Ref>)
    requires DistinctRefs(a + b)
    ensures DistinctRefs(a) && DistinctRefs(b)
    ensures forall key :: HasKey(a, key) ==> !HasKey(b, key)
  {
    forall i, j | 0 <= i < j < |a| ensures a[i].key != a[j].key { assert (a + b)[i] == a[i] && (a + b)[j] == a[j]; }
    forall i, j | 0 <= i < j < |b| ensures b[i].key != b[j].key {
      assert (a + b)[|a| + i] == b[i] && (a + b)[|a| + j] == b[j];
    }
    forall i, j | 0 <= i < |a| && 0 <= j < |b| ensures a[i].key != b[j].key {
      assert (a + b)[i] == a[i] && (a + b)[|a| + j] == b[j];
    }
  }

  lemma {:induction false} DetachRefIsFilter(refs: seq<Ref>, key: nat, drop: Ref -> bool)
    requires DistinctRefs(refs) && forall r :: drop(r) <==> r.key == key
    ensures DetachRef(refs, key) == FilterRefs(refs, drop)
  {
    if refs != [] {
      if refs[0].key == key {
        FilterRefsNothing(refs[1..], drop);
      } else {
        DetachRefIsFilter(refs[1..], key, drop);
      }
    }
  }

  lemma {:induction false} DetachInSetsIsFilter(sets: seq<ResourceSet>, key: nat, drop: Ref -> bool)
    requires DistinctRefs(SetRefs(sets)) && forall r :: drop(r) <==> r.key == key
    ensures DetachInSets(sets, key) == FilterSets(sets, drop)
  {
    if sets != [] {
      DistinctSplit(sets[0].refs, SetRefs(sets[1..]));
      if HasKey(sets[0].refs, key) {
        DetachRefIsFilter(sets[0].refs, key, drop);
        FilterSetsNothing(sets[1..], drop);
      } else {
        FilterRefsNothing(sets[0].refs, drop);
        DetachInSetsIsFilter(sets[1..], key, drop);
      }
    }
  }

  /** Removing one node in place, with what that empties, is filtering by its key. */
  lemma {:induction false} DetachIsFilter(cs: seq<Constraint>, key: nat, drop: Ref -> bool)
    requires DistinctRefs(AllRefs(cs)) && forall r :: drop(r) <==> r.key == key
    ensures Detach(cs, key) == Filter(cs, drop)
  {
    if cs != [] {
      DistinctSplit(SetRefs(cs[0].sets), AllRefs(cs[1..]));
      if HasKey(SetRefs(cs[0].sets), key) {
        DetachInSetsIsFilter(cs[0].sets, key, drop);
        FilterNothing(cs[1..], drop);
      } else {
        FilterSetsNothing(cs[0].sets, drop);
        DetachIsFilter(cs[1..], key, drop);
      }
    }
  }

  // ----- what a filter leaves ------------------------------------------------

  lemma {:induction false} FilterRefsAppend(a: seq<Ref>, b: seq<Ref>, drop: Ref -> bool)
    ensures FilterRefs(a + b, drop) == FilterRefs(a, drop) + FilterRefs(b, drop)
  {
    if a == [] {
      assert a + b == b;
    } else {
      assert (a + b)[1..] == a[1..] + b;
      FilterRefsAppend(a[1..], b, drop);
      ConcatAssociates(if drop(a[0]) then [] else [a[0]], FilterRefs(a[1..], drop), FilterRefs(b, drop));
    }
  }

  lemma {:induction false} SetRefsOfFilter(sets: seq<ResourceSet>, drop: Ref -> bool)
    ensures SetRefs(FilterSets(sets, drop)) == FilterRefs(SetRefs(sets), drop)
  {
    if sets != [] {
      FilterRefsAppend(sets[0].refs, SetRefs(sets[1..]), drop);
      SetRefsOfFilter(sets[1..], drop);
      var kept := FilterSet(sets[0], drop);
      assert kept != [] ==> (kept + FilterSets(sets[1..], drop))[1..] == FilterSets(sets[1..], drop);
      assert kept == [] ==> kept + FilterSets(sets[1..], drop) == FilterSets(sets[1..], drop);
    }
  }

  lemma {:induction false} AllRefsOfFilter(cs: seq<Constraint>, drop: Ref -> bool)
    ensures AllRefs(Filter(cs, drop)) == FilterRefs(AllRefs(cs), drop)
  {
    if cs != [] {
      FilterRefsAppend(SetRefs(cs[0].sets), AllRefs(cs[1..]), drop);
      SetRefsOfFilter(cs[0].sets, drop);
      AllRefsOfFilter(cs[1..], drop);
      var kept := FilterConstraint(cs[0], drop);
      assert kept != [] ==> (kept + Filter(cs[1..], drop))[1..] == Filter(cs[1..], drop);
      assert kept == [] ==> kept + Filter(cs[1..], drop) == Filter(cs[1..], drop);
    }
  }

  lemma {:induction false} FilterRefsKeeps(refs: seq<Ref>, drop: Ref -> bool)
    ensures DistinctRefs(refs) ==> DistinctRefs(FilterRefs(refs, drop))
    ensures forall r :: r in FilterRefs(refs, drop) <==> r in refs && !drop(r)
  {
    if refs != [] {
      assert refs == [refs[0]] + refs[1..];
      FilterRefsKeeps(refs[1..], drop);
      if DistinctRefs(refs) {
        forall r <- FilterRefs(refs[1..], drop) ensures r.key != refs[0].key {
          assert r in refs[1..];
        }
      }
    }
  }

  lemma {:induction false} AllRefsDropped(refs: seq<Ref>, drop: Ref -> bool)
    ensures FilterRefs(refs, drop) == [] <==> forall r <- refs :: drop(r)
  {
    if refs != [] {
      assert refs == [refs[0]] + refs[1..];
      AllRefsDropped(refs[1..], drop);
    }
  }

  lemma {:induction false} FilterSame(cs: seq<Constraint>, p: Ref -> bool, q: Ref -> bool)
    requires forall r <- AllRefs(cs) :: p(r) == q(r)
    ensures Filter(cs, p) == Filter(cs, q)
  {
    if cs != [] {
      var here, later := SetRefs(cs[0].sets), AllRefs(cs[1..]);
      assert forall r <- here :: r in here + later;
      assert forall r <- later :: r in here + later;
      FilterSetsSame(cs[0].sets, p, q);
      FilterSame(cs[1..], p, q);
    }
  }

  lemma {:induction false} FilterSetsSame(sets: seq<ResourceSet>, p: Ref -> bool, q: Ref -> bool)
    requires forall r <- SetRefs(sets) :: p(r) == q(r)
    ensures FilterSets(sets, p) == FilterSets(sets, q)
  {
    if sets != [] {
      var here, later := sets[0].refs, SetRefs(sets[1..]);
      assert forall r <- here :: r in here + later;
      assert forall r <- later :: r in here + later;
      FilterRefsSame(here, p, q);
      FilterSetsSame(sets[1..], p, q);
    }
  }

  lemma {:induction false} FilterRefsSame(refs: seq<Ref>, p: Ref -> bool, q: Ref -> bool)
    requires forall r <- refs :: p(r) == q(r)
    ensures FilterRefs(refs, p) == FilterRefs(refs, q)
  {
    if refs != [] {
      assert refs[0] in refs;
      FilterRefsSame(refs[1..], p, q);
    }
  }
}
