/** `resource relocate`: temporary location constraints are added, pushed, and cleared again. */
module Relocate {
  import opened Sequences
  import opened Constraints
  import opened Ids

  const PREFIX := "pcs-relocate-"

  /** Where the cluster would run a resource, and where it would promote it, if anywhere. */
  datatype Wish = Wish(idForConstraint: string, startOnNode: Option<string>, promoteOnNode: Option<string>)

  predicate Concerned(w: Wish) {
    w.startOnNode.Some? || w.promoteOnNode.Some?
  }

  function RefIds(refs: seq<Ref>): set<string> {
    set i | 0 <= i < |refs| :: refs[i].id
  }

  function SetIds(sets: seq<ResourceSet>): set<string> {
    if sets == [] then {} else {sets[0].id} + RefIds(sets[0].refs) + SetIds(sets[1..])
  }

  /** Every id attribute inside the constraints section; references have one too. */
  function ConstraintIds(cs: seq<Constraint>): set<string> {
    if cs == [] then {} else {cs[0].id} + SetIds(cs[0].sets) + ConstraintIds(cs[1..])
  }

  // ----- the adding loop -----------------------------------------------------

  function WishAttributes(w: Wish, role: string): map<string, string> {
    if w.promoteOnNode.Some? then
      map["score" := "INFINITY", "node" := w.promoteOnNode.value, "role" := role]
    else if w.startOnNode.Some? then map["score" := "INFINITY", "node" := w.startOnNode.value]
    else map["score" := "INFINITY"]
  }

  function NewId(taken: set<string>, w: Wish): string {
    FindUnique(taken, PREFIX + w.idForConstraint)
  }

  function NewConstraint(key: nat, id: string, w: Wish, role: string): Constraint {
    Constraint(key, Location, id, w.idForConstraint, "", "", "", WishAttributes(w, role), [])
  }

  /** The constraints added for wishes, one after the other; `taken` are the ids in use before. */
  function Added(taken: set<string>, key: nat, wishes: seq<Wish>, role: string): seq<Constraint>
    decreases |wishes|
  {
    if wishes == [] then []
    else if !Concerned(wishes[0]) then Added(taken, key, wishes[1..], role)
    else
      var id := NewId(taken, wishes[0]);
      [NewConstraint(key, id, wishes[0], role)] + Added(taken + {id}, key + 1, wishes[1..], role)
  }

  predicate IsTemporary(c: Constraint) {
    c.kind == Location && PREFIX <= c.id
  }

  ghost predicate Fresh(added: seq<Constraint>, taken: set<string>) {
    && (forall i | 0 <= i < |added| :: added[i].id !in taken && IsTemporary(added[i]) && added[i].sets == [])
    && (forall i, j | 0 <= i < j < |added| :: added[i].id != added[j].id)
  }

  /** Every added id is free when it is added, has the prefix, and belongs to a location constraint. */
  lemma {:induction false} AddedIsFresh(taken: set<string>, key: nat, wishes: seq<Wish>, role: string)
    ensures Fresh(Added(taken, key, wishes, role), taken)
    decreases |wishes|
  {
    if wishes != [] {
      if !Concerned(wishes[0]) {
        AddedIsFresh(taken, key, wishes[1..], role);
      } else {
        var id := NewId(taken, wishes[0]);
        FindUniqueIsFree(taken, PREFIX + wishes[0].idForConstraint);
        AddedIsFresh(taken + {id}, key + 1, wishes[1..], role);
      }
    }
  }

  /** A location constraint for the resource, on the node where it is to be promoted, or else on the one to start it. */
  predicate Serves(c: Constraint, w: Wish, role: string) {
    && c.kind == Location && c.rsc == w.idForConstraint && c.sets == []
    && ("pcs-relocate-" + w.idForConstraint) <= c.id
    && match (w.promoteOnNode, w.startOnNode)
       case (Some(node), _) => c.others == map["score" := "INFINITY", "node" := node, "role" := role]
       case (None, Some(node)) => c.others == map["score" := "INFINITY", "node" := node]
       case (None, None) => false
  }

  lemma NewConstraintServes(taken: set<string>, key: nat, w: Wish, role: string)
    requires Concerned(w)
    ensures Serves(NewConstraint(key, NewId(taken, w), w, role), w, role)
  {
    FindUniqueIsFree(taken, PREFIX + w.idForConstraint);
  }

  lemma {:induction false} AddedServe(taken: set<string>, key: nat, wishes: seq<Wish>, role: string)
    ensures forall c <- Added(taken, key, wishes, role) :: exists w <- wishes :: Serves(c, w, role)
    decreases |wishes|
  {
    if wishes != [] {
      assert wishes == [wishes[0]] + wishes[1..];
      var more := if Concerned(wishes[0]) then taken + {NewId(taken, wishes[0])} else taken;
      var next := if Concerned(wishes[0]) then key + 1 else key;
      AddedServe(more, next, wishes[1..], role);
      forall c <- Added(taken, key, wishes, role) ensures exists w <- wishes :: Serves(c, w, role) {
        if c in Added(more, next, wishes[1..], role) {
          var w :| w in wishes[1..] && Serves(c, w, role);
          assert w in wishes;
        } else {
          NewConstraintServes(taken, key, wishes[0], role);
          assert Serves(c, wishes[0], role);
        }
      }
    }
  }

  lemma {:induction false} WishesAreServed(taken: set<string>, key: nat, wishes: seq<Wish>, role: string)
    ensures forall w <- wishes | Concerned(w) :: exists c <- Added(taken, key, wishes, role) :: Serves(c, w, role)
    decreases |wishes|
  {
    if wishes != [] {
      var all := Added(taken, key, wishes, role);
      var more := if Concerned(wishes[0]) then taken + {NewId(taken, wishes[0])} else taken;
      var next := if Concerned(wishes[0]) then key + 1 else key;
      var later := Added(more, next, wishes[1..], role);
      assert forall c <- later :: c in all;
      WishesAreServed(more, next, wishes[1..], role);
      forall w <- wishes | Concerned(w) ensures exists c <- all :: Serves(c, w, role) {
        if w in wishes[1..] {
          var c :| c in later && Serves(c, w, role);
          assert c in all;
        } else {
          NewConstraintServes(taken, key, w, role);
          assert Serves(all[0], w, role);
        }
      }
    }
  }

  /** Constraints for just the resources that want to be somewhere, on the nodes they want. */
  lemma {:induction false} AddedForWishes(taken: set<string>, key: nat, wishes: seq<Wish>, role: string)
    ensures forall c <- Added(taken, key, wishes, role) :: exists w <- wishes :: Serves(c, w, role)
    ensures forall w <- wishes | Concerned(w) :: exists c <- Added(taken, key, wishes, role) :: Serves(c, w, role)
  {
    AddedServe(taken, key, wishes, role);
    WishesAreServed(taken, key, wishes, role);
  }

  // ----- clearing ------------------------------------------------------------

  function Clear(cs: seq<Constraint>): seq<Constraint> {
    if cs == [] then []
    else (if IsTemporary(cs[0]) then [] else [cs[0]]) + Clear(cs[1..])
  }

  lemma {:induction false} ClearAppend(a: seq<Constraint>, b: seq<Constraint>)
    ensures Clear(a + b) == Clear(a) + Clear(b)
  {
    if a == [] {
      assert a + b == b;
    } else {
      assert (a + b)[1..] == a[1..] + b;
      ClearAppend(a[1..], b);
      ConcatAssociates(if IsTemporary(a[0]) then [] else [a[0]], Clear(a[1..]), Clear(b));
    }
  }

  lemma {:induction false} ClearAll(cs: seq<Constraint>)
    requires forall i | 0 <= i < |cs| :: IsTemporary(cs[i])
    ensures Clear(cs) == []
  {
    if cs != [] {
      ClearAll(cs[1..]);
    }
  }

  /** What is cleared is told by the kind and the prefix of the id; all else stays in order. */
  lemma {:induction false} ClearSelects(cs: seq<Constraint>)
    ensures Selects(cs, Clear(cs), (c: Constraint) => !(c.kind == Location && "pcs-relocate-" <= c.id))
  {
    if cs != [] {
      ClearSelects(cs[1..]);
      var later := Clear(cs[1..]);
      assert ([cs[0]] + later)[1..] == later && [] + later == later;
    }
  }

  /** Clearing keeps, in their order, exactly the constraints that are not temporary. */
  lemma {:induction false} ClearKeeps(cs: seq<Constraint>)
    ensures forall c :: c in Clear(cs) <==> c in cs && !IsTemporary(c)
    ensures (forall c <- cs :: !IsTemporary(c)) ==> Clear(cs) == cs
  {
    if cs != [] {
      assert cs == [cs[0]] + cs[1..];
      ClearKeeps(cs[1..]);
    }
  }

  /** Adding for any wishes and clearing gives what clearing alone would have given. */
  lemma AddThenClear(cs: seq<Constraint>, taken: set<string>, key: nat, wishes: seq<Wish>, role: string)
    ensures Clear(cs + Added(taken, key, wishes, role)) == Clear(cs)
  {
    AddedIsFresh(taken, key, wishes, role);
    ClearAppend(cs, Added(taken, key, wishes, role));
    ClearAll(Added(taken, key, wishes, role));
  }

  // ----- the command ---------------------------------------------------------

  lemma {:induction false} IdsAppend(a: seq<Constraint>, b: seq<Constraint>)
    ensures ConstraintIds(a + b) == ConstraintIds(a) + ConstraintIds(b)
  {
    if a == [] {
      assert a + b == b;
    } else {
      assert (a + b)[1..] == a[1..] + b;
      IdsAppend(a[1..], b);
    }
  }

  /** The constraint, a set in it or a reference in such a set has the id. */
  predicate ConstraintHas(c: Constraint, id: string) {
    c.id == id || exists s <- c.sets :: s.id == id || exists r <- s.refs :: r.id == id
  }

  lemma {:induction false} SetIdsMean(sets: seq<ResourceSet>, id: string)
    ensures id in SetIds(sets) <==> exists s <- sets :: s.id == id || exists r <- s.refs :: r.id == id
  {
    if sets != [] {
      assert forall s :: s in sets <==> s == sets[0] || s in sets[1..];
      var refs := sets[0].refs;
      if r :| r in refs && r.id == id {
        var i :| 0 <= i < |refs| && refs[i] == r;
        assert id in RefIds(refs);
      }
      SetIdsMean(sets[1..], id);
    }
  }

  lemma {:induction false} ConstraintIdsMean(cs: seq<Constraint>, id: string)
    ensures id in ConstraintIds(cs) <==> exists c <- cs :: ConstraintHas(c, id)
  {
    if cs != [] {
      assert forall c :: c in cs <==> c == cs[0] || c in cs[1..];
      SetIdsMean(cs[0].sets, id);
      assert ConstraintHas(cs[0], id) <==> id in {cs[0].id} + SetIds(cs[0].sets);
      ConstraintIdsMean(cs[1..], id);
    }
  }

  /** No element of the document has the id of an added constraint, and no two of these have the same. */
  lemma AddedIdsAreNew(cs: seq<Constraint>, otherIds: set<string>, key: nat, wishes: seq<Wish>, role: string)
    ensures var added := Added(otherIds + ConstraintIds(cs), key, wishes, role);
      && (forall a <- added :: a.id !in otherIds && forall c <- cs :: !ConstraintHas(c, a.id))
      && forall i, j | 0 <= i < j < |added| :: added[i].id != added[j].id
  {
    var added := Added(otherIds + ConstraintIds(cs), key, wishes, role);
    AddedIsFresh(otherIds + ConstraintIds(cs), key, wishes, role);
    forall a <- added ensures a.id !in otherIds && forall c <- cs :: !ConstraintHas(c, a.id) {
      var i :| 0 <= i < |added| && added[i] == a;
      ConstraintIdsMean(cs, a.id);
    }
  }

  predicate AnyConcerned(wishes: seq<Wish>) {
    wishes != [] && (Concerned(wishes[0]) || AnyConcerned(wishes[1..]))
  }

  lemma {:induction false} AnyConcernedMeans(wishes: seq<Wish>)
    ensures AnyConcerned(wishes) <==> exists w <- wishes :: w.startOnNode.Some? || w.promoteOnNode.Some?
  {
    if wishes != [] {
      assert forall w :: w in wishes <==> w == wishes[0] || w in wishes[1..];
      AnyConcernedMeans(wishes[1..]);
    }
  }

  /** The constraints when a run is over. */
  function AfterRun(cs: seq<Constraint>, wishes: seq<Wish>): seq<Constraint> {
    if AnyConcerned(wishes) then Clear(cs) else cs
  }

  /** Temporary constraints of an earlier run stay exactly if this one has nothing to move. */
  lemma RunClearsExactly(cs: seq<Constraint>, wishes: seq<Wish>)
    ensures (forall c <- AfterRun(cs, wishes) :: !IsTemporary(c)) <==>
      AnyConcerned(wishes) || forall c <- cs :: !IsTemporary(c)
  {
    ClearKeeps(cs);
  }

  /** So a single one survives the runs that have nothing to move, such as one without any wishes. */
  lemma EarlierRunStays(c: Constraint, wishes: seq<Wish>)
    requires IsTemporary(c)
    ensures AfterRun([c], []) == [c]
    ensures AfterRun([c], wishes) == [c] <==> !AnyConcerned(wishes)
  {
    assert Clear([c]) == [] + Clear([]);
  }

  class Cib {
    var constraints: seq<Constraint>
    /** Ids in use outside the constraints section. */
    const otherIds: set<string>
    var nextKey: nat

    constructor (constraints: seq<Constraint>, otherIds: set<string>, nextKey: nat)
      ensures this.constraints == constraints && this.otherIds == otherIds && this.nextKey == nextKey
    {
      this.constraints, this.otherIds, this.nextKey := constraints, otherIds, nextKey;
    }

    function Taken(): set<string>
      reads this
    {
      otherIds + ConstraintIds(constraints)
    }

    method AddLocation(w: Wish, role: string)
      modifies this
      ensures constraints == old(constraints + [NewConstraint(nextKey, NewId(Taken(), w), w, role)])
      ensures Taken() == old(Taken() + {NewId(Taken(), w)}) && nextKey == old(nextKey) + 1
    {
      var c := NewConstraint(nextKey, NewId(Taken(), w), w, role);
      IdsAppend(constraints, [c]);
      assert ConstraintIds([c]) == {c.id} by {
        assert ConstraintIds([c][1..]) == {};
      }
      constraints := constraints + [c];
      nextKey := nextKey + 1;
    }

    method AddLocations(wishes: seq<Wish>, role: string) returns (anythingChanged: bool)
      modifies this
      ensures constraints == old(constraints + Added(Taken(), nextKey, wishes, role))
      ensures anythingChanged <==> AnyConcerned(wishes)
    {
      anythingChanged := false;
      ghost var whole := constraints + Added(Taken(), nextKey, wishes, role);
      assert wishes[0..] == wishes;
      for i := 0 to |wishes|
        invariant constraints + Added(Taken(), nextKey, wishes[i..], role) == whole
        invariant AnyConcerned(wishes) <==> anythingChanged || AnyConcerned(wishes[i..])
      {
        assert wishes[i..][1..] == wishes[i + 1..];
        if !Concerned(wishes[i]) {
          continue;
        }
        anythingChanged := true;
        ghost var c := NewConstraint(nextKey, NewId(Taken(), wishes[i]), wishes[i], role);
        ConcatAssociates(constraints, [c], Added(Taken() + {c.id}, nextKey + 1, wishes[i + 1..], role));
        AddLocation(wishes[i], role);
      }
      assert constraints + [] == constraints;
    }

    method ResourceRelocateClear()
      modifies this`constraints
      ensures constraints == Clear(old(constraints))
    {
      var snapshot := constraints;
      var kept: seq<Constraint> := [];
      assert snapshot[0..] == snapshot;
      for i := 0 to |snapshot|
        invariant kept + Clear(snapshot[i..]) == Clear(snapshot)
      {
        assert snapshot[i..][1..] == snapshot[i + 1..];
        var here := if IsTemporary(snapshot[i]) then [] else [snapshot[i]];
        ConcatAssociates(kept, here, Clear(snapshot[i + 1..]));
        kept := kept + here;
      }
      assert kept + [] == kept;
      constraints := kept;
    }

    /** `pushed` are the constraints sections sent to the cluster, in order. */
    method ResourceRelocateRun(wishes: seq<Wish>, role: string, dry: bool) returns (pushed: seq<seq<Constraint>>)
      modifies this
      ensures constraints == AfterRun(old(constraints), wishes)
      ensures pushed == if dry || !AnyConcerned(wishes) then []
        else [old(constraints + Added(Taken(), nextKey, wishes, role)), Clear(old(constraints))]
    {
      AddThenClear(constraints, Taken(), nextKey, wishes, role);
      NothingAdded(constraints, Taken(), nextKey, wishes, role);
      var anythingChanged := AddLocations(wishes, role);
      pushed := [];
      if !anythingChanged {
        return;
      }
      if !dry {
        pushed := pushed + [constraints];
      }
      ResourceRelocateClear();
      if !dry {
        pushed := pushed + [constraints];
      }
    }
  }

  lemma {:induction false} NothingAdded(
      cs: seq<Constraint>, taken: set<string>, key: nat, wishes: seq<Wish>, role: string)
    ensures !AnyConcerned(wishes) ==> cs + Added(taken, key, wishes, role) == cs
  {
    if wishes != [] && !Concerned(wishes[0]) {
      NothingAdded(cs, taken, key, wishes[1..], role);
    }
  }
}
