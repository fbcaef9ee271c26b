/** `resource_clone`: an element moves into a new clone, and constraints that name it come to name the clone. */
module Cloning {
  import opened Sequences
  import opened Ids
  import opened Constraints
  import opened ResourceTree
  import opened GroupRemoval

  datatype CloneOutcome =
    | Created(cloneId: string)
    | NotFound
    | InBundle
    | AlreadyCloned
    | Incompatible
    | InvalidId
    | IdExists

  /** `explicit` is the id asked for, `valid` whether it may be an id, `compatible` the library's other checks. */
  datatype Request = Request(name: string, explicit: Option<string>, valid: bool, compatible: bool)

  // ----- ids -----------------------------------------------------------------

  function PrimitiveIds(ps: seq<Primitive>): set<string> {
    if ps == [] then {} else {ps[0].id} + ps[0].inner + PrimitiveIds(ps[1..])
  }

  function ItemIds(x: Item): set<string> {
    (if x.Group? then {x.id} + x.inner else {}) + PrimitiveIds(Members(x))
  }

  function ItemsIds(xs: seq<Item>): set<string> {
    if xs == [] then {} else ItemIds(xs[0]) + ItemsIds(xs[1..])
  }

  /** All ids in the section. */
  function ResourceIds(rs: seq<Resource>): set<string> {
    if rs == [] then {}
    else (if rs[0].Plain? then {} else {rs[0].id}) + ItemsIds(Items(rs[0])) + ResourceIds(rs[1..])
  }

  // ----- what is cloned ------------------------------------------------------

  /** `dom_get_resource(name) or dom_get_group(name)` */
  function QueryFor(rs: seq<Resource>, name: string): Query {
    if ResourcePlace(rs, PrimitiveNamed(name)) < |rs| then PrimitiveNamed(name) else GroupNamed(name)
  }

  function PlaceOf(rs: seq<Resource>, name: string): (i: nat)
    ensures i <= |rs|
  {
    ResourcePlace(rs, QueryFor(rs, name))
  }

  predicate InAClone(rs: seq<Resource>, name: string) {
    exists r <- rs :: r.Clone? && (FoundIn(r.children, PrimitiveNamed(name)) || FoundIn(r.children, GroupNamed(name)))
  }

  /** Resource `i` is the element, or a group with the element in it, and stands in the section itself. */
  predicate CanClone(rs: seq<Resource>, name: string) {
    var i := PlaceOf(rs, name);
    i < |rs| && !rs[i].Bundle? && !InAClone(rs, name)
  }

  lemma CloneablesArePlain(rs: seq<Resource>, name: string)
    requires CanClone(rs, name)
    ensures var (i, q) := (PlaceOf(rs, name), QueryFor(rs, name));
      rs[i].Plain? && Found(rs[i].item, q)
  {
    var i := PlaceOf(rs, name);
    assert rs[i] in rs && FoundIn(Items(rs[i]), QueryFor(rs, name));
  }

  function Holder(rs: seq<Resource>, name: string): (x: Item)
    requires CanClone(rs, name)
    ensures Found(x, QueryFor(rs, name))
  {
    CloneablesArePlain(rs, name);
    rs[PlaceOf(rs, name)].item
  }

  /** Where the holder is, spelled out. */
  lemma HolderParts(rs: seq<Resource>, name: string)
    requires CanClone(rs, name)
    ensures var (i, q) := (PlaceOf(rs, name), QueryFor(rs, name));
      && i < |rs| && rs[i].Plain? && Found(rs[i].item, q)
      && var x := rs[i].item;
      && TheElement(rs, name) == (if q.PrimitiveNamed? then Single(Find(Members(x), name)) else x)
      && (Dissolved(rs, name) <==> q.PrimitiveNamed? && x.Group? && |x.members| <= 1)
      && (Dissolved(rs, name) ==> Remainder(rs, name) == rs[..i] + rs[i + 1..])
  {
    CloneablesArePlain(rs, name);
  }

  function TheElement(rs: seq<Resource>, name: string): Item
    requires CanClone(rs, name)
  {
    var x := Holder(rs, name);
    if QueryFor(rs, name).PrimitiveNamed? then Single(Find(Members(x), name)) else x
  }

  predicate InAGroup(rs: seq<Resource>, name: string)
    requires CanClone(rs, name)
  {
    QueryFor(rs, name).PrimitiveNamed? && Holder(rs, name).Group?
  }

  /** The last member takes its group out of the document. */
  predicate Dissolved(rs: seq<Resource>, name: string)
    requires CanClone(rs, name)
  {
    InAGroup(rs, name) && |Holder(rs, name).members| <= 1
  }

  /** What stays at the place of the element. */
  function Stays(rs: seq<Resource>, name: string): seq<Resource>
    requires CanClone(rs, name)
  {
    var x := Holder(rs, name);
    if InAGroup(rs, name) && |x.members| > 1 then [Plain(Group(x.id, x.inner, WithoutId(x.members, name)))] else []
  }

  function Remainder(rs: seq<Resource>, name: string): seq<Resource>
    requires CanClone(rs, name)
  {
    var i := PlaceOf(rs, name);
    rs[..i] + Stays(rs, name) + rs[i + 1..]
  }

  /** Ids in use when the new one is chosen: a dissolved group and its member are out of the document by then. */
  function InUse(rs: seq<Resource>, elsewhere: set<string>, name: string): set<string>
    requires CanClone(rs, name)
  {
    elsewhere + ResourceIds(if Dissolved(rs, name) then Remainder(rs, name) else rs)
  }

  function ChosenId(taken: set<string>, r: Request): CloneOutcome {
    match r.explicit
    case Some(id) => if id == "" || !r.valid then InvalidId else if id in taken then IdExists else Created(id)
    case None => Created(FindUnique(taken, r.name + "-clone"))
  }

  function OutcomeOf(rs: seq<Resource>, elsewhere: set<string>, r: Request): CloneOutcome {
    var i := PlaceOf(rs, r.name);
    if i == |rs| then NotFound
    else if rs[i].Bundle? then InBundle
    else if InAClone(rs, r.name) then AlreadyCloned
    else if !r.compatible then Incompatible
    else ChosenId(InUse(rs, elsewhere, r.name), r)
  }

  function ClonedSection(rs: seq<Resource>, name: string, cloneId: string): seq<Resource>
    requires CanClone(rs, name)
  {
    Remainder(rs, name) + [Clone(cloneId, false, [TheElement(rs, name)])]
  }

  // ----- constraints ---------------------------------------------------------

  /** The id of the clone around the element of that name. */
  function ParentClone(rs: seq<Resource>, name: string): Option<string> {
    var i := PlaceOf(rs, name);
    if i < |rs| && rs[i].Clone? then Some(rs[i].id) else None
  }

  function Rename(attribute: string, oldId: string, newId: string): string {
    if attribute == oldId then newId else attribute
  }

  function Renamed(c: Constraint, oldId: string, newId: string): Constraint {
    if c.kind == Ticket then c
    else c.(rsc := Rename(c.rsc, oldId, newId), withRsc := Rename(c.withRsc, oldId, newId),
            first := Rename(c.first, oldId, newId), second := Rename(c.second, oldId, newId))
  }

  function RenamedAll(cs: seq<Constraint>, oldId: string, newId: string): (r: seq<Constraint>)
    ensures |r| == |cs| && forall k | 0 <= k < |cs| :: r[k] == Renamed(cs[k], oldId, newId)
  {
    seq(|cs|, k requires 0 <= k < |cs| => Renamed(cs[k], oldId, newId))
  }

  function Updated(rs: seq<Resource>, cs: seq<Constraint>, oldId: string): seq<Constraint> {
    match ParentClone(rs, oldId)
    case None => cs
    case Some(newId) => if newId == "" then cs else RenamedAll(cs, oldId, newId)
  }

  predicate Mentions(c: Constraint, id: string) {
    c.kind != Ticket && (c.rsc == id || c.withRsc == id || c.first == id || c.second == id)
  }

  predicate AnyMentions(cs: seq<Constraint>, id: string) {
    exists c <- cs :: Mentions(c, id)
  }

  // ----- names are unique ----------------------------------------------------

  lemma FoundIsNamed(xs: seq<Item>, q: Query)
    requires FoundIn(xs, q)
    ensures q.id in Names(xs)
  {
    if !Found(xs[0], q) {
      FoundIsNamed(xs[1..], q);
    }
  }

  lemma NamesAroundResource(before: seq<Resource>, r: Resource, after: seq<Resource>, id: string)
    requires Unique(Names(AllItems(before + [r] + after))) && id in Names(Items(r))
    ensures Unique(Names(Items(r))) && id !in Names(AllItems(before)) && id !in Names(AllItems(after))
  {
    AllItemsAround(before, r, after);
    NamesAppend(AllItems(before) + Items(r), AllItems(after));
    NamesAppend(AllItems(before), Items(r));
    UniqueParts(Names(AllItems(before)) + Names(Items(r)), Names(AllItems(after)));
    UniqueParts(Names(AllItems(before)), Names(Items(r)));
  }

  lemma AtIndex(rs: seq<Resource>, i: nat)
    requires i < |rs|
    ensures rs == rs[..i] + [rs[i]] + rs[i + 1..]
  {
  }

  /** No other resource has the name, and the holder has it once. */
  lemma HolderIsAlone(rs: seq<Resource>, name: string)
    requires CanClone(rs, name) && Unique(Names(AllItems(rs)))
    ensures var i := PlaceOf(rs, name);
      && name !in Names(AllItems(rs[..i])) && name !in Names(AllItems(rs[i + 1..]))
      && rs == rs[..i] + [Plain(Holder(rs, name))] + rs[i + 1..]
      && Unique(Names([Holder(rs, name)]))
  {
    var i, q := PlaceOf(rs, name), QueryFor(rs, name);
    CloneablesArePlain(rs, name);
    FoundIsNamed(Items(rs[i]), q);
    AtIndex(rs, i);
    NamesAroundResource(rs[..i], rs[i], rs[i + 1..], name);
  }

  lemma GroupIsApart(x: Item)
    requires Unique(Names([x]))
    ensures Apart(Members(x)) && (x.Group? ==> x.id !in IdsOf(x.members))
  {
    var here := if x.Group? then [x.id] else [];
    assert Names([x]) == here + IdsOf(Members(x)) + Names([]);
    assert here + IdsOf(Members(x)) + [] == here + IdsOf(Members(x));
    UniqueParts(here, IdsOf(Members(x)));
    UniqueIdsApart(Members(x));
  }

  // ----- main results --------------------------------------------------------

  lemma OneMemberLess(x: Item, name: string)
    requires x.Group? && Apart(x.members) && name in IdsOf(x.members)
    ensures var p := Find(x.members, name);
      multiset(WithoutId(x.members, name)) + multiset([p]) == multiset(x.members)
    ensures |WithoutId(x.members, name)| == |x.members| - 1
  {
    var p, left := Find(x.members, name), WithoutId(x.members, name);
    WithoutMember(x.members, p);
    assert p in multiset(x.members);
    assert multiset(left) + multiset{p} == multiset(x.members);
    assert |left| + 1 == |multiset(left) + multiset{p}| == |x.members|;
  }

  lemma StayingPrimitives(rs: seq<Resource>, name: string)
    requires CanClone(rs, name)
    ensures Primitives(AllItems(Stays(rs, name))) ==
      if InAGroup(rs, name) && |Holder(rs, name).members| > 1 then WithoutId(Holder(rs, name).members, name) else []
    ensures InAGroup(rs, name) ==> name in IdsOf(Holder(rs, name).members)
  {
    var x := Holder(rs, name);
    if InAGroup(rs, name) && |x.members| > 1 {
      AllItemsOfOne(Stays(rs, name)[0]);
      PrimitivesOfOne(Stays(rs, name)[0].item);
    }
  }

  /** What stays and the element are the holder's primitives. */
  lemma HolderSplits(rs: seq<Resource>, name: string)
    requires CanClone(rs, name) && Unique(Names(AllItems(rs)))
    ensures multiset(Primitives(AllItems(Stays(rs, name)))) + multiset(Members(TheElement(rs, name))) ==
      multiset(Members(Holder(rs, name)))
  {
    var x := Holder(rs, name);
    HolderIsAlone(rs, name);
    GroupIsApart(x);
    StayingPrimitives(rs, name);
    if InAGroup(rs, name) {
      OneMemberLess(x, name);
      assert |x.members| <= 1 ==> x.members == [Find(x.members, name)];
    }
  }

  lemma HolderKeepsShape(rs: seq<Resource>, name: string)
    requires CanClone(rs, name) && Unique(Names(AllItems(rs))) && NoEmptyGroups([Holder(rs, name)])
    ensures NoEmptyGroups(AllItems(Stays(rs, name))) && NoEmptyGroups([TheElement(rs, name)])
  {
    var x := Holder(rs, name);
    HolderIsAlone(rs, name);
    GroupIsApart(x);
    if InAGroup(rs, name) && |x.members| > 1 {
      StayingPrimitives(rs, name);
      OneMemberLess(x, name);
      AllItemsOfOne(Stays(rs, name)[0]);
    }
  }

  lemma ClonedPrimitives(a: seq<Resource>, stays: seq<Resource>, b: seq<Resource>, e: Item, cloneId: string)
    ensures multiset(Primitives(AllItems(a + stays + b + [Clone(cloneId, false, [e])]))) ==
      multiset(Primitives(AllItems(a))) + multiset(Primitives(AllItems(stays))) + multiset(Primitives(AllItems(b))) +
      multiset(Members(e))
  {
    PairPrimitives(a + stays + b, [Clone(cloneId, false, [e])]);
    PairPrimitives(a + stays, b);
    PairPrimitives(a, stays);
    AllItemsOfOne(Clone(cloneId, false, [e]));
    PrimitivesOfOne(e);
  }

  lemma PlainPrimitives(a: seq<Resource>, x: Item, b: seq<Resource>)
    ensures multiset(Primitives(AllItems(a + [Plain(x)] + b))) ==
      multiset(Primitives(AllItems(a))) + multiset(Members(x)) + multiset(Primitives(AllItems(b)))
  {
    PairPrimitives(a + [Plain(x)], b);
    PairPrimitives(a, [Plain(x)]);
    AllItemsOfOne(Plain(x));
    PrimitivesOfOne(x);
  }

  lemma SplitConserves(
      a: seq<Resource>, x: Item, stays: seq<Resource>, b: seq<Resource>, e: Item, cloneId: string)
    requires multiset(Primitives(AllItems(stays))) + multiset(Members(e)) == multiset(Members(x))
    ensures multiset(Primitives(AllItems(a + stays + b + [Clone(cloneId, false, [e])]))) ==
      multiset(Primitives(AllItems(a + [Plain(x)] + b)))
  {
    PlainPrimitives(a, x, b);
    ClonedPrimitives(a, stays, b, e, cloneId);
  }

  /** Cloning loses no primitive and makes none. */
  lemma CloneConserves(rs: seq<Resource>, name: string, cloneId: string)
    requires CanClone(rs, name) && Unique(Names(AllItems(rs)))
    ensures multiset(Primitives(AllItems(ClonedSection(rs, name, cloneId)))) == multiset(Primitives(AllItems(rs)))
  {
    var i, x := PlaceOf(rs, name), Holder(rs, name);
    HolderIsAlone(rs, name);
    HolderSplits(rs, name);
    SplitConserves(rs[..i], x, Stays(rs, name), rs[i + 1..], TheElement(rs, name), cloneId);
  }

  lemma PrimitivesOfOne(x: Item)
    ensures Primitives([x]) == Members(x)
  {
    assert Primitives([x]) == Members(x) + Primitives([]);
  }

  lemma CloneKeepsShape(rs: seq<Resource>, name: string, cloneId: string)
    requires CanClone(rs, name) && Unique(Names(AllItems(rs))) && NoEmptyGroups(AllItems(rs)) && OneChildEach(rs)
    ensures NoEmptyGroups(AllItems(ClonedSection(rs, name, cloneId))) && OneChildEach(ClonedSection(rs, name, cloneId))
  {
    var i, x := PlaceOf(rs, name), Holder(rs, name);
    var a, b, stays, e := rs[..i], rs[i + 1..], Stays(rs, name), TheElement(rs, name);
    HolderIsAlone(rs, name);
    NoEmptyGroupsPair(a + [Plain(x)], b);
    NoEmptyGroupsPair(a, [Plain(x)]);
    AllItemsOfOne(Plain(x));
    HolderKeepsShape(rs, name);
    NoEmptyGroupsPair(a, stays);
    NoEmptyGroupsPair(a + stays, b);
    NoEmptyGroupsPair(Remainder(rs, name), [Clone(cloneId, false, [e])]);
    AllItemsOfOne(Clone(cloneId, false, [e]));
  }

  lemma NoEmptyGroupsPair(a: seq<Resource>, b: seq<Resource>)
    ensures NoEmptyGroups(AllItems(a + b)) <==> NoEmptyGroups(AllItems(a)) && NoEmptyGroups(AllItems(b))
  {
    AllItemsAppend(a, b);
    NoEmptyGroupsAppend(AllItems(a), AllItems(b));
  }

  lemma {:induction false} WithoutLacks(ps: seq<Primitive>, id: string)
    ensures id !in IdsOf(WithoutId(ps, id))
    ensures forall p <- WithoutId(ps, id) :: p in ps
  {
    if ps != [] {
      WithoutLacks(ps[1..], id);
      var rest := WithoutId(ps[1..], id);
      if ps[0].id != id {
        IdsCons(ps[0], rest);
      }
    }
  }

  lemma StaysUnnamed(rs: seq<Resource>, name: string)
    requires CanClone(rs, name) && Unique(Names(AllItems(rs)))
    ensures name !in Names(AllItems(Stays(rs, name)))
  {
    var x := Holder(rs, name);
    HolderIsAlone(rs, name);
    GroupIsApart(x);
    if InAGroup(rs, name) && |x.members| > 1 {
      var left := Stays(rs, name)[0].item;
      AllItemsOfOne(Plain(left));
      NamesOfGroup(left);
      WithoutLacks(x.members, name);
    }
  }

  lemma RemainderUnnamed(rs: seq<Resource>, name: string)
    requires CanClone(rs, name) && Unique(Names(AllItems(rs)))
    ensures name !in Names(AllItems(Remainder(rs, name)))
  {
    var i := PlaceOf(rs, name);
    var a, b, stays := rs[..i], rs[i + 1..], Stays(rs, name);
    HolderIsAlone(rs, name);
    StaysUnnamed(rs, name);
    AllItemsAppend(a + stays, b);
    AllItemsAppend(a, stays);
    NamesAppend(AllItems(a) + AllItems(stays), AllItems(b));
    NamesAppend(AllItems(a), AllItems(stays));
  }

  lemma {:induction false} PlaceAtEnd(rs: seq<Resource>, r: Resource, q: Query)
    requires q.id !in Names(AllItems(rs))
    ensures ResourcePlace(rs + [r], q) == if FoundIn(Items(r), q) then |rs| else |rs| + 1
  {
    if rs == [] {
      assert rs + [r] == [r];
    } else {
      assert (rs + [r])[1..] == rs[1..] + [r];
      NamesAppend(Items(rs[0]), AllItems(rs[1..]));
      if FoundIn(Items(rs[0]), q) {
        FoundIsNamed(Items(rs[0]), q);
      }
      PlaceAtEnd(rs[1..], r, q);
    }
  }

  /** The element is what the lookup finds, and a group is looked for only where there is no such primitive. */
  lemma ElementFound(rs: seq<Resource>, name: string)
    requires CanClone(rs, name)
    ensures var e := TheElement(rs, name);
      if QueryFor(rs, name).PrimitiveNamed? then FoundIn([e], PrimitiveNamed(name))
      else !FoundIn([e], PrimitiveNamed(name)) && FoundIn([e], GroupNamed(name))
  {
    var e, i := TheElement(rs, name), PlaceOf(rs, name);
    CloneablesArePlain(rs, name);
    assert e in [e];
    if QueryFor(rs, name).PrimitiveNamed? {
      IdOfMember([e.p], e.p);
      assert Found(e, PrimitiveNamed(name));
    } else {
      assert !FoundIn(Items(rs[i]), PrimitiveNamed(name)) && e in Items(rs[i]);
      assert Found(e, GroupNamed(name));
    }
  }

  lemma ParentAtEnd(rs: seq<Resource>, r: Resource, name: string)
    requires name !in Names(AllItems(rs)) && r.Clone?
    requires FoundIn(r.children, PrimitiveNamed(name)) || FoundIn(r.children, GroupNamed(name))
    ensures ParentClone(rs + [r], name) == Some(r.id)
  {
    PlaceAtEnd(rs, r, PrimitiveNamed(name));
    PlaceAtEnd(rs, r, GroupNamed(name));
  }

  /** The clone is found as the parent of what it was made for. */
  lemma CloneIsParent(rs: seq<Resource>, name: string, cloneId: string)
    requires CanClone(rs, name) && Unique(Names(AllItems(rs)))
    ensures ParentClone(ClonedSection(rs, name, cloneId), name) == Some(cloneId)
  {
    RemainderUnnamed(rs, name);
    ElementFound(rs, name);
    ParentAtEnd(Remainder(rs, name), Clone(cloneId, false, [TheElement(rs, name)]), name);
  }

  // ----- the new id ----------------------------------------------------------

  lemma {:induction false} PrimitiveIdsOfMember(ps: seq<Primitive>, p: Primitive)
    requires p in ps
    ensures {p.id} + p.inner <= PrimitiveIds(ps)
  {
    if p != ps[0] {
      PrimitiveIdsOfMember(ps[1..], p);
    }
  }

  lemma {:induction false} PrimitiveIdsWithout(ps: seq<Primitive>, id: string)
    ensures PrimitiveIds(WithoutId(ps, id)) <= PrimitiveIds(ps)
  {
    if ps != [] {
      PrimitiveIdsWithout(ps[1..], id);
      var rest := WithoutId(ps[1..], id);
      assert ([ps[0]] + rest)[1..] == rest && [] + rest == rest;
    }
  }

  lemma {:induction false} ResourceIdsAppend(a: seq<Resource>, b: seq<Resource>)
    ensures ResourceIds(a + b) == ResourceIds(a) + ResourceIds(b)
  {
    if a == [] {
      assert a + b == b;
    } else {
      assert (a + b)[1..] == a[1..] + b;
      ResourceIdsAppend(a[1..], b);
    }
  }

  lemma ResourceIdsOfPlain(x: Item)
    ensures ResourceIds([Plain(x)]) == ItemIds(x)
  {
    assert ItemsIds([x]) == ItemIds(x) + ItemsIds([]);
    assert ResourceIds([Plain(x)]) == {} + ItemsIds([x]) + ResourceIds([]);
  }

  /** Ids of the element and of what stays are ids of the holder. */
  lemma HolderIds(rs: seq<Resource>, name: string)
    requires CanClone(rs, name)
    ensures ItemIds(TheElement(rs, name)) <= ItemIds(Holder(rs, name))
    ensures ResourceIds(Stays(rs, name)) <= ItemIds(Holder(rs, name))
  {
    var x := Holder(rs, name);
    if QueryFor(rs, name).PrimitiveNamed? {
      var p := Find(Members(x), name);
      PrimitiveIdsOfMember(Members(x), p);
      assert PrimitiveIds([p]) == {p.id} + p.inner + PrimitiveIds([]);
    }
    if InAGroup(rs, name) && |x.members| > 1 {
      ResourceIdsOfPlain(Stays(rs, name)[0].item);
      PrimitiveIdsWithout(x.members, name);
    }
  }

  lemma IdsOfSection(rs: seq<Resource>, name: string)
    requires CanClone(rs, name)
    ensures ResourceIds(rs) == ResourceIds(Remainder(rs, name)) + ItemIds(Holder(rs, name))
  {
    var i, x := PlaceOf(rs, name), Holder(rs, name);
    CloneablesArePlain(rs, name);
    AtIndex(rs, i);
    ResourceIdsAppend(rs[..i] + [Plain(x)], rs[i + 1..]);
    ResourceIdsAppend(rs[..i], [Plain(x)]);
    ResourceIdsOfPlain(x);
    ResourceIdsAppend(rs[..i] + Stays(rs, name), rs[i + 1..]);
    ResourceIdsAppend(rs[..i], Stays(rs, name));
    HolderIds(rs, name);
  }

  lemma CreatedIsUnused(rs: seq<Resource>, elsewhere: set<string>, r: Request)
    requires OutcomeOf(rs, elsewhere, r).Created?
    ensures var id := OutcomeOf(rs, elsewhere, r).cloneId;
      CanClone(rs, r.name) && id != "" && id !in InUse(rs, elsewhere, r.name) &&
      (r.explicit == None ==> id != r.name)
  {
    if r.explicit == None {
      FindUniqueIsFree(InUse(rs, elsewhere, r.name), r.name + "-clone");
    }
  }

  /**
   * The new id is in use nowhere else afterwards. It was in use before exactly if it is an id of the last member or
   * of the group that it takes out of the document; it is the old name only if that was asked for.
   */
  lemma CloneIdIsFresh(rs: seq<Resource>, elsewhere: set<string>, r: Request)
    requires OutcomeOf(rs, elsewhere, r).Created?
    ensures CanClone(rs, r.name)
    ensures var id := OutcomeOf(rs, elsewhere, r).cloneId;
      && id !in elsewhere && id !in ResourceIds(Remainder(rs, r.name))
      && (id in ResourceIds(rs) <==> Dissolved(rs, r.name) && id in ItemIds(Holder(rs, r.name)))
      && (id == r.name <==> r.explicit == Some(r.name))
      && (id == r.name ==> Dissolved(rs, r.name))
  {
    CreatedIsUnused(rs, elsewhere, r);
    IdsOfSection(rs, r.name);
    HolderIds(rs, r.name);
    ElementHasName(rs, r.name);
  }

  lemma ElementHasName(rs: seq<Resource>, name: string)
    requires CanClone(rs, name)
    ensures name in ItemIds(TheElement(rs, name))
  {
    var e := TheElement(rs, name);
    if e.Single? {
      PrimitiveIdsOfMember([e.p], e.p);
    }
  }

  // ----- constraints ---------------------------------------------------------

  lemma RenamingOne(c: Constraint, oldId: string, newId: string, id: string)
    ensures Mentions(Renamed(c, oldId, newId), id) <==>
      (id != oldId && Mentions(c, id)) || (id == newId && Mentions(c, oldId))
  {
  }

  /** Attribute by attribute: the old id gives way to the new one, in all but tickets, and nothing else changes. */
  lemma RenamedMeans(cs: seq<Constraint>, oldId: string, newId: string, k: nat)
    requires k < |cs|
    ensures |RenamedAll(cs, oldId, newId)| == |cs|
    ensures var (before, after) := (cs[k], RenamedAll(cs, oldId, newId)[k]);
      && (before.kind == Ticket ==> after == before)
      && (before.kind != Ticket ==>
            && after.rsc == (if before.rsc == oldId then newId else before.rsc)
            && after.withRsc == (if before.withRsc == oldId then newId else before.withRsc)
            && after.first == (if before.first == oldId then newId else before.first)
            && after.second == (if before.second == oldId then newId else before.second))
      && after == before.(rsc := after.rsc, withRsc := after.withRsc, first := after.first, second := after.second)
  {
  }

  /** Which ids constraints other than tickets name afterwards. */
  lemma RenamingMoves(cs: seq<Constraint>, oldId: string, newId: string, id: string)
    ensures AnyMentions(RenamedAll(cs, oldId, newId), id) <==>
      (id != oldId && AnyMentions(cs, id)) || (id == newId && AnyMentions(cs, oldId))
  {
    var after := RenamedAll(cs, oldId, newId);
    forall k | 0 <= k < |cs|
      ensures after[k] in after && cs[k] in cs
      ensures Mentions(after[k], id) <==>
        (id != oldId && Mentions(cs[k], id)) || (id == newId && Mentions(cs[k], oldId))
    {
      RenamingOne(cs[k], oldId, newId, id);
    }
    AnyMentionsAt(cs, id);
    AnyMentionsAt(cs, oldId);
    AnyMentionsAt(after, id);
  }

  lemma AnyMentionsAt(cs: seq<Constraint>, id: string)
    ensures AnyMentions(cs, id) <==> exists k | 0 <= k < |cs| :: Mentions(cs[k], id)
  {
    if c :| c in cs && Mentions(c, id) {
      var k :| 0 <= k < |cs| && cs[k] == c;
    }
  }

  /** Everything but the four attributes is as it was, and so are all four if none is the old id. */
  lemma RenamingKeepsRest(c: Constraint, oldId: string, newId: string)
    ensures var d := Renamed(c, oldId, newId);
      d.key == c.key && d.kind == c.kind && d.id == c.id && d.others == c.others && d.sets == c.sets
    ensures newId != oldId ==> (Renamed(c, oldId, newId) == c <==> !Mentions(c, oldId))
  {
  }

  /**
   * The command as a whole: a constraint still names the element by its id exactly if that id was asked for as the
   * clone's, and a constraint named it before.
   */
  lemma CloningMovesConstraints(rs: seq<Resource>, elsewhere: set<string>, r: Request, cs: seq<Constraint>)
    requires Unique(Names(AllItems(rs))) && OutcomeOf(rs, elsewhere, r).Created?
    ensures CanClone(rs, r.name)
    ensures var id := OutcomeOf(rs, elsewhere, r).cloneId;
      var after := Updated(ClonedSection(rs, r.name, id), cs, r.name);
      && after == RenamedAll(cs, r.name, id)
      && (AnyMentions(after, r.name) <==> r.explicit == Some(r.name) && AnyMentions(cs, r.name))
  {
    CloneIdIsFresh(rs, elsewhere, r);
    CreatedIsUnused(rs, elsewhere, r);
    var id := OutcomeOf(rs, elsewhere, r).cloneId;
    CloneIsParent(rs, r.name, id);
    RenamingMoves(cs, r.name, id, r.name);
  }

  // ----- the group that goes -------------------------------------------------

  lemma HolderTimes(rs: seq<Resource>, name: string, n: string)
    requires CanClone(rs, name) && Apart(Members(Holder(rs, name)))
    ensures Times(Names([Holder(rs, name)]), n) ==
      TimesIn(Stays(rs, name), n) + Times(Names([TheElement(rs, name)]), n) +
      if Dissolved(rs, name) && Holder(rs, name).id == n then 1 else 0
  {
    var x, e := Holder(rs, name), TheElement(rs, name);
    assert AllItems([]) == [] && Names([]) == [];
    if InAGroup(rs, name) {
      assert name in IdsOf(x.members);
      GroupLosesOne(x, name, n);
      NamesOfSingle(e.p);
      if |x.members| > 1 {
        AllItemsOfOne(Stays(rs, name)[0]);
        GroupTimes(Stays(rs, name)[0].item, n);
      } else {
        assert WithoutId(x.members, name) == [] by { OneMemberLess(x, name); }
      }
    }
  }

  lemma NamesOfSingle(p: Primitive)
    ensures Names([Single(p)]) == [p.id] && IdsOf([p]) == [p.id]
  {
    assert Names([Single(p)]) == [] + IdsOf([p]) + Names([]);
  }

  lemma GroupLosesOne(x: Item, name: string, n: string)
    requires x.Group? && Apart(x.members) && name in IdsOf(x.members)
    ensures Times(Names([x]), n) ==
      (if x.id == n then 1 else 0) + Times(IdsOf(WithoutId(x.members, name)), n) + Times([name], n)
  {
    var p, left := Find(x.members, name), WithoutId(x.members, name);
    OneMemberLess(x, name);
    GroupTimes(x, n);
    assert multiset(left + [p]) == multiset(x.members);
    SamePrimitivesSameIds(left + [p], x.members, n);
    IdsAppend(left, [p]);
    NamesOfSingle(p);
    TimesAppend(IdsOf(left), [p.id], n);
  }

  /** Every name occurs as often as before, that of a dissolved group once less. */
  lemma ClonedTimes(rs: seq<Resource>, name: string, cloneId: string, n: string)
    requires CanClone(rs, name) && Unique(Names(AllItems(rs)))
    ensures TimesIn(rs, n) ==
      TimesIn(ClonedSection(rs, name, cloneId), n) + if Dissolved(rs, name) && Holder(rs, name).id == n then 1 else 0
  {
    var i, x := PlaceOf(rs, name), Holder(rs, name);
    HolderIsAlone(rs, name);
    GroupIsApart(x);
    HolderTimes(rs, name, n);
    MiddleTimes(rs[..i], Plain(x), rs[i + 1..], n);
    RearrangedTimes(rs[..i], Stays(rs, name), rs[i + 1..], TheElement(rs, name), cloneId, n);
  }

  lemma RearrangedTimes(a: seq<Resource>, stays: seq<Resource>, b: seq<Resource>, e: Item, cloneId: string, n: string)
    ensures TimesIn(a + stays + b + [Clone(cloneId, false, [e])], n) ==
      TimesIn(a, n) + TimesIn(stays, n) + TimesIn(b, n) + Times(Names([e]), n)
  {
    PairTimes(a + stays + b, [Clone(cloneId, false, [e])], n);
    PairTimes(a + stays, b, n);
    PairTimes(a, stays, n);
    AllItemsOfOne(Clone(cloneId, false, [e]));
  }

  /** So ids stay unique for the next command. */
  lemma CloneKeepsUnique(rs: seq<Resource>, name: string, cloneId: string)
    requires CanClone(rs, name) && Unique(Names(AllItems(rs)))
    ensures Unique(Names(AllItems(ClonedSection(rs, name, cloneId))))
  {
    forall n ensures TimesIn(ClonedSection(rs, name, cloneId), n) <= TimesIn(rs, n) {
      ClonedTimes(rs, name, cloneId, n);
    }
    FewerAreUnique(rs, ClonedSection(rs, name, cloneId));
  }

  /**
   * Constraints that name a dissolved group keep naming it though it is gone; what they name then is nothing, or the
   * clone if that was given the group's id.
   */
  lemma DissolvedGroupStaysNamed(rs: seq<Resource>, elsewhere: set<string>, r: Request, cs: seq<Constraint>)
    requires Unique(Names(AllItems(rs))) && OutcomeOf(rs, elsewhere, r).Created?
    requires CanClone(rs, r.name) && Dissolved(rs, r.name)
    ensures var (id, g) := (OutcomeOf(rs, elsewhere, r).cloneId, Holder(rs, r.name).id);
      && g != r.name && g !in Names(AllItems(ClonedSection(rs, r.name, id)))
      && (AnyMentions(RenamedAll(cs, r.name, id), g) <==>
            AnyMentions(cs, g) || (id == g && AnyMentions(cs, r.name)))
  {
    var id, x := OutcomeOf(rs, elsewhere, r).cloneId, Holder(rs, r.name);
    HolderIsAlone(rs, r.name);
    GroupIsApart(x);
    ClonedTimes(rs, r.name, id, x.id);
    AtMostOnce(rs, x.id);
    RenamingMoves(cs, r.name, id, x.id);
  }

  lemma AtMostOnce(rs: seq<Resource>, n: string)
    requires Unique(Names(AllItems(rs)))
    ensures TimesIn(rs, n) <= 1
  {
    assert n in multiset(Names(AllItems(rs))) ==> n in Names(AllItems(rs));
  }

  /** The exception occurs: the only member of a group, cloned under its own name, is not in the document then. */
  lemma CloneMayTakeTheName(p: Primitive, cs: seq<Constraint>)
    requires p.id != "" && p.id != "g"
    ensures var (rs, r) := ([Plain(Group("g", {}, [p]))], Request(p.id, Some(p.id), true, true));
      && OutcomeOf(rs, {}, r) == Created(p.id)
      && ClonedSection(rs, p.id, p.id) == [Clone(p.id, false, [Single(p)])]
      && RenamedAll(cs, p.id, p.id) == cs
  {
    OnlyMember("g", p);
  }

  lemma OnlyMember(g: string, p: Primitive)
    requires g != p.id
    ensures var rs := [Plain(Group(g, {}, [p]))];
      && CanClone(rs, p.id) && Dissolved(rs, p.id) && ResourceIds(Remainder(rs, p.id)) == {}
      && Remainder(rs, p.id) == [] && TheElement(rs, p.id) == Single(p)
  {
    var x := Group(g, {}, [p]);
    var rs := [Plain(x)];
    NamesOfSingle(p);
    assert Found(x, PrimitiveNamed(p.id)) && x in Items(rs[0]);
    assert PlaceOf(rs, p.id) == 0 && !InAClone(rs, p.id);
    assert rs[..0] == [] && rs[1..] == [];
  }

  /**
   * Or it takes the id of the group: asked for, or by the name that is made up. A constraint that named the group
   * names the clone then, together with those that named the member.
   */
  lemma CloneMayTakeTheGroupsName(g: string, p: Primitive, cs: seq<Constraint>)
    requires g != "" && g != p.id && AnyMentions(cs, g)
    ensures var rs := [Plain(Group(g, {}, [p]))];
      && OutcomeOf(rs, {}, Request(p.id, Some(g), true, true)) == Created(g)
      && (g == p.id + "-clone" ==> OutcomeOf(rs, {}, Request(p.id, None, true, true)) == Created(g))
      && ClonedSection(rs, p.id, g) == [Clone(g, false, [Single(p)])]
      && AnyMentions(RenamedAll(cs, p.id, g), g)
  {
    OnlyMember(g, p);
    FindUniqueIsFree({}, p.id + "-clone");
    RenamingMoves(cs, p.id, g, g);
  }

  /** With any other id, constraints that named the group name nothing: the group has gone. */
  lemma CloneMayLeaveTheGroupNamed(g: string, id: string, p: Primitive, cs: seq<Constraint>)
    requires id != "" && g != id && g != p.id && AnyMentions(cs, g)
    ensures var rs := [Plain(Group(g, {}, [p]))];
      && OutcomeOf(rs, {}, Request(p.id, Some(id), true, true)) == Created(id)
      && ClonedSection(rs, p.id, id) == [Clone(id, false, [Single(p)])]
      && g !in Names(AllItems(ClonedSection(rs, p.id, id)))
      && AnyMentions(RenamedAll(cs, p.id, id), g)
  {
    OnlyMember(g, p);
    NamesOfSingle(p);
    AllItemsOfOne(Clone(id, false, [Single(p)]));
    RenamingMoves(cs, p.id, id, g);
  }

  // ----- in place ------------------------------------------------------------

  class Configuration {
    var resources: seq<Resource>
    var constraints: seq<Constraint>
    const elsewhere: set<string>

    constructor (resources: seq<Resource>, constraints: seq<Constraint>, elsewhere: set<string>)
      ensures this.resources == resources && this.constraints == constraints && this.elsewhere == elsewhere
    {
      this.resources, this.constraints, this.elsewhere := resources, constraints, elsewhere;
    }

    /** `resource_clone_create`, up to the meta attributes. What it changed before an error is never pushed. */
    method ResourceCloneCreate(r: Request) returns (outcome: CloneOutcome)
      requires Unique(Names(AllItems(resources)))
      modifies this`resources
      ensures outcome == OutcomeOf(old(resources), elsewhere, r)
      ensures outcome.Created? ==>
        CanClone(old(resources), r.name) &&
        resources == ClonedSection(old(resources), r.name, outcome.cloneId) &&
        Unique(Names(AllItems(resources)))
    {
      var q, i, refusal := FindElement(r.name);
      if refusal.Some? {
        return refusal.value;
      }
      HolderParts(resources, r.name);
      var holder := resources[i].item;
      var element := if q.PrimitiveNamed? then Single(Find(Members(holder), r.name)) else holder;
      var dissolved := q.PrimitiveNamed? && holder.Group? && |holder.members| <= 1;
      outcome := CloneElement(r, q, i, element, dissolved);
      if outcome.Created? {
        CloneKeepsUnique(old(resources), r.name, outcome.cloneId);
      }
    }

    /** What follows the lookup: a group that is to go is taken out first, other places are left at the end. */
    method CloneElement(r: Request, q: Query, i: nat, element: Item, dissolved: bool) returns (outcome: CloneOutcome)
      requires CanClone(resources, r.name) && Unique(Names(AllItems(resources)))
      requires q == QueryFor(resources, r.name) && i == PlaceOf(resources, r.name)
      requires element == TheElement(resources, r.name) && dissolved == Dissolved(resources, r.name)
      modifies this`resources
      ensures outcome ==
        if r.compatible then ChosenId(InUse(old(resources), elsewhere, r.name), r) else Incompatible
      ensures outcome.Created? ==> resources == ClonedSection(old(resources), r.name, outcome.cloneId)
    {
      assert i < |resources| && (dissolved ==> Remainder(resources, r.name) == resources[..i] + resources[i + 1..]) by {
        HolderParts(resources, r.name);
      }
      if dissolved {
        resources := resources[..i] + resources[i + 1..];
      }
      if !r.compatible {
        return Incompatible;
      }
      outcome := ChooseId(r);
      if !outcome.Created? {
        return;
      }
      if !dissolved {
        DetachElement(r.name, q, i);
      }
      resources := resources + [Clone(outcome.cloneId, false, [element])];
    }

    /** The lookup and the first three checks. */
    method FindElement(name: string) returns (q: Query, i: nat, refusal: Option<CloneOutcome>)
      ensures q == QueryFor(resources, name) && i == PlaceOf(resources, name)
      ensures refusal.None? <==> CanClone(resources, name)
      ensures refusal == Some(NotFound) <==> i == |resources|
      ensures refusal == Some(InBundle) <==> i < |resources| && resources[i].Bundle?
      ensures refusal.None? || refusal.value in {NotFound, InBundle, AlreadyCloned}
    {
      q := QueryFor(resources, name);
      i := ResourcePlace(resources, q);
      refusal :=
        if i == |resources| then Some(NotFound)
        else if resources[i].Bundle? then Some(InBundle)
        else if InAClone(resources, name) then Some(AlreadyCloned)
        else None;
    }

    method DetachElement(name: string, q: Query, i: nat)
      requires CanClone(resources, name) && Unique(Names(AllItems(resources))) && !Dissolved(resources, name)
      requires q == QueryFor(resources, name) && i == PlaceOf(resources, name)
      modifies this`resources
      ensures resources == Remainder(old(resources), name)
    {
      DetachIsRemainder(resources, name);
      resources := if q.PrimitiveNamed? then Detach(resources, name) else resources[..i] + resources[i + 1..];
    }

    method ChooseId(r: Request) returns (outcome: CloneOutcome)
      ensures outcome == ChosenId(elsewhere + ResourceIds(resources), r)
    {
      var taken := elsewhere + ResourceIds(resources);
      if r.explicit.Some? {
        var cloneId := r.explicit.value;
        if cloneId == "" || !r.valid {
          return InvalidId;
        }
        if cloneId in taken {
          return IdExists;
        }
        return Created(cloneId);
      }
      outcome := Created(FindUnique(taken, r.name + "-clone"));
    }

    /** `constraint_resource_update`: constraints of three kinds, four attributes each. */
    method ConstraintResourceUpdate(oldId: string)
      modifies this`constraints
      ensures constraints == Updated(resources, old(constraints), oldId)
    {
      var parent := ParentClone(resources, oldId);
      if parent.None? || parent.value == "" {
        return;
      }
      for k := 0 to |constraints|
        invariant |constraints| == |old(constraints)|
        invariant forall m | 0 <= m < k :: constraints[m] == Renamed(old(constraints)[m], oldId, parent.value)
        invariant forall m | k <= m < |constraints| :: constraints[m] == old(constraints)[m]
      {
        if constraints[k].kind != Ticket {
          UpdateAttributes(k, oldId, parent.value);
        }
      }
    }

    method UpdateAttributes(k: nat, oldId: string, newId: string)
      requires k < |constraints| && constraints[k].kind != Ticket
      modifies this`constraints
      ensures constraints == old(constraints)[k := Renamed(old(constraints)[k], oldId, newId)]
    {
      var c := constraints[k];
      if c.rsc == oldId { c := c.(rsc := newId); }
      if c.first == oldId { c := c.(first := newId); }
      if c.second == oldId { c := c.(second := newId); }
      if c.withRsc == oldId { c := c.(withRsc := newId); }
      constraints := constraints[k := c];
    }

    method ResourceClone(r: Request) returns (outcome: CloneOutcome)
      requires Unique(Names(AllItems(resources)))
      modifies this
      ensures outcome == OutcomeOf(old(resources), elsewhere, r)
      ensures outcome.Created? ==>
        CanClone(old(resources), r.name) &&
        resources == ClonedSection(old(resources), r.name, outcome.cloneId) &&
        constraints == RenamedAll(old(constraints), r.name, outcome.cloneId)
    {
      outcome := ResourceCloneCreate(r);
      if outcome.Created? {
        CloningMovesConstraints(old(resources), elsewhere, r, constraints);
        ConstraintResourceUpdate(r.name);
      }
    }
  }

  lemma DetachHolder(x: Item, name: string)
    requires Unique(Names([x])) && name in IdsOf(Members(x))
    ensures DetachResource(Plain(x), name) ==
      if x.Group? then [Plain(Group(x.id, x.inner, WithoutId(x.members, name)))] else []
  {
    if x.Single? {
      NamesOfSingle(x.p);
    }
  }

  /** Removing the element from its parent leaves the others. */
  lemma DetachIsRemainder(rs: seq<Resource>, name: string)
    requires CanClone(rs, name) && Unique(Names(AllItems(rs))) && !Dissolved(rs, name)
    ensures var i := PlaceOf(rs, name);
      Remainder(rs, name) == if QueryFor(rs, name).PrimitiveNamed? then Detach(rs, name) else rs[..i] + rs[i + 1..]
  {
    var i, x := PlaceOf(rs, name), Holder(rs, name);
    HolderIsAlone(rs, name);
    if QueryFor(rs, name).PrimitiveNamed? {
      DetachMiddle(rs[..i], Plain(x), rs[i + 1..], name);
      DetachHolder(x, name);
    } else {
      assert rs[..i] + [] == rs[..i];
    }
  }
}
