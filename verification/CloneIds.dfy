/** Which ids are in use when something is cloned, and what becomes of the request: told element by element. */
module CloneIds {
  import opened Sequences
  import opened Ids
  import opened Constraints
  import opened ResourceTree
  import opened GroupRemoval
  import opened Cloning

  // ----- ids in the section --------------------------------------------------

  predicate PrimitiveHas(p: Primitive, id: string) {
    p.id == id || id in p.inner
  }

  predicate ItemHas(x: Item, id: string) {
    match x
    case Single(p) => PrimitiveHas(p, id)
    case Group(g, inner, members) => g == id || id in inner || exists p <- members :: PrimitiveHas(p, id)
  }

  /** An element of the resource, or the resource itself, has the id. */
  predicate ResourceHas(r: Resource, id: string) {
    match r
    case Plain(x) => ItemHas(x, id)
    case Clone(c, _, children) => c == id || exists x <- children :: ItemHas(x, id)
    case Bundle(b, primitives) => b == id || exists p <- primitives :: PrimitiveHas(p, id)
  }

  lemma {:induction false} PrimitiveIdsMean(ps: seq<Primitive>, id: string)
    ensures id in PrimitiveIds(ps) <==> exists p <- ps :: PrimitiveHas(p, id)
  {
    if ps != [] {
      assert forall p :: p in ps <==> p == ps[0] || p in ps[1..];
      assert PrimitiveHas(ps[0], id) <==> id in {ps[0].id} + ps[0].inner;
      PrimitiveIdsMean(ps[1..], id);
    }
  }

  lemma ItemIdsMean(x: Item, id: string)
    ensures id in ItemIds(x) <==> ItemHas(x, id)
  {
    PrimitiveIdsMean(Members(x), id);
    if x.Single? {
      assert x.p in Members(x);
    }
  }

  lemma {:induction false} ItemsIdsMean(xs: seq<Item>, id: string)
    ensures id in ItemsIds(xs) <==> exists x <- xs :: ItemHas(x, id)
  {
    if xs != [] {
      assert xs == [xs[0]] + xs[1..];
      ItemIdsMean(xs[0], id);
      ItemsIdsMean(xs[1..], id);
    }
  }

  lemma {:induction false} SinglesIds(ps: seq<Primitive>, id: string)
    ensures id in ItemsIds(Singles(ps)) <==> exists p <- ps :: PrimitiveHas(p, id)
  {
    var xs := Singles(ps);
    ItemsIdsMean(xs, id);
    if x :| x in xs && ItemHas(x, id) {
      var k :| 0 <= k < |xs| && xs[k] == x;
      assert ps[k] in ps;
    }
    if p :| p in ps && PrimitiveHas(p, id) {
      var k :| 0 <= k < |ps| && ps[k] == p;
      assert xs[k] in xs && ItemHas(xs[k], id);
    }
  }

  lemma OneResourceIds(r: Resource, id: string)
    ensures id in (if r.Plain? then {} else {r.id}) + ItemsIds(Items(r)) <==> ResourceHas(r, id)
  {
    match r
    case Plain(x) =>
      ItemsIdsMean([x], id);
      assert x in [x];
    case Clone(_, _, children) => ItemsIdsMean(children, id);
    case Bundle(_, primitives) => SinglesIds(primitives, id);
  }

  /** The ids in the section are those of clones, bundles, groups and primitives in it, and of what is inside them. */
  lemma {:induction false} ResourceIdsMean(rs: seq<Resource>, id: string)
    ensures id in ResourceIds(rs) <==> exists r <- rs :: ResourceHas(r, id)
  {
    if rs != [] {
      assert rs == [rs[0]] + rs[1..];
      OneResourceIds(rs[0], id);
      ResourceIdsMean(rs[1..], id);
    }
  }

  // ----- the id of the clone -------------------------------------------------

  /** The document without a group that is taken out before the id is looked for. */
  function Standing(rs: seq<Resource>, name: string): seq<Resource>
    requires CanClone(rs, name)
  {
    if Dissolved(rs, name) then Remainder(rs, name) else rs
  }

  predicate SomeHas(rs: seq<Resource>, elsewhere: set<string>, id: string) {
    id in elsewhere || exists r <- rs :: ResourceHas(r, id)
  }

  /** An id asked for is refused as existing exactly if some element still in the document has it. */
  lemma ExplicitIdRefused(rs: seq<Resource>, elsewhere: set<string>, r: Request, id: string)
    requires r.explicit == Some(id)
    ensures OutcomeOf(rs, elsewhere, r) == IdExists <==>
      && CanClone(rs, r.name) && r.compatible && id != "" && r.valid
      && SomeHas(Standing(rs, r.name), elsewhere, id)
  {
    if CanClone(rs, r.name) {
      ResourceIdsMean(Standing(rs, r.name), id);
    }
  }

  /** With no id asked for it is made up from the name: `-clone`, and the least number that helps if that is in use. */
  lemma MadeUpId(rs: seq<Resource>, elsewhere: set<string>, r: Request) returns (k: nat)
    requires r.explicit == None && CanClone(rs, r.name) && r.compatible
    ensures var stem := r.name + "-clone";
      && OutcomeOf(rs, elsewhere, r) == Created(if k == 0 then stem else stem + "-" + Decimal(k))
      && (k == 0 <==> !SomeHas(Standing(rs, r.name), elsewhere, stem))
      && (k > 0 ==> !SomeHas(Standing(rs, r.name), elsewhere, stem + "-" + Decimal(k)))
      && forall j | 1 <= j < k :: SomeHas(Standing(rs, r.name), elsewhere, stem + "-" + Decimal(j))
  {
    var (stand, stem) := (Standing(rs, r.name), r.name + "-clone");
    var taken := elsewhere + ResourceIds(stand);
    forall id ensures id in taken <==> SomeHas(stand, elsewhere, id) {
      ResourceIdsMean(stand, id);
    }
    k := FindUniqueMeans(taken, stem);
  }

  /**
   * Beside the new clone nothing has its id, unless the clone's only child or what is inside it does; then the child
   * was the last member of a group and the id was asked for, or made up after the group was taken out.
   */
  lemma NewIdIsAlone(rs: seq<Resource>, elsewhere: set<string>, r: Request)
    requires OutcomeOf(rs, elsewhere, r).Created?
    ensures CanClone(rs, r.name)
    ensures var id := OutcomeOf(rs, elsewhere, r).cloneId;
      var after := ClonedSection(rs, r.name, id);
      && id !in elsewhere && after != []
      && after[|after| - 1] == Clone(id, false, [TheElement(rs, r.name)])
      && (forall x <- after[..|after| - 1] :: !ResourceHas(x, id))
      && (ItemHas(TheElement(rs, r.name), id) ==> Dissolved(rs, r.name))
  {
    CloneIdIsFresh(rs, elsewhere, r);
    var id := OutcomeOf(rs, elsewhere, r).cloneId;
    var after := ClonedSection(rs, r.name, id);
    assert after[..|after| - 1] == Remainder(rs, r.name);
    ResourceIdsMean(Remainder(rs, r.name), id);
    ItemIdsMean(TheElement(rs, r.name), id);
    IdsOfSection(rs, r.name);
    HolderIds(rs, r.name);
  }

  // ----- which requests are refused ------------------------------------------

  /** A group of that name, or a primitive in it or by itself. */
  predicate Named(x: Item, name: string) {
    match x
    case Single(p) => p.id == name
    case Group(g, _, members) => g == name || exists p <- members :: p.id == name
  }

  lemma NamedIsFound(x: Item, name: string)
    ensures Named(x, name) <==> Found(x, PrimitiveNamed(name)) || Found(x, GroupNamed(name))
  {
    var ps := Members(x);
    if p :| p in ps && p.id == name {
      var k :| 0 <= k < |ps| && ps[k] == p;
      assert IdsOf(ps)[k] == name;
    }
    if name in IdsOf(ps) {
      var k :| 0 <= k < |ps| && IdsOf(ps)[k] == name;
      assert ps[k] in ps;
    }
    assert x.Single? ==> x.p in ps;
  }

  /** Not found exactly if no element is a group or primitive of that name, in clones and bundles as well. */
  lemma NotFoundMeans(rs: seq<Resource>, elsewhere: set<string>, r: Request)
    ensures OutcomeOf(rs, elsewhere, r) == NotFound <==> forall x <- rs, y <- Items(x) :: !Named(y, r.name)
  {
    var (p, g) := (PrimitiveNamed(r.name), GroupNamed(r.name));
    forall x <- rs, y <- Items(x) ensures Named(y, r.name) <==> Found(y, p) || Found(y, g) {
      NamedIsFound(y, r.name);
    }
    var i := PlaceOf(rs, r.name);
    if i < |rs| {
      assert rs[i] in rs;
    } else {
      forall x <- rs, y <- Items(x) ensures !Named(y, r.name) {
        var k :| 0 <= k < |rs| && rs[k] == x;
        assert !FoundIn(Items(rs[k]), p) && !FoundIn(Items(rs[k]), g);
      }
    }
  }

  lemma NamedIsListed(xs: seq<Item>, y: Item, name: string)
    requires y in xs && Named(y, name)
    ensures name in Names(xs)
  {
    NamesMean(xs, name);
    if y.Single? {
      assert y.p in Members(y);
    }
  }

  lemma NamedInside(rs: seq<Resource>, k: nat, y: Item, name: string)
    requires k < |rs| && y in Items(rs[k]) && Named(y, name)
    ensures name in Names(AllItems(rs))
  {
    MemberOfAllItems(rs, y);
    NamedIsListed(AllItems(rs), y, name);
  }

  /** The name is in no resource but the `k`-th. */
  ghost predicate NamedOnlyIn(rs: seq<Resource>, k: nat, name: string) {
    forall j, y | 0 <= j < |rs| && y in Items(rs[j]) && Named(y, name) :: j == k
  }

  /** With unique ids a name is in one resource only. */
  lemma UniqueIsOnly(rs: seq<Resource>, k: nat, y: Item, name: string)
    requires Unique(Names(AllItems(rs))) && k < |rs| && y in Items(rs[k]) && Named(y, name)
    ensures NamedOnlyIn(rs, k, name)
  {
    forall j, z | 0 <= j < |rs| && z in Items(rs[j]) && Named(z, name) ensures j == k {
      if j < k {
        NamedApart(rs, j, z, k, y, name);
      } else if k < j {
        NamedApart(rs, k, y, j, z, name);
      }
    }
  }

  lemma NamedApart(rs: seq<Resource>, i: nat, x: Item, k: nat, y: Item, name: string)
    requires i < k < |rs| && x in Items(rs[i]) && Named(x, name) && y in Items(rs[k]) && Named(y, name)
    ensures !Unique(Names(AllItems(rs)))
  {
    assert rs == rs[..k] + rs[k..] && rs[k..][0] == rs[k];
    NamedInside(rs[..k], i, x, name);
    NamedInside(rs[k..], 0, y, name);
    AllItemsAppend(rs[..k], rs[k..]);
    NamesAppend(AllItems(rs[..k]), AllItems(rs[k..]));
    if Unique(Names(AllItems(rs))) {
      UniqueParts(Names(AllItems(rs[..k])), Names(AllItems(rs[k..])));
    }
  }

  lemma FoundIsNamedSo(xs: seq<Item>, name: string)
    ensures FoundIn(xs, PrimitiveNamed(name)) || FoundIn(xs, GroupNamed(name)) <==> exists y <- xs :: Named(y, name)
  {
    forall y <- xs ensures Named(y, name) <==> Found(y, PrimitiveNamed(name)) || Found(y, GroupNamed(name)) {
      NamedIsFound(y, name);
    }
  }

  lemma PlaceIsOnly(rs: seq<Resource>, k: nat, y: Item, name: string)
    requires k < |rs| && y in Items(rs[k]) && Named(y, name) && NamedOnlyIn(rs, k, name)
    ensures PlaceOf(rs, name) == k
  {
    var i := PlaceOf(rs, name);
    FoundIsNamedSo(Items(rs[k]), name);
    assert i < |rs|;
    FoundIsNamedSo(Items(rs[i]), name);
  }

  lemma InACloneMeans(rs: seq<Resource>, k: nat, y: Item, name: string)
    requires k < |rs| && y in Items(rs[k]) && Named(y, name) && NamedOnlyIn(rs, k, name)
    ensures InAClone(rs, name) <==> rs[k].Clone?
  {
    if rs[k].Clone? {
      FoundIsNamedSo(rs[k].children, name);
      assert rs[k] in rs;
    }
    forall x <- rs | x.Clone? && x != rs[k]
      ensures !FoundIn(x.children, PrimitiveNamed(name)) && !FoundIn(x.children, GroupNamed(name))
    {
      var j :| 0 <= j < |rs| && rs[j] == x;
      FoundIsNamedSo(Items(rs[j]), name);
    }
  }

  /** Which kind of resource holds the name settles which of the first refusals there is, if any. */
  lemma RefusalsMean(rs: seq<Resource>, elsewhere: set<string>, r: Request, k: nat, y: Item)
    requires k < |rs| && y in Items(rs[k]) && Named(y, r.name) && NamedOnlyIn(rs, k, r.name)
    ensures OutcomeOf(rs, elsewhere, r) == InBundle <==> rs[k].Bundle?
    ensures OutcomeOf(rs, elsewhere, r) == AlreadyCloned <==> rs[k].Clone?
    ensures CanClone(rs, r.name) <==> rs[k].Plain?
    ensures rs[k].Plain? ==> (OutcomeOf(rs, elsewhere, r) == Incompatible <==> !r.compatible)
  {
    PlaceIsOnly(rs, k, y, r.name);
    InACloneMeans(rs, k, y, r.name);
  }

  lemma {:induction false} WithoutMiddle(a: seq<Primitive>, p: Primitive, b: seq<Primitive>)
    requires p.id !in IdsOf(a) && p.id !in IdsOf(b)
    ensures WithoutId(a + [p] + b, p.id) == a + b
  {
    WithoutAppend(a + [p], b, p.id);
    WithoutAppend(a, [p], p.id);
    WithoutAbsent(a, p.id);
    WithoutAbsent(b, p.id);
    WithoutItself(p);
    assert a + [] == a;
  }

  lemma {:induction false} WithoutItself(p: Primitive)
    ensures WithoutId([p], p.id) == []
  {
    assert WithoutId([p], p.id) == [] + WithoutId([], p.id);
  }

  lemma {:induction false} WithoutOne(members: seq<Primitive>, k: nat)
    requires k < |members| && Apart(members)
    ensures WithoutId(members, members[k].id) == members[..k] + members[k + 1..]
  {
    assert members == members[..k] + [members[k]] + members[k + 1..];
    OthersHaveOtherIds(members[..k], members[k], members[k + 1..]);
    WithoutMiddle(members[..k], members[k], members[k + 1..]);
  }

  lemma {:induction false} OthersHaveOtherIds(a: seq<Primitive>, p: Primitive, b: seq<Primitive>)
    requires Apart(a + [p] + b)
    ensures p.id !in IdsOf(a) && p.id !in IdsOf(b)
  {
    var all := a + [p] + b;
    assert multiset(all) == multiset(a) + multiset{p} + multiset(b);
    assert p in all && multiset(all)[p] == 1;
    forall i | 0 <= i < |a| ensures a[i].id != p.id {
      assert a[i] in all && a[i] in multiset(a);
    }
    forall i | 0 <= i < |b| ensures b[i].id != p.id {
      assert b[i] in all && b[i] in multiset(b);
    }
  }

  /**
   * What the section is after cloning. A primitive or group that stands by itself goes into the clone as it is. A
   * member leaves its group, which stays with the others at its place, or is gone if there were none.
   */
  ghost predicate ClonedFrom(
      rs: seq<Resource>, i: nat, k: nat, name: string, cloneId: string, after: seq<Resource>)
  {
    && i < |rs| && rs[i].Plain? && Named(rs[i].item, name)
    && match rs[i].item
       case Single(p) => after == rs[..i] + rs[i + 1..] + [Clone(cloneId, false, [Single(p)])]
       case Group(g, inner, members) =>
         if g == name then after == rs[..i] + rs[i + 1..] + [Clone(cloneId, false, [rs[i].item])]
         else
           && k < |members| && members[k].id == name
           && var others := members[..k] + members[k + 1..];
           after == rs[..i] + (if others == [] then [] else [Plain(Group(g, inner, others))]) + rs[i + 1..]
                    + [Clone(cloneId, false, [Single(members[k])])]
  }

  lemma HolderIsApart(rs: seq<Resource>, name: string)
    requires CanClone(rs, name) && Unique(Names(AllItems(rs)))
    ensures var x := Holder(rs, name); Apart(Members(x)) && (x.Group? ==> x.id !in IdsOf(x.members))
  {
    HolderIsAlone(rs, name);
    GroupIsApart(Holder(rs, name));
  }

  lemma {:induction false} ClonedMeans(rs: seq<Resource>, name: string, cloneId: string) returns (i: nat, k: nat)
    requires CanClone(rs, name) && Unique(Names(AllItems(rs)))
    ensures ClonedFrom(rs, i, k, name, cloneId, ClonedSection(rs, name, cloneId))
  {
    HolderIsApart(rs, name);
    i, k := ClonedApart(rs, name, cloneId);
  }

  lemma {:induction false} ClonedApart(rs: seq<Resource>, name: string, cloneId: string) returns (i: nat, k: nat)
    requires CanClone(rs, name) && Apart(Members(Holder(rs, name)))
    requires Holder(rs, name).Group? ==> Holder(rs, name).id !in IdsOf(Holder(rs, name).members)
    ensures ClonedFrom(rs, i, k, name, cloneId, ClonedSection(rs, name, cloneId))
  {
    i, k := PlaceOf(rs, name), 0;
    HolderParts(rs, name);
    var x := rs[i].item;
    NamedIsFound(x, name);
    if x.Group? && x.id != name {
      k := MemberCloned(rs, name, cloneId);
    } else {
      assert rs[..i] + [] + rs[i + 1..] == rs[..i] + rs[i + 1..];
    }
  }

  lemma {:induction false} MemberCloned(rs: seq<Resource>, name: string, cloneId: string) returns (k: nat)
    requires CanClone(rs, name) && Apart(Members(Holder(rs, name)))
    requires Holder(rs, name).Group? && Holder(rs, name).id != name
    ensures ClonedFrom(rs, PlaceOf(rs, name), k, name, cloneId, ClonedSection(rs, name, cloneId))
  {
    HolderParts(rs, name);
    var x := Holder(rs, name);
    NamedIsFound(x, name);
    var p := Find(x.members, name);
    k :| 0 <= k < |x.members| && x.members[k] == p;
    WithoutOne(x.members, k);
    var others := x.members[..k] + x.members[k + 1..];
    assert |others| == |x.members| - 1;
    assert Stays(rs, name) == if others == [] then [] else [Plain(Group(x.id, x.inner, others))];
  }
}
