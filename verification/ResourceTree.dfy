/** The resources section: primitives, groups, clones and bundles, and what removing and appending nodes does to it. */
module ResourceTree {
  import opened Sequences

  /** `inner` are the ids of the elements inside that are not resources. */
  datatype Primitive = Primitive(id: string, inner: set<string>, content: map<string, string>)

  datatype Item =
    | Single(p: Primitive)
    | Group(id: string, inner: set<string>, members: seq<Primitive>)

  /** Items stand in the section itself, in a clone (or its old form, a master), or in a bundle. */
  datatype Resource =
    | Plain(item: Item)
    | Clone(id: string, master: bool, children: seq<Item>)
    | Bundle(id: string, primitives: seq<Primitive>)

  function Singles(ps: seq<Primitive>): (r: seq<Item>)
    ensures |r| == |ps| && forall k | 0 <= k < |ps| :: r[k] == Single(ps[k])
  {
    seq(|ps|, k requires 0 <= k < |ps| => Single(ps[k]))
  }

  function Plains(ps: seq<Primitive>): (r: seq<Resource>)
    ensures |r| == |ps| && forall k | 0 <= k < |ps| :: r[k] == Plain(Single(ps[k]))
  {
    seq(|ps|, k requires 0 <= k < |ps| => Plain(Single(ps[k])))
  }

  function Members(x: Item): seq<Primitive> {
    if x.Single? then [x.p] else x.members
  }

  function Items(r: Resource): seq<Item> {
    match r
    case Plain(x) => [x]
    case Clone(_, _, children) => children
    case Bundle(_, ps) => Singles(ps)
  }

  function AllItems(rs: seq<Resource>): seq<Item> {
    if rs == [] then [] else Items(rs[0]) + AllItems(rs[1..])
  }

  /** All primitives, in document order. */
  function Primitives(xs: seq<Item>): seq<Primitive> {
    if xs == [] then [] else Members(xs[0]) + Primitives(xs[1..])
  }

  function IdsOf(ps: seq<Primitive>): (ids: seq<string>)
    ensures |ids| == |ps| && forall k | 0 <= k < |ps| :: ids[k] == ps[k].id
  {
    seq(|ps|, k requires 0 <= k < |ps| => ps[k].id)
  }

  /** The ids of groups and primitives. */
  function Names(xs: seq<Item>): seq<string> {
    if xs == [] then [] else (if xs[0].Group? then [xs[0].id] else []) + IdsOf(Members(xs[0])) + Names(xs[1..])
  }

  /** No element twice. */
  ghost predicate Unique(names: seq<string>) {
    forall s <- names :: multiset(names)[s] == 1
  }

  predicate NoEmptyGroups(xs: seq<Item>) {
    forall x <- xs :: x.Group? ==> x.members != []
  }

  /** Every clone holds exactly one primitive or group. */
  predicate OneChildEach(rs: seq<Resource>) {
    forall r <- rs :: r.Clone? ==> |r.children| == 1
  }

  // ----- concatenation -------------------------------------------------------

  lemma {:induction false} AllItemsAppend(a: seq<Resource>, b: seq<Resource>)
    ensures AllItems(a + b) == AllItems(a) + AllItems(b)
  {
    if a == [] {
      assert a + b == b;
    } else {
      assert (a + b)[1..] == a[1..] + b;
      AllItemsAppend(a[1..], b);
      ConcatAssociates(Items(a[0]), AllItems(a[1..]), AllItems(b));
    }
  }

  lemma {:induction false} PrimitivesAppend(a: seq<Item>, b: seq<Item>)
    ensures Primitives(a + b) == Primitives(a) + Primitives(b)
  {
    if a == [] {
      assert a + b == b;
    } else {
      assert (a + b)[1..] == a[1..] + b;
      PrimitivesAppend(a[1..], b);
      ConcatAssociates(Members(a[0]), Primitives(a[1..]), Primitives(b));
    }
  }

  lemma {:induction false} NamesAppend(a: seq<Item>, b: seq<Item>)
    ensures Names(a + b) == Names(a) + Names(b)
  {
    if a == [] {
      assert a + b == b;
    } else {
      var here := (if a[0].Group? then [a[0].id] else []) + IdsOf(Members(a[0]));
      assert (a + b)[1..] == a[1..] + b;
      NamesAppend(a[1..], b);
      ConcatAssociates(here, Names(a[1..]), Names(b));
    }
  }

  lemma {:induction false} PrimitivesOfSingles(ps: seq<Primitive>)
    ensures Primitives(Singles(ps)) == ps
  {
    if ps != [] {
      assert Singles(ps)[1..] == Singles(ps[1..]);
      PrimitivesOfSingles(ps[1..]);
    }
  }

  lemma {:induction false} AllItemsOfPlains(ps: seq<Primitive>)
    ensures AllItems(Plains(ps)) == Singles(ps)
  {
    if ps != [] {
      assert Plains(ps)[1..] == Plains(ps[1..]);
      AllItemsOfPlains(ps[1..]);
      assert Singles(ps) == [Single(ps[0])] + Singles(ps[1..]);
    }
  }

  lemma {:induction false} AllItemsOfOne(r: Resource)
    ensures AllItems([r]) == Items(r)
  {
    assert AllItems([r]) == Items(r) + AllItems([]);
  }

  lemma {:induction false} AllItemsAround(a: seq<Resource>, r: Resource, b: seq<Resource>)
    ensures AllItems(a + [r] + b) == AllItems(a) + Items(r) + AllItems(b)
  {
    AllItemsAppend(a, [r]);
    AllItemsAppend(a + [r], b);
    AllItemsOfOne(r);
  }

  lemma {:induction false} PrimitivesOfOne(x: Item)
    ensures Primitives([x]) == Members(x)
  {
    assert Primitives([x]) == Members(x) + Primitives([]);
  }

  lemma {:induction false} PrimitivesAround(a: seq<Item>, x: Item, b: seq<Item>)
    ensures Primitives(a + [x] + b) == Primitives(a) + Members(x) + Primitives(b)
  {
    PrimitivesAppend(a, [x]);
    PrimitivesAppend(a + [x], b);
    PrimitivesOfOne(x);
  }

  lemma {:induction false} NamesAround(a: seq<Item>, x: Item, b: seq<Item>)
    ensures Names(a + [x] + b) == Names(a) + Names([x]) + Names(b)
  {
    NamesAppend(a, [x]);
    NamesAppend(a + [x], b);
  }

  lemma {:induction false} MemberOfAllItems(rs: seq<Resource>, x: Item)
    ensures x in AllItems(rs) <==> exists i | 0 <= i < |rs| :: x in Items(rs[i])
  {
    if rs != [] {
      MemberOfAllItems(rs[1..], x);
      if x in AllItems(rs[1..]) {
        var i :| 0 <= i < |rs[1..]| && x in Items(rs[1..][i]);
        assert x in Items(rs[i + 1]);
      }
      if i :| 0 <= i < |rs| && x in Items(rs[i]) && i > 0 {
        assert x in Items(rs[1..][i - 1]);
      }
    }
  }

  /** The names are those of groups and of primitives, in groups or not. */
  lemma {:induction false} NamesMean(xs: seq<Item>, n: string)
    ensures n in Names(xs) <==> exists x <- xs :: (x.Group? && x.id == n) || exists p <- Members(x) :: p.id == n
  {
    if xs != [] {
      assert forall x :: x in xs <==> x == xs[0] || x in xs[1..];
      NamesMean(xs[1..], n);
      var (here, ids) := (Members(xs[0]), IdsOf(Members(xs[0])));
      if n in ids {
        var k :| 0 <= k < |ids| && ids[k] == n;
        assert here[k] in here;
      }
      if p :| p in here && p.id == n {
        var k :| 0 <= k < |here| && here[k] == p;
        assert ids[k] == n;
      }
    }
  }

  lemma {:induction false} PrimitiveIsNamed(xs: seq<Item>, p: Primitive)
    requires p in Primitives(xs)
    ensures p.id in Names(xs)
  {
    var here := Members(xs[0]);
    if p in here {
      var k :| 0 <= k < |here| && here[k] == p;
      assert IdsOf(here)[k] == p.id;
    } else {
      PrimitiveIsNamed(xs[1..], p);
    }
  }

  // ----- lookups -------------------------------------------------------------

  datatype Query = PrimitiveNamed(id: string) | GroupNamed(id: string)

  predicate Found(x: Item, q: Query) {
    match q
    case PrimitiveNamed(id) => id in IdsOf(Members(x))
    case GroupNamed(id) => x.Group? && x.id == id
  }

  predicate FoundIn(xs: seq<Item>, q: Query) {
    exists x <- xs :: Found(x, q)
  }

  /** The first item that holds what is asked for. */
  function ItemPlace(xs: seq<Item>, q: Query): (j: nat)
    ensures j <= |xs| && (j < |xs| ==> Found(xs[j], q))
    ensures FoundIn(xs, q) <==> j < |xs|
  {
    if xs == [] || Found(xs[0], q) then 0 else 1 + ItemPlace(xs[1..], q)
  }

  /** The first resource that holds what is asked for, at any depth. */
  function ResourcePlace(rs: seq<Resource>, q: Query): (i: nat)
    ensures i <= |rs| && (i < |rs| ==> FoundIn(Items(rs[i]), q))
    ensures forall k | 0 <= k < i :: !FoundIn(Items(rs[k]), q)
  {
    if rs == [] || FoundIn(Items(rs[0]), q) then 0 else 1 + ResourcePlace(rs[1..], q)
  }

  function Find(ps: seq<Primitive>, id: string): (p: Primitive)
    requires id in IdsOf(ps)
    ensures p in ps && p.id == id
  {
    if ps[0].id == id then ps[0] else Find(ps[1..], id)
  }

  // ----- removing a primitive from its parent --------------------------------

  function WithoutId(ps: seq<Primitive>, id: string): seq<Primitive> {
    if ps == [] then [] else (if ps[0].id == id then [] else [ps[0]]) + WithoutId(ps[1..], id)
  }

  function DetachItem(x: Item, id: string): seq<Item> {
    if x.Group? then [x.(members := WithoutId(x.members, id))] else if x.p.id == id then [] else [x]
  }

  function DetachItems(xs: seq<Item>, id: string): seq<Item> {
    if xs == [] then [] else DetachItem(xs[0], id) + DetachItems(xs[1..], id)
  }

  function DetachResource(r: Resource, id: string): seq<Resource> {
    match r
    case Plain(x) => if DetachItem(x, id) == [] then [] else [Plain(DetachItem(x, id)[0])]
    case Clone(_, _, children) => [r.(children := DetachItems(children, id))]
    case Bundle(_, ps) => [r.(primitives := WithoutId(ps, id))]
  }

  /** With unique ids, this removes one node from its parent, whatever that is. */
  function Detach(rs: seq<Resource>, id: string): seq<Resource> {
    if rs == [] then [] else DetachResource(rs[0], id) + Detach(rs[1..], id)
  }

  lemma {:induction false} WithoutAppend(a: seq<Primitive>, b: seq<Primitive>, id: string)
    ensures WithoutId(a + b, id) == WithoutId(a, id) + WithoutId(b, id)
  {
    if a == [] {
      assert a + b == b;
    } else {
      assert (a + b)[1..] == a[1..] + b;
      WithoutAppend(a[1..], b, id);
      ConcatAssociates(if a[0].id == id then [] else [a[0]], WithoutId(a[1..], id), WithoutId(b, id));
    }
  }

  lemma {:induction false} DetachItemsAppend(a: seq<Item>, b: seq<Item>, id: string)
    ensures DetachItems(a + b, id) == DetachItems(a, id) + DetachItems(b, id)
  {
    if a == [] {
      assert a + b == b;
    } else {
      assert (a + b)[1..] == a[1..] + b;
      DetachItemsAppend(a[1..], b, id);
      ConcatAssociates(DetachItem(a[0], id), DetachItems(a[1..], id), DetachItems(b, id));
    }
  }

  lemma {:induction false} DetachAppend(a: seq<Resource>, b: seq<Resource>, id: string)
    ensures Detach(a + b, id) == Detach(a, id) + Detach(b, id)
  {
    if a == [] {
      assert a + b == b;
    } else {
      assert (a + b)[1..] == a[1..] + b;
      DetachAppend(a[1..], b, id);
      ConcatAssociates(DetachResource(a[0], id), Detach(a[1..], id), Detach(b, id));
    }
  }

  /** Nothing happens to primitives of other names. */
  lemma {:induction false} WithoutAbsent(ps: seq<Primitive>, id: string)
    requires id !in IdsOf(ps)
    ensures WithoutId(ps, id) == ps
  {
    if ps != [] {
      assert IdsOf(ps)[0] == ps[0].id && IdsOf(ps)[1..] == IdsOf(ps[1..]);
      WithoutAbsent(ps[1..], id);
    }
  }

  lemma {:induction false} DetachItemsAbsent(xs: seq<Item>, id: string)
    requires id !in Names(xs)
    ensures DetachItems(xs, id) == xs
  {
    if xs != [] {
      DetachItemsAbsent(xs[1..], id);
      if xs[0].Group? {
        WithoutAbsent(xs[0].members, id);
      } else {
        assert IdsOf(Members(xs[0]))[0] == xs[0].p.id;
      }
    }
  }

  lemma {:induction false} NamesOfSingles(ps: seq<Primitive>)
    ensures Names(Singles(ps)) == IdsOf(ps)
  {
    if ps != [] {
      assert Singles(ps)[1..] == Singles(ps[1..]);
      NamesOfSingles(ps[1..]);
      assert IdsOf(ps) == [ps[0].id] + IdsOf(ps[1..]) && IdsOf([ps[0]]) == [ps[0].id];
    }
  }

  lemma {:induction false} DetachAbsent(rs: seq<Resource>, id: string)
    requires id !in Names(AllItems(rs))
    ensures Detach(rs, id) == rs
  {
    if rs != [] {
      var r := rs[0];
      NamesAppend(Items(r), AllItems(rs[1..]));
      DetachAbsent(rs[1..], id);
      DetachItemsAbsent(Items(r), id);
      match r
      case Plain(x) => assert DetachItems([x], id) == DetachItem(x, id) + DetachItems([], id);
      case Clone(_, _, _) =>
      case Bundle(_, ps) => NamesOfSingles(ps); WithoutAbsent(ps, id);
    }
  }

  lemma {:induction false} DetachSingles(ps: seq<Primitive>, id: string)
    ensures DetachItems(Singles(ps), id) == Singles(WithoutId(ps, id))
  {
    if ps != [] {
      assert Singles(ps)[1..] == Singles(ps[1..]);
      DetachSingles(ps[1..], id);
      assert Singles([ps[0]] + WithoutId(ps[1..], id)) == [Single(ps[0])] + Singles(WithoutId(ps[1..], id));
    }
  }

  lemma {:induction false} DetachPlains(ps: seq<Primitive>, id: string)
    ensures Detach(Plains(ps), id) == Plains(WithoutId(ps, id))
  {
    if ps != [] {
      assert Plains(ps)[1..] == Plains(ps[1..]);
      DetachPlains(ps[1..], id);
      assert Plains([ps[0]] + WithoutId(ps[1..], id)) == [Plain(Single(ps[0]))] + Plains(WithoutId(ps[1..], id));
    }
  }

  // ----- primitives with ids of their own ------------------------------------

  /** Told by the multiset alone, so that any rearrangement keeps it. */
  ghost predicate Apart(ps: seq<Primitive>) {
    && (forall p <- ps, q <- ps :: p.id == q.id ==> p == q)
    && (forall p <- ps :: multiset(ps)[p] == 1)
  }

  lemma ApartIsKept(a: seq<Primitive>, b: seq<Primitive>)
    requires Apart(a) && multiset(a) == multiset(b)
    ensures Apart(b)
  {
    assert forall p :: p in b <==> p in multiset(b);
    assert forall p :: p in a <==> p in multiset(a);
  }

  lemma ApartTail(p: Primitive, rest: seq<Primitive>)
    requires Apart([p] + rest)
    ensures Apart(rest) && p !in rest && forall q <- rest :: q.id != p.id
  {
    var ps := [p] + rest;
    assert multiset(ps) == multiset{p} + multiset(rest);
    assert p in ps;
    forall q <- rest ensures q.id != p.id && multiset(rest)[q] == 1 {
      assert q in ps && q in multiset(rest);
    }
  }

  lemma {:induction false} WithoutMember(ps: seq<Primitive>, p: Primitive)
    requires Apart(ps) && p in ps
    ensures multiset(WithoutId(ps, p.id)) == multiset(ps) - multiset{p}
  {
    var rest := ps[1..];
    assert ps == [ps[0]] + rest;
    assert multiset(ps) == multiset{ps[0]} + multiset(rest);
    ApartTail(ps[0], rest);
    if ps[0] == p {
      WithoutAbsent(rest, p.id);
    } else {
      WithoutMember(rest, p);
    }
  }
}
