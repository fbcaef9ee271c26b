/** `resource_group_rm`: primitives leave their group, one by one, for the place the group is in. */
module GroupRemoval {
  import opened Sequences
  import opened ResourceTree
  import opened References

  /** The group at item `j` of a resource which stands between others. */
  datatype Spot = Spot(before: seq<Resource>, r: Resource, j: nat, after: seq<Resource>)

  predicate IsGroupSpot(s: Spot) {
    s.j < |Items(s.r)| && Items(s.r)[s.j].Group? && !s.r.Bundle?
  }

  function TheGroup(s: Spot): (g: Item)
    requires IsGroupSpot(s)
    ensures g.Group?
  {
    Items(s.r)[s.j]
  }

  predicate Cloned(s: Spot) {
    s.r.Clone?
  }

  /** Where the primitives go: to the section, or to the clone that is left without its group. */
  predicate ToSection(s: Spot)
    requires IsGroupSpot(s)
  {
    s.r.Plain? || |TheGroup(s).members| > 1
  }

  /** The resource at the spot: its group holds `left`, and `moved` stand behind it. */
  function Held(s: Spot, left: seq<Primitive>, moved: seq<Primitive>): Resource
    requires IsGroupSpot(s)
  {
    var g := Group(TheGroup(s).id, TheGroup(s).inner, left);
    if s.r.Plain? then Plain(g)
    else s.r.(children := s.r.children[..s.j] + [g] + s.r.children[s.j + 1..] + Singles(moved))
  }

  /** The section while `left` are in the group and `moved` have arrived. */
  function Arranged(s: Spot, left: seq<Primitive>, moved: seq<Primitive>): seq<Resource>
    requires IsGroupSpot(s)
  {
    if ToSection(s) then s.before + [Held(s, left, [])] + s.after + Plains(moved)
    else s.before + [Held(s, left, moved)] + s.after
  }

  /** The section after the emptied group is gone. */
  function Ungrouped(s: Spot, moved: seq<Primitive>): seq<Resource>
    requires IsGroupSpot(s)
  {
    if s.r.Plain? then s.before + s.after + Plains(moved)
    else
      var others := s.r.children[..s.j] + s.r.children[s.j + 1..];
      if ToSection(s) then s.before + [s.r.(children := others)] + s.after + Plains(moved)
      else s.before + [s.r.(children := others + Singles(moved))] + s.after
  }

  // ----- who leaves, and in what order ---------------------------------------

  /** No names stand for all members. */
  function Leavers(g: Item, ids: seq<string>): seq<string>
    requires g.Group?
  {
    if ids == [] then IdsOf(g.members) else ids
  }

  function Remaining(members: seq<Primitive>, names: seq<string>): seq<Primitive> {
    if members == [] then []
    else (if members[0].id in names then [] else [members[0]]) + Remaining(members[1..], names)
  }

  /** One who is named again leaves again, and so comes last. */
  function Moved(members: seq<Primitive>, names: seq<string>): seq<Primitive>
    requires forall n <- names :: n in IdsOf(members)
  {
    if names == [] then []
    else
      var last := names[|names| - 1];
      WithoutId(Moved(members, names[..|names| - 1]), last) + [Find(members, last)]
  }

  lemma {:induction false} RemainingNone(members: seq<Primitive>)
    ensures Remaining(members, []) == members
  {
    if members != [] {
      RemainingNone(members[1..]);
    }
  }

  lemma {:induction false} RemainingSnoc(members: seq<Primitive>, names: seq<string>, last: string)
    ensures Remaining(members, names + [last]) == WithoutId(Remaining(members, names), last)
  {
    if members != [] {
      RemainingSnoc(members[1..], names, last);
      var here := if members[0].id in names then [] else [members[0]];
      WithoutAppend(here, Remaining(members[1..], names), last);
      assert WithoutId([members[0]], last) ==
        (if members[0].id == last then [] else [members[0]]) + WithoutId([], last);
    }
  }

  /** What stays of a list is what stays of its parts, in the same order. */
  lemma {:induction false} RemainingInOrder(a: seq<Primitive>, b: seq<Primitive>, names: seq<string>)
    ensures Remaining(a + b, names) == Remaining(a, names) + Remaining(b, names)
  {
    if a == [] {
      assert a + b == b;
    } else {
      assert (a + b)[1..] == a[1..] + b;
      RemainingInOrder(a[1..], b, names);
      ConcatAssociates(if a[0].id in names then [] else [a[0]], Remaining(a[1..], names), Remaining(b, names));
    }
  }

  /** Those in the group are the members not named. */
  lemma {:induction false} RemainingMembers(members: seq<Primitive>, names: seq<string>)
    ensures forall p :: p in Remaining(members, names) <==> p in members && p.id !in names
    ensures Remaining(members, names) == [] <==> forall p <- members :: p.id in names
  {
    if members != [] {
      RemainingMembers(members[1..], names);
    }
  }

  lemma BackAtTheEnd(a: seq<Primitive>, b: seq<Primitive>, p: Primitive, all: multiset<Primitive>)
    requires p in all && multiset(a + b) == all - multiset{p}
    ensures multiset(a + (b + [p])) == all
  {
    ConcatAssociates(a, b, [p]);
    assert multiset((a + b) + [p]) == multiset(a + b) + multiset{p};
  }

  lemma OneLeaves(left: seq<Primitive>, gone: seq<Primitive>, p: Primitive)
    requires Apart(left + gone) && p in left + gone
    ensures multiset(WithoutId(left, p.id) + (WithoutId(gone, p.id) + [p])) == multiset(left + gone)
  {
    WithoutAppend(left, gone, p.id);
    WithoutMember(left + gone, p);
    BackAtTheEnd(WithoutId(left, p.id), WithoutId(gone, p.id), p, multiset(left + gone));
  }

  /** Members that have left and members that have not are the members. */
  lemma {:induction false} NobodyLost(members: seq<Primitive>, names: seq<string>)
    requires Apart(members) && forall n <- names :: n in IdsOf(members)
    ensures multiset(Remaining(members, names) + Moved(members, names)) == multiset(members)
  {
    if names == [] {
      RemainingNone(members);
      assert members + [] == members;
    } else {
      var k := |names| - 1;
      var earlier, last := names[..k], names[k];
      assert names == earlier + [last];
      var left, gone, p := Remaining(members, earlier), Moved(members, earlier), Find(members, last);
      NobodyLost(members, earlier);
      RemainingSnoc(members, earlier, last);
      ApartIsKept(members, left + gone);
      assert p in multiset(members);
      assert p in left + gone;
      OneLeaves(left, gone, p);
    }
  }

  /** Those who leave arrive in the order in which they were named. */
  lemma {:induction false} MovedInOrder(members: seq<Primitive>, names: seq<string>)
    requires NoRepeats(names) && forall n <- names :: n in IdsOf(members)
    ensures IdsOf(Moved(members, names)) == names
  {
    if names != [] {
      var k := |names| - 1;
      var earlier, last := names[..k], names[k];
      MovedInOrder(members, earlier);
      WithoutAbsent(Moved(members, earlier), last);
    }
  }

  /** Each name where it is given for the last time. */
  function LastOnly(names: seq<string>): seq<string> {
    if names == [] then [] else (if names[0] in names[1..] then [] else [names[0]]) + LastOnly(names[1..])
  }

  function Except(names: seq<string>, n: string): seq<string> {
    if names == [] then [] else (if names[0] == n then [] else [names[0]]) + Except(names[1..], n)
  }

  lemma {:induction false} LastOnlySnoc(earlier: seq<string>, last: string)
    ensures LastOnly(earlier + [last]) == Except(LastOnly(earlier), last) + [last]
  {
    if earlier == [] {
      assert earlier + [last] == [last] && LastOnly([last][1..]) == [];
    } else {
      var all := earlier + [last];
      assert all[1..] == earlier[1..] + [last];
      LastOnlySnoc(earlier[1..], last);
      var later := LastOnly(earlier[1..]);
      assert ([earlier[0]] + later)[1..] == later && [] + later == later;
      ConcatAssociates(if earlier[0] == last then [] else [earlier[0]], Except(later, last), [last]);
    }
  }

  lemma {:induction false} IdsExcept(ps: seq<Primitive>, id: string)
    ensures IdsOf(WithoutId(ps, id)) == Except(IdsOf(ps), id)
  {
    if ps != [] {
      IdsExcept(ps[1..], id);
      var later := WithoutId(ps[1..], id);
      IdsCons(ps[0], ps[1..]);
      IdsCons(ps[0], later);
      assert ps == [ps[0]] + ps[1..] && [] + later == later;
      assert ([ps[0].id] + IdsOf(ps[1..]))[1..] == IdsOf(ps[1..]);
    }
  }

  /** With repetitions as well: each of those who leave arrives where it is named for the last time. */
  lemma {:induction false} MovedWhereNamedLast(members: seq<Primitive>, names: seq<string>)
    requires forall n <- names :: n in IdsOf(members)
    ensures IdsOf(Moved(members, names)) == LastOnly(names)
    ensures forall p <- Moved(members, names) :: p in members
  {
    if names != [] {
      var k := |names| - 1;
      var earlier, last := names[..k], names[k];
      MovedWhereNamedLast(members, earlier);
      LastOnlySnoc(earlier, last);
      assert names == earlier + [last];
      IdsExcept(Moved(members, earlier), last);
      WithoutAreMembers(Moved(members, earlier), last);
      assert Moved(members, names) == WithoutId(Moved(members, earlier), last) + [Find(members, last)];
    }
  }

  lemma {:induction false} WithoutAreMembers(ps: seq<Primitive>, id: string)
    ensures forall p <- WithoutId(ps, id) :: p in ps
  {
    if ps != [] {
      WithoutAreMembers(ps[1..], id);
    }
  }

  // ----- the outcome ---------------------------------------------------------

  datatype Outcome = Done | NoSuchGroup | NotInGroup | CannotRemoveAll

  function SpotOutcome(s: Spot, ids: seq<string>): Outcome
    requires IsGroupSpot(s)
  {
    var g := TheGroup(s);
    if exists n <- Leavers(g, ids) :: n !in IdsOf(g.members) then NotInGroup
    else if Cloned(s) && |g.members| > 1 && |Leavers(g, ids)| == |g.members| then CannotRemoveAll
    else Done
  }

  function SpotResult(s: Spot, ids: seq<string>): seq<Resource>
    requires IsGroupSpot(s) && SpotOutcome(s, ids) == Done
  {
    var members, names := TheGroup(s).members, Leavers(TheGroup(s), ids);
    if Remaining(members, names) == [] then Ungrouped(s, Moved(members, names))
    else Arranged(s, Remaining(members, names), Moved(members, names))
  }

  /**
   * What an accepted call makes of the section. The group stays at its place with the members that are left, if any.
   * Those who leave stand last: in the section, or, if they were the only member of a cloned group, in the clone.
   */
  function SectionAfter(s: Spot, left: seq<Primitive>, moved: seq<Primitive>): seq<Resource>
    requires IsGroupSpot(s)
  {
    var group := if left == [] then [] else [Group(TheGroup(s).id, TheGroup(s).inner, left)];
    match s.r
    case Plain(_) => s.before + InSection(group) + s.after + Plains(moved)
    case Clone(id, master, children) =>
      var others := children[..s.j] + group + children[s.j + 1..];
      if |TheGroup(s).members| > 1 then s.before + [Clone(id, master, others)] + s.after + Plains(moved)
      else s.before + [Clone(id, master, others + Singles(moved))] + s.after
  }

  lemma {:induction false} UngroupedMeans(s: Spot, moved: seq<Primitive>)
    requires IsGroupSpot(s)
    ensures Ungrouped(s, moved) == SectionAfter(s, [], moved)
  {
    assert s.before + [] + s.after == s.before + s.after;
    if s.r.Clone? {
      var (a, b) := (s.r.children[..s.j], s.r.children[s.j + 1..]);
      assert a + [] + b == a + b;
    }
  }

  lemma {:induction false} ArrangedMeans(s: Spot, left: seq<Primitive>, moved: seq<Primitive>)
    requires IsGroupSpot(s) && left != []
    ensures Arranged(s, left, moved) == SectionAfter(s, left, moved)
  {
    var g := Group(TheGroup(s).id, TheGroup(s).inner, left);
    if s.r.Clone? {
      var (a, b) := (s.r.children[..s.j], s.r.children[s.j + 1..]);
      assert a + [g] + b + Singles([]) == a + [g] + b;
    } else {
      assert InSection([g]) == [Plain(g)];
    }
  }

  lemma ResultMeans(s: Spot, ids: seq<string>)
    requires IsGroupSpot(s) && SpotOutcome(s, ids) == Done
    ensures var members := TheGroup(s).members;
      var names := if ids == [] then IdsOf(members) else ids;
      SpotResult(s, ids) == SectionAfter(s, Remaining(members, names), Moved(members, names))
  {
    var members, names := TheGroup(s).members, Leavers(TheGroup(s), ids);
    if Remaining(members, names) == [] {
      UngroupedMeans(s, Moved(members, names));
    } else {
      ArrangedMeans(s, Remaining(members, names), Moved(members, names));
    }
  }

  /** Groups that stand in the section itself. */
  function InSection(groups: seq<Item>): (r: seq<Resource>)
    ensures |r| == |groups| && forall k | 0 <= k < |groups| :: r[k] == Plain(groups[k])
  {
    seq(|groups|, k requires 0 <= k < |groups| => Plain(groups[k]))
  }

  /** Primitives apart from those of the group. */
  function Around(s: Spot): seq<Primitive>
    requires IsGroupSpot(s)
  {
    Primitives(AllItems(s.before)) + Primitives(Items(s.r)[..s.j]) +
    (Primitives(Items(s.r)[s.j + 1..]) + Primitives(AllItems(s.after)))
  }

  // ----- what the arrangements hold ------------------------------------------

  lemma HeldPrimitives(s: Spot, left: seq<Primitive>, moved: seq<Primitive>)
    requires IsGroupSpot(s) && (s.r.Plain? ==> moved == [])
    ensures multiset(Primitives(Items(Held(s, left, moved)))) ==
      multiset(Primitives(Items(s.r)[..s.j])) + multiset(left) +
      multiset(Primitives(Items(s.r)[s.j + 1..])) + multiset(moved)
  {
    var xs, g := Items(s.r), Group(TheGroup(s).id, TheGroup(s).inner, left);
    PrimitivesAround(xs[..s.j], g, xs[s.j + 1..]);
    PrimitivesAppend(xs[..s.j] + [g] + xs[s.j + 1..], Singles(moved));
    PrimitivesOfSingles(moved);
    if s.r.Plain? {
      assert xs[..s.j] + [g] + xs[s.j + 1..] == [g];
    }
  }

  lemma TailPrimitives(rs: seq<Resource>, moved: seq<Primitive>)
    ensures multiset(Primitives(AllItems(rs + Plains(moved)))) == multiset(Primitives(AllItems(rs))) + multiset(moved)
  {
    AllItemsAppend(rs, Plains(moved));
    AllItemsOfPlains(moved);
    PrimitivesOfSingles(moved);
    PrimitivesAppend(AllItems(rs), Singles(moved));
  }

  lemma PairPrimitives(a: seq<Resource>, b: seq<Resource>)
    ensures multiset(Primitives(AllItems(a + b))) ==
      multiset(Primitives(AllItems(a))) + multiset(Primitives(AllItems(b)))
  {
    AllItemsAppend(a, b);
    PrimitivesAppend(AllItems(a), AllItems(b));
  }

  /** The primitives of the section with `r` at the spot and `moved` at the end. */
  lemma SectionPrimitives(before: seq<Resource>, r: Resource, after: seq<Resource>, moved: seq<Primitive>)
    ensures multiset(Primitives(AllItems(before + [r] + after + Plains(moved)))) ==
      multiset(Primitives(AllItems(before))) + multiset(Primitives(Items(r))) +
      multiset(Primitives(AllItems(after))) + multiset(moved)
  {
    TailPrimitives(before + [r] + after, moved);
    PairPrimitives(before + [r], after);
    PairPrimitives(before, [r]);
    AllItemsOfOne(r);
  }

  lemma ArrangedPrimitives(s: Spot, left: seq<Primitive>, moved: seq<Primitive>)
    requires IsGroupSpot(s)
    ensures multiset(Primitives(AllItems(Arranged(s, left, moved)))) ==
      multiset(Around(s)) + multiset(left) + multiset(moved)
  {
    if ToSection(s) {
      SectionPrimitives(s.before, Held(s, left, []), s.after, moved);
      HeldPrimitives(s, left, []);
    } else {
      SectionPrimitives(s.before, Held(s, left, moved), s.after, []);
      assert s.before + [Held(s, left, moved)] + s.after + Plains([]) == s.before + [Held(s, left, moved)] + s.after;
      HeldPrimitives(s, left, moved);
    }
  }

  lemma UngroupedFromSection(s: Spot, moved: seq<Primitive>)
    requires IsGroupSpot(s) && s.r.Plain?
    ensures multiset(Primitives(AllItems(Ungrouped(s, moved)))) == multiset(Around(s)) + multiset(moved)
  {
    TailPrimitives(s.before + s.after, moved);
    PairPrimitives(s.before, s.after);
    assert Items(s.r)[..s.j] == [] && Items(s.r)[s.j + 1..] == [];
  }

  /** The primitives of a clone without its group, with `moved` at the end. */
  lemma ChildrenPrimitives(a: seq<Item>, b: seq<Item>, moved: seq<Primitive>)
    ensures multiset(Primitives(a + b + Singles(moved))) ==
      multiset(Primitives(a)) + multiset(Primitives(b)) + multiset(moved)
  {
    PrimitivesAppend(a + b, Singles(moved));
    PrimitivesAppend(a, b);
    PrimitivesOfSingles(moved);
  }

  lemma UngroupedFromClone(s: Spot, moved: seq<Primitive>)
    requires IsGroupSpot(s) && s.r.Clone?
    ensures multiset(Primitives(AllItems(Ungrouped(s, moved)))) == multiset(Around(s)) + multiset(moved)
  {
    var a, b := s.r.children[..s.j], s.r.children[s.j + 1..];
    assert a == Items(s.r)[..s.j] && b == Items(s.r)[s.j + 1..];
    if ToSection(s) {
      UngroupedToSection(s.before, s.r, s.after, a, b, moved);
    } else {
      UngroupedToClone(s.before, s.r, s.after, a, b, moved);
    }
  }

  /** The group's members go to the section, ... */
  lemma UngroupedToSection(
      before: seq<Resource>, r: Resource, after: seq<Resource>, a: seq<Item>, b: seq<Item>, moved: seq<Primitive>)
    requires r.Clone?
    ensures multiset(Primitives(AllItems(before + [r.(children := a + b)] + after + Plains(moved)))) ==
      multiset(Primitives(AllItems(before))) + multiset(Primitives(a)) + multiset(Primitives(b)) +
      multiset(Primitives(AllItems(after))) + multiset(moved)
  {
    PrimitivesAppend(a, b);
    SectionPrimitives(before, r.(children := a + b), after, moved);
  }

  /** ... or they take its place in the clone. */
  lemma UngroupedToClone(
      before: seq<Resource>, r: Resource, after: seq<Resource>, a: seq<Item>, b: seq<Item>, moved: seq<Primitive>)
    requires r.Clone?
    ensures multiset(Primitives(AllItems(before + [r.(children := a + b + Singles(moved))] + after))) ==
      multiset(Primitives(AllItems(before))) + multiset(Primitives(a)) + multiset(Primitives(b)) +
      multiset(Primitives(AllItems(after))) + multiset(moved)
  {
    ChildrenPrimitives(a, b, moved);
    ClonePrimitives(before, r.(children := a + b + Singles(moved)), after);
  }

  lemma ClonePrimitives(before: seq<Resource>, r: Resource, after: seq<Resource>)
    ensures multiset(Primitives(AllItems(before + [r] + after))) ==
      multiset(Primitives(AllItems(before))) + multiset(Primitives(Items(r))) + multiset(Primitives(AllItems(after)))
  {
    PairPrimitives(before + [r], after);
    PairPrimitives(before, [r]);
    AllItemsOfOne(r);
  }

  function Section(s: Spot): seq<Resource> {
    s.before + [s.r] + s.after
  }

  lemma SectionIsArranged(s: Spot)
    requires IsGroupSpot(s)
    ensures Arranged(s, TheGroup(s).members, []) == Section(s)
  {
    assert Held(s, TheGroup(s).members, []) == s.r;
  }

  lemma UniqueParts(a: seq<string>, b: seq<string>)
    requires Unique(a + b)
    ensures Unique(a) && Unique(b) && forall n <- b :: n !in a
  {
    forall n <- a ensures multiset(a)[n] == 1 && n !in b {
      assert n in a + b && multiset(a + b)[n] == multiset(a)[n] + multiset(b)[n];
      assert n in b ==> n in multiset(b);
      assert n in multiset(a);
    }
    forall n <- b ensures multiset(b)[n] == 1 {
      assert n in a + b && multiset(a + b)[n] == multiset(a)[n] + multiset(b)[n];
      assert n in multiset(b);
    }
  }

  lemma ApartCons(p: Primitive, rest: seq<Primitive>)
    requires Apart(rest) && forall q <- rest :: q.id != p.id
    ensures Apart([p] + rest)
  {
    assert multiset([p] + rest) == multiset{p} + multiset(rest);
    forall q <- [p] + rest ensures multiset([p] + rest)[q] == 1 {
      assert q == p ==> p !in multiset(rest);
    }
  }

  lemma IdsCons(p: Primitive, rest: seq<Primitive>)
    ensures IdsOf([p] + rest) == [p.id] + IdsOf(rest)
  {
  }

  lemma IdOfMember(ps: seq<Primitive>, q: Primitive)
    requires q in ps
    ensures q.id in IdsOf(ps)
  {
    var k :| 0 <= k < |ps| && ps[k] == q;
    assert IdsOf(ps)[k] == q.id;
  }

  lemma {:induction false} UniqueIdsApart(ps: seq<Primitive>)
    requires Unique(IdsOf(ps))
    ensures Apart(ps)
  {
    if ps != [] {
      var p, rest := ps[0], ps[1..];
      assert ps == [p] + rest;
      IdsCons(p, rest);
      UniqueParts([p.id], IdsOf(rest));
      UniqueIdsApart(rest);
      forall q <- rest ensures q.id != p.id {
        IdOfMember(rest, q);
        assert q.id !in [p.id];
      }
      ApartCons(p, rest);
    }
  }

  /** Names outside the group. */
  function Others(s: Spot): seq<string>
    requires IsGroupSpot(s)
  {
    Names(AllItems(s.before)) + Names(Items(s.r)[..s.j]) + (Names(Items(s.r)[s.j + 1..]) + Names(AllItems(s.after)))
  }

  lemma NamesOfGroup(g: Item)
    requires g.Group?
    ensures Names([g]) == [g.id] + IdsOf(g.members)
  {
    assert Names([g]) == [g.id] + IdsOf(g.members) + Names([]);
    assert [g.id] + IdsOf(g.members) + [] == [g.id] + IdsOf(g.members);
  }

  lemma NamesAtSpot(pre: seq<Item>, a: seq<Item>, x: Item, b: seq<Item>, post: seq<Item>)
    ensures Names(pre + (a + [x] + b) + post) == Names(pre) + (Names(a) + Names([x]) + Names(b)) + Names(post)
  {
    NamesAround(a, x, b);
    NamesAppend(pre, a + [x] + b);
    NamesAppend(pre + (a + [x] + b), post);
  }

  lemma AtPlace(xs: seq<Item>, j: nat)
    requires j < |xs|
    ensures xs == xs[..j] + [xs[j]] + xs[j + 1..]
  {
  }

  lemma SectionNames(s: Spot)
    requires IsGroupSpot(s)
    ensures Names(AllItems(Section(s))) ==
      Names(AllItems(s.before)) +
      (Names(Items(s.r)[..s.j]) + ([TheGroup(s).id] + IdsOf(TheGroup(s).members)) + Names(Items(s.r)[s.j + 1..])) +
      Names(AllItems(s.after))
  {
    var xs, g := Items(s.r), TheGroup(s);
    AllItemsAround(s.before, s.r, s.after);
    AtPlace(xs, s.j);
    NamesAtSpot(AllItems(s.before), xs[..s.j], g, xs[s.j + 1..], AllItems(s.after));
    NamesOfGroup(g);
  }

  /** With unique names, members are told apart, and no one else has a member's name. */
  lemma MembersAreApart(s: Spot)
    requires IsGroupSpot(s) && Unique(Names(AllItems(Section(s))))
    ensures Apart(TheGroup(s).members)
    ensures forall n <- IdsOf(TheGroup(s).members) :: n !in Others(s)
  {
    var xs, g := Items(s.r), TheGroup(s);
    SectionNames(s);
    NamesApart(Names(AllItems(s.before)), Names(xs[..s.j]), [g.id], IdsOf(g.members), Names(xs[s.j + 1..]),
               Names(AllItems(s.after)));
    UniqueIdsApart(g.members);
  }

  lemma NamesApart(a: seq<string>, b: seq<string>, g: seq<string>, ids: seq<string>, c: seq<string>, d: seq<string>)
    requires Unique(a + (b + (g + ids) + c) + d)
    ensures Unique(ids) && forall n <- ids :: n !in a + b + (c + d)
  {
    UniqueParts(a + (b + (g + ids) + c), d);
    UniqueParts(a, b + (g + ids) + c);
    UniqueParts(b + (g + ids), c);
    UniqueParts(b, g + ids);
    UniqueParts(g, ids);
    forall n <- ids ensures n !in a + b + (c + d) {
      assert n in g + ids && n in b + (g + ids) && n in b + (g + ids) + c && n in a + (b + (g + ids) + c);
    }
  }

  // ----- main results --------------------------------------------------------

  /** Whatever is named: every primitive is still there, once. */
  lemma GroupRmConserves(s: Spot, ids: seq<string>)
    requires IsGroupSpot(s) && Unique(Names(AllItems(Section(s)))) && SpotOutcome(s, ids) == Done
    ensures multiset(Primitives(AllItems(SpotResult(s, ids)))) == multiset(Primitives(AllItems(Section(s))))
  {
    var members, names := TheGroup(s).members, Leavers(TheGroup(s), ids);
    var left, moved := Remaining(members, names), Moved(members, names);
    MembersAreApart(s);
    NobodyLost(members, names);
    SectionIsArranged(s);
    ArrangedPrimitives(s, members, []);
    ArrangedPrimitives(s, left, moved);
    UngroupedPrimitives(s, moved);
  }

  lemma UngroupedPrimitives(s: Spot, moved: seq<Primitive>)
    requires IsGroupSpot(s)
    ensures multiset(Primitives(AllItems(Ungrouped(s, moved)))) == multiset(Around(s)) + multiset(moved)
  {
    if s.r.Plain? {
      UngroupedFromSection(s, moved);
    } else {
      UngroupedFromClone(s, moved);
    }
  }

  lemma NoEmptyGroupsAppend(a: seq<Item>, b: seq<Item>)
    ensures NoEmptyGroups(a + b) <==> NoEmptyGroups(a) && NoEmptyGroups(b)
  {
    if NoEmptyGroups(a + b) {
      forall x | x in a || x in b ensures x.Group? ==> x.members != [] {
        assert x in a + b;
      }
    }
  }

  lemma SectionGroups(before: seq<Resource>, r: Resource, after: seq<Resource>, moved: seq<Primitive>)
    ensures NoEmptyGroups(AllItems(before + [r] + after + Plains(moved))) <==>
      NoEmptyGroups(AllItems(before)) && NoEmptyGroups(Items(r)) && NoEmptyGroups(AllItems(after))
  {
    var a, b, c, d := AllItems(before), Items(r), AllItems(after), Singles(moved);
    AllItemsAround(before, r, after);
    AllItemsAppend(before + [r] + after, Plains(moved));
    AllItemsOfPlains(moved);
    NoEmptyGroupsAppend(a + b + c, d);
    NoEmptyGroupsAppend(a + b, c);
    NoEmptyGroupsAppend(a, b);
  }

  lemma HeldGroups(s: Spot, left: seq<Primitive>, moved: seq<Primitive>)
    requires IsGroupSpot(s) && NoEmptyGroups(Items(s.r)) && left != []
    ensures NoEmptyGroups(Items(Held(s, left, moved)))
  {
    if s.r.Clone? {
      var c, g := s.r.children, Group(TheGroup(s).id, TheGroup(s).inner, left);
      NoEmptyGroupsAppend(c[..s.j] + [g] + c[s.j + 1..], Singles(moved));
      NoEmptyGroupsAppend(c[..s.j] + [g], c[s.j + 1..]);
      NoEmptyGroupsAppend(c[..s.j], [g]);
    }
  }

  lemma ArrangedGroups(s: Spot, left: seq<Primitive>, moved: seq<Primitive>)
    requires IsGroupSpot(s) && NoEmptyGroups(AllItems(Section(s))) && left != []
    ensures NoEmptyGroups(AllItems(Arranged(s, left, moved)))
  {
    ClonedGroups(s.before, s.r, s.after);
    if ToSection(s) {
      HeldGroups(s, left, []);
      SectionGroups(s.before, Held(s, left, []), s.after, moved);
    } else {
      HeldGroups(s, left, moved);
      ClonedGroups(s.before, Held(s, left, moved), s.after);
    }
  }

  lemma WithoutPlainGroups(s: Spot, moved: seq<Primitive>)
    requires IsGroupSpot(s) && s.r.Plain? && NoEmptyGroups(AllItems(s.before)) && NoEmptyGroups(AllItems(s.after))
    ensures NoEmptyGroups(AllItems(Ungrouped(s, moved)))
  {
    AllItemsAppend(s.before, s.after);
    AllItemsAppend(s.before + s.after, Plains(moved));
    AllItemsOfPlains(moved);
    NoEmptyGroupsAppend(AllItems(s.before) + AllItems(s.after), Singles(moved));
    NoEmptyGroupsAppend(AllItems(s.before), AllItems(s.after));
  }

  lemma ClonedGroups(before: seq<Resource>, r: Resource, after: seq<Resource>)
    ensures NoEmptyGroups(AllItems(before + [r] + after)) <==>
      NoEmptyGroups(AllItems(before)) && NoEmptyGroups(Items(r)) && NoEmptyGroups(AllItems(after))
  {
    assert before + [r] + after + Plains([]) == before + [r] + after;
    SectionGroups(before, r, after, []);
  }

  lemma UngroupedGroups(s: Spot, moved: seq<Primitive>)
    requires IsGroupSpot(s) && NoEmptyGroups(AllItems(Section(s)))
    ensures NoEmptyGroups(AllItems(Ungrouped(s, moved)))
  {
    ClonedGroups(s.before, s.r, s.after);
    if s.r.Plain? {
      WithoutPlainGroups(s, moved);
    } else {
      var others := s.r.children[..s.j] + s.r.children[s.j + 1..];
      assert forall x <- others :: x in s.r.children;
      WithoutClonedGroups(s.before, s.r, s.after, others, moved);
    }
  }

  /** A clone with other children, which may go to the section, or stay together with `moved`. */
  lemma WithoutClonedGroups(
      before: seq<Resource>, r: Resource, after: seq<Resource>, others: seq<Item>, moved: seq<Primitive>)
    requires r.Clone? && NoEmptyGroups(others)
    requires NoEmptyGroups(AllItems(before)) && NoEmptyGroups(AllItems(after))
    ensures NoEmptyGroups(AllItems(before + [r.(children := others)] + after + Plains(moved)))
    ensures NoEmptyGroups(AllItems(before + [r.(children := others + Singles(moved))] + after))
  {
    SectionGroups(before, r.(children := others), after, moved);
    NoEmptyGroupsAppend(others, Singles(moved));
    ClonedGroups(before, r.(children := others + Singles(moved)), after);
  }

  lemma GroupRmLeavesNoEmptyGroup(s: Spot, ids: seq<string>)
    requires IsGroupSpot(s) && NoEmptyGroups(AllItems(Section(s))) && SpotOutcome(s, ids) == Done
    ensures NoEmptyGroups(AllItems(SpotResult(s, ids)))
  {
    var members, names := TheGroup(s).members, Leavers(TheGroup(s), ids);
    if Remaining(members, names) == [] {
      UngroupedGroups(s, Moved(members, names));
    } else {
      ArrangedGroups(s, Remaining(members, names), Moved(members, names));
    }
  }

  /** All members are named. */
  predicate NamesAll(s: Spot, ids: seq<string>)
    requires IsGroupSpot(s)
  {
    forall p <- TheGroup(s).members :: p.id in Leavers(TheGroup(s), ids)
  }

  lemma OneChildAround(before: seq<Resource>, r: Resource, after: seq<Resource>, moved: seq<Primitive>)
    ensures OneChildEach(before + [r] + after + Plains(moved)) <==>
      OneChildEach(before) && (r.Clone? ==> |r.children| == 1) && OneChildEach(after)
  {
    var all := before + [r] + after + Plains(moved);
    if OneChildEach(all) {
      forall x | x in before || x == r || x in after ensures x.Clone? ==> |x.children| == 1 {
        assert x in all;
      }
    }
  }

  lemma OnlyMemberMoves(members: seq<Primitive>, names: seq<string>)
    requires |members| == 1 && names != [] && forall n <- names :: n in IdsOf(members)
    ensures Remaining(members, names) == [] && |Moved(members, names)| == 1
  {
    assert names[0] in IdsOf(members) && IdsOf(members) == [members[0].id];
    RemainingMembers(members, names);
    assert members == [members[0]];
    NobodyLost(members, names);
    assert [] + Moved(members, names) == Moved(members, names);
    assert |multiset(Moved(members, names))| == |multiset(members)|;
  }

  lemma OneChildBetween(before: seq<Resource>, r: Resource, after: seq<Resource>)
    ensures OneChildEach(before + [r] + after) <==>
      OneChildEach(before) && (r.Clone? ==> |r.children| == 1) && OneChildEach(after)
  {
    assert before + [r] + after + Plains([]) == before + [r] + after;
    OneChildAround(before, r, after, []);
  }

  lemma PlainKeepsOneChild(s: Spot, left: seq<Primitive>, moved: seq<Primitive>)
    requires IsGroupSpot(s) && s.r.Plain? && OneChildEach(Section(s))
    ensures OneChildEach(Arranged(s, left, moved)) && OneChildEach(Ungrouped(s, moved))
  {
    OneChildBetween(s.before, s.r, s.after);
    OneChildAround(s.before, Held(s, left, []), s.after, moved);
  }

  lemma SeveralLeaveAClone(s: Spot, left: seq<Primitive>, moved: seq<Primitive>)
    requires IsGroupSpot(s) && s.r.Clone? && ToSection(s) && OneChildEach(Section(s))
    ensures OneChildEach(Arranged(s, left, moved)) && !OneChildEach(Ungrouped(s, moved))
  {
    OneChildBetween(s.before, s.r, s.after);
    assert s.r.children == [TheGroup(s)];
    OneChildAround(s.before, Held(s, left, []), s.after, moved);
    OneChildAround(s.before, s.r.(children := []), s.after, moved);
  }

  lemma OnlyOneStaysInClone(s: Spot, moved: seq<Primitive>)
    requires IsGroupSpot(s) && s.r.Clone? && !ToSection(s) && OneChildEach(Section(s)) && |moved| == 1
    ensures OneChildEach(Ungrouped(s, moved))
  {
    OneChildBetween(s.before, s.r, s.after);
    assert s.r.children == [TheGroup(s)];
    OneChildBetween(s.before, s.r.(children := [] + Singles(moved)), s.after);
  }

  /**
   * A clone that holds the group keeps exactly one child, unless every member of a group of several is named and
   * some of them twice: the check compares numbers, and lets this pass.
   */
  lemma GroupRmKeepsOneChild(s: Spot, ids: seq<string>)
    requires IsGroupSpot(s) && OneChildEach(Section(s)) && TheGroup(s).members != [] && SpotOutcome(s, ids) == Done
    ensures OneChildEach(SpotResult(s, ids)) <==> !(Cloned(s) && |TheGroup(s).members| > 1 && NamesAll(s, ids))
  {
    var members, names := TheGroup(s).members, Leavers(TheGroup(s), ids);
    var left, moved := Remaining(members, names), Moved(members, names);
    RemainingMembers(members, names);
    if s.r.Plain? {
      PlainKeepsOneChild(s, left, moved);
    } else if ToSection(s) {
      SeveralLeaveAClone(s, left, moved);
    } else {
      OnlyMemberMoves(members, names);
      OnlyOneStaysInClone(s, moved);
    }
  }

  /** Without repetition, the check refuses exactly what would leave a clone of several without a child. */
  lemma RefusedWhenAllNamed(s: Spot, ids: seq<string>)
    requires IsGroupSpot(s) && Apart(TheGroup(s).members) && NoRepeats(ids)
    ensures SpotOutcome(s, ids) == CannotRemoveAll <==>
      SpotOutcome(s, ids) != NotInGroup && Cloned(s) && |TheGroup(s).members| > 1 && NamesAll(s, ids)
  {
    var members, names := TheGroup(s).members, Leavers(TheGroup(s), ids);
    if SpotOutcome(s, ids) != NotInGroup {
      if ids == [] {
        forall p <- members ensures p.id in names {
          var k :| 0 <= k < |members| && members[k] == p;
          assert IdsOf(members)[k] == p.id;
        }
      } else {
        NobodyLost(members, names);
        MovedInOrder(members, names);
        RemainingMembers(members, names);
        assert |multiset(Remaining(members, names) + Moved(members, names))| == |multiset(members)|;
      }
    }
  }

  lemma {:induction false} WithoutShortens(ps: seq<Primitive>, id: string)
    ensures |WithoutId(ps, id)| <= |ps| && (id in IdsOf(ps) ==> |WithoutId(ps, id)| < |ps|)
    ensures forall p <- ps | p.id != id :: p in WithoutId(ps, id)
  {
    if ps != [] {
      var rest := ps[1..];
      assert ps == [ps[0]] + rest;
      IdsCons(ps[0], rest);
      WithoutShortens(rest, id);
    }
  }

  /** One arrives for each name ... */
  lemma {:induction false} MovedHasAll(members: seq<Primitive>, names: seq<string>, n: string)
    requires n in names && forall m <- names :: m in IdsOf(members)
    ensures n in IdsOf(Moved(members, names))
  {
    var k := |names| - 1;
    var earlier, last := names[..k], names[k];
    assert names == earlier + [last];
    var moved, arrived := Moved(members, earlier), Find(members, last);
    if n == last {
      IdOfMember(Moved(members, names), arrived);
    } else {
      MovedHasAll(members, earlier, n);
      var i :| 0 <= i < |moved| && moved[i].id == n;
      WithoutShortens(moved, last);
      assert moved[i] in WithoutId(moved, last);
      IdOfMember(Moved(members, names), moved[i]);
    }
  }

  /** ... and as many as there are names only if none is repeated. */
  lemma NoRepeatsSnoc(earlier: seq<string>, last: string)
    requires NoRepeats(earlier) && last !in earlier
    ensures NoRepeats(earlier + [last])
  {
  }

  lemma {:induction false} MovedCount(members: seq<Primitive>, names: seq<string>)
    requires forall n <- names :: n in IdsOf(members)
    ensures |Moved(members, names)| <= |names|
    ensures |Moved(members, names)| == |names| ==> NoRepeats(names)
  {
    if names != [] {
      var k := |names| - 1;
      var earlier, last := names[..k], names[k];
      MovedCount(members, earlier);
      MovedOneMore(members, earlier, last);
      assert names == earlier + [last];
      if last !in earlier && NoRepeats(earlier) {
        NoRepeatsSnoc(earlier, last);
      }
    }
  }

  lemma MovedOneMore(members: seq<Primitive>, earlier: seq<string>, last: string)
    requires last in IdsOf(members) && forall n <- earlier :: n in IdsOf(members)
    ensures |Moved(members, earlier + [last])| <= |Moved(members, earlier)| + if last in earlier then 0 else 1
  {
    var moved := Moved(members, earlier);
    assert (earlier + [last])[..|earlier|] == earlier;
    WithoutShortens(moved, last);
    if last in earlier {
      MovedHasAll(members, earlier, last);
    }
  }

  /** A refusal is right, since the group would go, exactly if no name is repeated. */
  lemma RefusedRightly(s: Spot, ids: seq<string>)
    requires IsGroupSpot(s) && Apart(TheGroup(s).members) && ids != [] && SpotOutcome(s, ids) == CannotRemoveAll
    ensures NamesAll(s, ids) <==> NoRepeats(ids)
  {
    var members := TheGroup(s).members;
    NobodyLost(members, ids);
    RemainingMembers(members, ids);
    MovedCount(members, ids);
    assert |Remaining(members, ids)| + |Moved(members, ids)| == |members| by {
      assert |multiset(Remaining(members, ids) + Moved(members, ids))| == |multiset(members)|;
    }
    if NoRepeats(ids) {
      MovedInOrder(members, ids);
    }
  }

  /** A group of two in a clone, one of them named twice and the other once: accepted, and the clone is left empty. */
  lemma RepeatsEmptyAClone(p: Primitive, q: Primitive)
    requires p.id != q.id
    ensures var s := Spot([], Clone("c", false, [Group("g", {}, [p, q])]), 0, []);
      && SpotOutcome(s, [p.id, q.id]) == CannotRemoveAll
      && SpotOutcome(s, [p.id, q.id, p.id]) == Done
      && SpotResult(s, [p.id, q.id, p.id]) == [Clone("c", false, []), Plain(Single(q)), Plain(Single(p))]
  {
    var members, names := [p, q], [p.id, q.id, p.id];
    MovedAgain(p, q);
    RemainingMembers(members, names);
    assert Plains([q, p]) == [Plain(Single(q)), Plain(Single(p))];
    assert [Group("g", {}, members)][1..] == [];
  }

  /** With only one of them named, twice: refused, though the other would stay. */
  lemma RepeatsAreRefused(p: Primitive, q: Primitive)
    requires p.id != q.id
    ensures var s := Spot([], Clone("c", false, [Group("g", {}, [p, q])]), 0, []);
      SpotOutcome(s, [p.id, p.id]) == CannotRemoveAll && Remaining([p, q], [p.id, p.id]) == [q]
  {
    var members, names := [p, q], [p.id, p.id];
    assert members[1..] == [q] && [q][1..] == [] && IdsOf(members) == [p.id, q.id];
    assert Remaining([q], names) == [q] + Remaining([], names);
    assert Remaining(members, names) == [] + Remaining([q], names);
  }

  lemma MovedAgain(p: Primitive, q: Primitive)
    requires p.id != q.id
    ensures IdsOf([p, q]) == [p.id, q.id]
    ensures forall n <- [p.id, q.id, p.id] :: n in IdsOf([p, q])
    ensures Moved([p, q], [p.id, q.id, p.id]) == [q, p]
  {
    var members, names := [p, q], [p.id, q.id, p.id];
    assert IdsOf(members) == [p.id, q.id];
    assert members[1..] == [q] && [p][1..] == [] && [q][1..] == [];
    assert WithoutId([p], q.id) == [p] + WithoutId([], q.id);
    assert WithoutId([q], p.id) == [q] + WithoutId([], p.id);
    assert WithoutId([p, q], p.id) == [] + WithoutId([q], p.id);
    assert Find(members, p.id) == p && Find(members, q.id) == q;
    assert names[..2] == [p.id, q.id] && [p.id, q.id][..1] == [p.id] && [p.id][..0] == [];
    assert WithoutId([], p.id) + [p] == [p];
    assert Moved(members, [p.id]) == WithoutId([], p.id) + [p];
    assert Moved(members, [p.id, q.id]) == WithoutId([p], q.id) + [q];
    assert Moved(members, names) == WithoutId([p, q], p.id) + [p];
  }

  // ----- in place ------------------------------------------------------------

  lemma DetachParts(pre: seq<Item>, x: Item, post: seq<Item>, id: string)
    ensures DetachItems(pre + [x] + post, id) == DetachItems(pre, id) + DetachItem(x, id) + DetachItems(post, id)
  {
    DetachItemsAppend(pre + [x], post, id);
    DetachItemsAppend(pre, [x], id);
    assert DetachItems([x], id) == DetachItem(x, id) + DetachItems([], id);
    assert DetachItem(x, id) + [] == DetachItem(x, id);
  }

  lemma DetachAround(pre: seq<Item>, x: Item, post: seq<Item>, id: string)
    requires x.Group? && id !in Names(pre) && id !in Names(post)
    ensures DetachItems(pre + [x] + post, id) == pre + [Group(x.id, x.inner, WithoutId(x.members, id))] + post
  {
    DetachParts(pre, x, post, id);
    DetachItemsAbsent(pre, id);
    DetachItemsAbsent(post, id);
  }

  lemma DetachAtSpot(pre: seq<Item>, x: Item, post: seq<Item>, moved: seq<Primitive>, id: string)
    requires x.Group? && id !in Names(pre) && id !in Names(post)
    ensures DetachItems(pre + [x] + post + Singles(moved), id) ==
      pre + [Group(x.id, x.inner, WithoutId(x.members, id))] + post + Singles(WithoutId(moved, id))
  {
    DetachItemsAppend(pre + [x] + post, Singles(moved), id);
    DetachAround(pre, x, post, id);
    DetachSingles(moved, id);
  }

  lemma DetachHeld(s: Spot, left: seq<Primitive>, moved: seq<Primitive>, id: string)
    requires IsGroupSpot(s) && id !in Others(s) && (s.r.Plain? ==> moved == [])
    ensures DetachResource(Held(s, left, moved), id) == [Held(s, WithoutId(left, id), WithoutId(moved, id))]
  {
    if s.r.Clone? {
      var g := Group(TheGroup(s).id, TheGroup(s).inner, left);
      DetachAtSpot(s.r.children[..s.j], g, s.r.children[s.j + 1..], moved, id);
    }
  }

  lemma DetachThree(before: seq<Resource>, r: Resource, after: seq<Resource>, id: string)
    ensures Detach(before + [r] + after, id) == Detach(before, id) + DetachResource(r, id) + Detach(after, id)
  {
    DetachAppend(before + [r], after, id);
    DetachAppend(before, [r], id);
    var here := DetachResource(r, id);
    assert Detach([r], id) == here + Detach([], id);
    assert here + [] == here;
  }

  lemma DetachMiddle(before: seq<Resource>, r: Resource, after: seq<Resource>, id: string)
    requires id !in Names(AllItems(before)) && id !in Names(AllItems(after))
    ensures Detach(before + [r] + after, id) == before + DetachResource(r, id) + after
  {
    DetachThree(before, r, after, id);
    DetachAbsent(before, id);
    DetachAbsent(after, id);
  }

  lemma DetachSection(before: seq<Resource>, r: Resource, after: seq<Resource>, moved: seq<Primitive>, id: string)
    requires id !in Names(AllItems(before)) && id !in Names(AllItems(after))
    ensures Detach(before + [r] + after + Plains(moved), id) ==
      before + DetachResource(r, id) + after + Plains(WithoutId(moved, id))
  {
    DetachAppend(before + [r] + after, Plains(moved), id);
    DetachMiddle(before, r, after, id);
    DetachPlains(moved, id);
  }

  /** Removing a primitive from its parent, whether that still is the group or already the target. */
  lemma DetachArranged(s: Spot, left: seq<Primitive>, moved: seq<Primitive>, id: string)
    requires IsGroupSpot(s) && id !in Others(s)
    ensures Detach(Arranged(s, left, moved), id) == Arranged(s, WithoutId(left, id), WithoutId(moved, id))
  {
    if ToSection(s) {
      DetachHeld(s, left, [], id);
      DetachSection(s.before, Held(s, left, []), s.after, moved, id);
    } else {
      var r := Held(s, left, moved);
      DetachHeld(s, left, moved, id);
      DetachSection(s.before, r, s.after, [], id);
      assert s.before + [r] + s.after + Plains([]) == s.before + [r] + s.after;
    }
  }

  /** `target_node.appendChild(resource)` */
  function AppendAt(rs: seq<Resource>, i: nat, toSection: bool, p: Primitive): seq<Resource>
    requires !toSection ==> i < |rs| && rs[i].Clone?
  {
    if toSection then rs + [Plain(Single(p))] else rs[i := rs[i].(children := rs[i].children + [Single(p)])]
  }

  lemma AppendArranged(s: Spot, left: seq<Primitive>, moved: seq<Primitive>, p: Primitive)
    requires IsGroupSpot(s)
    ensures var (rs, i) := (Arranged(s, left, moved), |s.before|);
      && (!ToSection(s) ==> i < |rs| && rs[i].Clone?)
      && AppendAt(rs, i, ToSection(s), p) == Arranged(s, left, moved + [p])
  {
    if ToSection(s) {
      assert Plains(moved + [p]) == Plains(moved) + [Plain(Single(p))];
    } else {
      var c := s.r.children[..s.j] + [Group(TheGroup(s).id, TheGroup(s).inner, left)] + s.r.children[s.j + 1..];
      assert Singles(moved + [p]) == Singles(moved) + [Single(p)];
      ConcatAssociates(c, Singles(moved), [Single(p)]);
    }
  }

  /** Removing the item at the place from its parent. */
  function RemoveAt(rs: seq<Resource>, i: nat, j: nat): seq<Resource>
    requires i < |rs| && j < |Items(rs[i])| && !rs[i].Bundle?
  {
    if rs[i].Plain? then rs[..i] + rs[i + 1..]
    else rs[i := rs[i].(children := rs[i].children[..j] + rs[i].children[j + 1..])]
  }

  lemma RemoveEmptied(s: Spot, moved: seq<Primitive>)
    requires IsGroupSpot(s)
    ensures var (rs, i) := (Arranged(s, [], moved), |s.before|);
      && i < |rs| && s.j < |Items(rs[i])| && !rs[i].Bundle?
      && RemoveAt(rs, i, s.j) == Ungrouped(s, moved)
  {
    var rs, i := Arranged(s, [], moved), |s.before|;
    if s.r.Plain? {
      assert rs[..i] == s.before && rs[i + 1..] == s.after + Plains(moved);
      ConcatAssociates(s.before, s.after, Plains(moved));
    } else {
      var g, c := Group(TheGroup(s).id, TheGroup(s).inner, []), s.r.children;
      var tail := if ToSection(s) then [] else Singles(moved);
      var now := c[..s.j] + [g] + c[s.j + 1..] + tail;
      assert Singles([]) == [];
      assert rs[i].children == now;
      ConcatAssociates(c[..s.j] + [g], c[s.j + 1..], tail);
      assert now[..s.j] == c[..s.j] && now[s.j + 1..] == c[s.j + 1..] + tail;
      ConcatAssociates(c[..s.j], c[s.j + 1..], tail);
      var r := s.r.(children := c[..s.j] + c[s.j + 1..] + tail);
      assert rs[i].(children := r.children) == r;
      assert ToSection(s) ==> r.children == c[..s.j] + c[s.j + 1..];
      assert rs[i := r] == s.before + [r] + s.after + if ToSection(s) then Plains(moved) else [];
    }
  }

  // ----- ids stay unique -----------------------------------------------------

  function Times(names: seq<string>, n: string): nat {
    multiset(names)[n]
  }

  function TimesIn(rs: seq<Resource>, n: string): nat {
    Times(Names(AllItems(rs)), n)
  }

  lemma TimesAppend(a: seq<string>, b: seq<string>, n: string)
    ensures Times(a + b, n) == Times(a, n) + Times(b, n)
  {
  }

  lemma {:induction false} IdsAppend(a: seq<Primitive>, b: seq<Primitive>)
    ensures IdsOf(a + b) == IdsOf(a) + IdsOf(b)
  {
  }

  function TakeOut(a: seq<Primitive>, k: nat): seq<Primitive>
    requires k < |a|
  {
    a[..k] + a[k + 1..]
  }

  /** An id occurs as often as there are primitives with it, in whatever order. */
  lemma {:induction false} SamePrimitivesSameIds(a: seq<Primitive>, b: seq<Primitive>, n: string)
    requires multiset(a) == multiset(b)
    ensures Times(IdsOf(a), n) == Times(IdsOf(b), n)
    decreases |a|
  {
    if a == [] {
      assert |multiset(b)| == 0;
    } else {
      var k := PlaceIn(b, a[0]);
      TakenOut(a, 0);
      TakenOut(b, k);
      SamePrimitivesSameIds(TakeOut(a, 0), TakeOut(b, k), n);
      IdsWithout(a, 0, n);
      IdsWithout(b, k, n);
    }
  }

  lemma PlaceIn(a: seq<Primitive>, p: Primitive) returns (k: nat)
    requires p in multiset(a)
    ensures k < |a| && a[k] == p
  {
    k :| 0 <= k < |a| && a[k] == p;
  }

  lemma TakenOut(a: seq<Primitive>, k: nat)
    requires k < |a|
    ensures multiset(TakeOut(a, k)) == multiset(a) - multiset{a[k]} && |TakeOut(a, k)| == |a| - 1
    ensures a[k] in multiset(a)
  {
    assert a == a[..k] + [a[k]] + a[k + 1..];
  }

  lemma IdsWithout(a: seq<Primitive>, k: nat, n: string)
    requires k < |a|
    ensures Times(IdsOf(a), n) == Times(IdsOf(TakeOut(a, k)), n) + if a[k].id == n then 1 else 0
  {
    IdsAppend(a[..k], a[k + 1..]);
    IdsCons(a[k], a[k + 1..]);
    assert a == a[..k] + ([a[k]] + a[k + 1..]);
    IdsAppend(a[..k], [a[k]] + a[k + 1..]);
    TimesAppend(IdsOf(a[..k]), IdsOf(a[k + 1..]), n);
    TimesAppend(IdsOf(a[..k]), [a[k].id] + IdsOf(a[k + 1..]), n);
    TimesAppend([a[k].id], IdsOf(a[k + 1..]), n);
  }

  lemma PairTimes(a: seq<Resource>, b: seq<Resource>, n: string)
    ensures TimesIn(a + b, n) == TimesIn(a, n) + TimesIn(b, n)
  {
    AllItemsAppend(a, b);
    NamesAppend(AllItems(a), AllItems(b));
    TimesAppend(Names(AllItems(a)), Names(AllItems(b)), n);
  }

  lemma TailTimes(rs: seq<Resource>, moved: seq<Primitive>, n: string)
    ensures TimesIn(rs + Plains(moved), n) == TimesIn(rs, n) + Times(IdsOf(moved), n)
  {
    PairTimes(rs, Plains(moved), n);
    AllItemsOfPlains(moved);
    NamesOfSingles(moved);
  }

  lemma MiddleTimes(before: seq<Resource>, r: Resource, after: seq<Resource>, n: string)
    ensures TimesIn(before + [r] + after, n) == TimesIn(before, n) + Times(Names(Items(r)), n) + TimesIn(after, n)
  {
    PairTimes(before + [r], after, n);
    PairTimes(before, [r], n);
    AllItemsOfOne(r);
  }

  lemma ChildrenTimes(a: seq<Item>, b: seq<Item>, moved: seq<Primitive>, n: string)
    ensures Times(Names(a + b + Singles(moved)), n) == Times(Names(a), n) + Times(Names(b), n) + Times(IdsOf(moved), n)
  {
    NamesAppend(a + b, Singles(moved));
    NamesAppend(a, b);
    NamesOfSingles(moved);
    TimesAppend(Names(a + b), Names(Singles(moved)), n);
    TimesAppend(Names(a), Names(b), n);
  }

  lemma GroupTimes(g: Item, n: string)
    requires g.Group?
    ensures Times(Names([g]), n) == (if g.id == n then 1 else 0) + Times(IdsOf(g.members), n)
  {
    NamesOfGroup(g);
    TimesAppend([g.id], IdsOf(g.members), n);
  }

  /** How often `n` occurs beside the group. */
  function TimesBeside(s: Spot, n: string): nat
    requires IsGroupSpot(s)
  {
    Times(Names(Items(s.r)[..s.j]), n) + Times(Names(Items(s.r)[s.j + 1..]), n)
  }

  function TimesOutside(s: Spot, n: string): nat
    requires IsGroupSpot(s)
  {
    TimesIn(s.before, n) + TimesBeside(s, n) + TimesIn(s.after, n)
  }

  lemma GroupAmongTimes(a: seq<Item>, g: Item, b: seq<Item>, moved: seq<Primitive>, n: string)
    ensures Times(Names(a + [g] + b + Singles(moved)), n) ==
      Times(Names(a), n) + Times(Names([g]), n) + Times(Names(b), n) + Times(IdsOf(moved), n)
  {
    ChildrenTimes(a + [g], b, moved, n);
    NamesAppend(a, [g]);
    TimesAppend(Names(a), Names([g]), n);
  }

  lemma HeldPlainTimes(s: Spot, left: seq<Primitive>, n: string)
    requires IsGroupSpot(s) && s.r.Plain?
    ensures Times(Names(Items(Held(s, left, []))), n) ==
      TimesBeside(s, n) + (if TheGroup(s).id == n then 1 else 0) + Times(IdsOf(left), n)
    ensures Times(IdsOf([]), n) == 0
  {
    var xs, g := Items(s.r), Group(TheGroup(s).id, TheGroup(s).inner, left);
    assert Items(Held(s, left, [])) == [g];
    GroupTimes(g, n);
    assert xs[..s.j] == [] && xs[s.j + 1..] == [] && IdsOf([]) == [] && Names([]) == [];
  }

  lemma HeldCloneTimes(s: Spot, left: seq<Primitive>, moved: seq<Primitive>, n: string)
    requires IsGroupSpot(s) && s.r.Clone?
    ensures Times(Names(Items(Held(s, left, moved))), n) ==
      TimesBeside(s, n) + (if TheGroup(s).id == n then 1 else 0) + Times(IdsOf(left), n) + Times(IdsOf(moved), n)
  {
    var c, g := s.r.children, Group(TheGroup(s).id, TheGroup(s).inner, left);
    assert Items(Held(s, left, moved)) == c[..s.j] + [g] + c[s.j + 1..] + Singles(moved);
    GroupTimes(g, n);
    GroupAmongTimes(c[..s.j], g, c[s.j + 1..], moved, n);
  }

  lemma ArrangedTimes(s: Spot, left: seq<Primitive>, moved: seq<Primitive>, n: string)
    requires IsGroupSpot(s)
    ensures TimesIn(Arranged(s, left, moved), n) ==
      TimesOutside(s, n) + (if TheGroup(s).id == n then 1 else 0) + Times(IdsOf(left), n) + Times(IdsOf(moved), n)
  {
    if ToSection(s) {
      if s.r.Plain? { HeldPlainTimes(s, left, n); } else { HeldCloneTimes(s, left, [], n); }
      assert IdsOf([]) == [] && Times([], n) == 0;
      MiddleTimes(s.before, Held(s, left, []), s.after, n);
      TailTimes(s.before + [Held(s, left, [])] + s.after, moved, n);
    } else {
      HeldCloneTimes(s, left, moved, n);
      MiddleTimes(s.before, Held(s, left, moved), s.after, n);
    }
  }

  lemma UngroupedTimes(s: Spot, moved: seq<Primitive>, n: string)
    requires IsGroupSpot(s)
    ensures TimesIn(Ungrouped(s, moved), n) == TimesOutside(s, n) + Times(IdsOf(moved), n)
  {
    if s.r.Plain? {
      TailTimes(s.before + s.after, moved, n);
      PairTimes(s.before, s.after, n);
      assert Items(s.r)[..s.j] == [] && Items(s.r)[s.j + 1..] == [];
    } else {
      UngroupedCloneTimes(s, moved, n);
    }
  }

  lemma UngroupedCloneTimes(s: Spot, moved: seq<Primitive>, n: string)
    requires IsGroupSpot(s) && s.r.Clone?
    ensures TimesIn(Ungrouped(s, moved), n) == TimesOutside(s, n) + Times(IdsOf(moved), n)
  {
    var a, b := s.r.children[..s.j], s.r.children[s.j + 1..];
    if ToSection(s) {
      NamesAppend(a, b);
      TimesAppend(Names(a), Names(b), n);
      MiddleTimes(s.before, s.r.(children := a + b), s.after, n);
      TailTimes(s.before + [s.r.(children := a + b)] + s.after, moved, n);
    } else {
      ChildrenTimes(a, b, moved, n);
      MiddleTimes(s.before, s.r.(children := a + b + Singles(moved)), s.after, n);
    }
  }

  lemma NoIdLost(members: seq<Primitive>, names: seq<string>, n: string)
    requires Apart(members) && forall m <- names :: m in IdsOf(members)
    ensures Times(IdsOf(Remaining(members, names)), n) + Times(IdsOf(Moved(members, names)), n) ==
      Times(IdsOf(members), n)
  {
    var left, moved := Remaining(members, names), Moved(members, names);
    NobodyLost(members, names);
    SamePrimitivesSameIds(left + moved, members, n);
    IdsAppend(left, moved);
    TimesAppend(IdsOf(left), IdsOf(moved), n);
  }

  /** Every name occurs as often as before, the group's own once less if it went. */
  lemma ResultTimes(s: Spot, ids: seq<string>, n: string)
    requires IsGroupSpot(s) && Apart(TheGroup(s).members) && SpotOutcome(s, ids) == Done
    ensures TimesIn(Section(s), n) ==
      TimesIn(SpotResult(s, ids), n) + if NamesAll(s, ids) && TheGroup(s).id == n then 1 else 0
  {
    var members, names := TheGroup(s).members, Leavers(TheGroup(s), ids);
    NoIdLost(members, names, n);
    RemainingMembers(members, names);
    SectionIsArranged(s);
    ArrangedTimes(s, members, [], n);
    assert IdsOf([]) == [];
    if Remaining(members, names) == [] {
      UngroupedTimes(s, Moved(members, names), n);
    } else {
      ArrangedTimes(s, Remaining(members, names), Moved(members, names), n);
    }
  }

  lemma FewerAreUnique(a: seq<Resource>, b: seq<Resource>)
    requires Unique(Names(AllItems(a))) && forall n :: TimesIn(b, n) <= TimesIn(a, n)
    ensures Unique(Names(AllItems(b)))
  {
    var names, those := Names(AllItems(b)), Names(AllItems(a));
    forall n <- names ensures multiset(names)[n] == 1 {
      assert n in multiset(names) && TimesIn(b, n) > 0 && TimesIn(a, n) > 0;
      assert n in multiset(those) && n in those;
    }
  }

  /** So ids stay unique for the next command. */
  lemma GroupRmKeepsUnique(s: Spot, ids: seq<string>)
    requires IsGroupSpot(s) && Unique(Names(AllItems(Section(s)))) && SpotOutcome(s, ids) == Done
    ensures Unique(Names(AllItems(SpotResult(s, ids))))
  {
    MembersAreApart(s);
    forall n ensures TimesIn(SpotResult(s, ids), n) <= TimesIn(Section(s), n) {
      ResultTimes(s, ids, n);
    }
    FewerAreUnique(Section(s), SpotResult(s, ids));
  }

  // ----- the command ---------------------------------------------------------

  /** The group of that name, if there is one, and what the command makes of it. */
  function GroupRmOutcome(rs: seq<Resource>, name: string, ids: seq<string>): Outcome {
    if ResourcePlace(rs, GroupNamed(name)) == |rs| then NoSuchGroup
    else SpotOutcome(SpotOf(rs, name), ids)
  }

  /** Which calls are refused: for a group that is nowhere, and for a name that no member of it has. */
  lemma GroupRefusalsMean(rs: seq<Resource>, name: string, ids: seq<string>)
    ensures GroupRmOutcome(rs, name, ids) == NoSuchGroup <==>
      forall r <- rs, x <- Items(r) :: !(x.Group? && x.id == name)
    ensures GroupRmOutcome(rs, name, ids) == NotInGroup <==>
      && GroupRmOutcome(rs, name, ids) != NoSuchGroup
      && exists n <- ids :: forall p <- TheGroup(SpotOf(rs, name)).members :: p.id != n
  {
    var i := ResourcePlace(rs, GroupNamed(name));
    if i < |rs| {
      assert rs[i] in rs;
      var members := TheGroup(SpotOf(rs, name)).members;
      IdsMean(members);
      forall n <- ids ensures n !in IdsOf(members) <==> forall p <- members :: p.id != n {
      }
      assert Leavers(TheGroup(SpotOf(rs, name)), ids) == if ids == [] then IdsOf(members) else ids;
    } else {
      forall r <- rs, x <- Items(r) ensures !(x.Group? && x.id == name) {
        var k :| 0 <= k < |rs| && rs[k] == r;
        assert !Found(x, GroupNamed(name));
      }
    }
  }

  lemma IdsMean(ps: seq<Primitive>)
    ensures forall n :: n in IdsOf(ps) <==> exists p <- ps :: p.id == n
  {
    forall n ensures n in IdsOf(ps) <==> exists p <- ps :: p.id == n {
      if n in IdsOf(ps) {
        var k :| 0 <= k < |ps| && IdsOf(ps)[k] == n;
        assert ps[k] in ps;
      }
      if p :| p in ps && p.id == n {
        var k :| 0 <= k < |ps| && ps[k] == p;
        assert IdsOf(ps)[k] == n;
      }
    }
  }

  function SpotOf(rs: seq<Resource>, name: string): (s: Spot)
    requires ResourcePlace(rs, GroupNamed(name)) < |rs|
    ensures IsGroupSpot(s) && TheGroup(s).id == name && Section(s) == rs && |s.before| < |rs|
  {
    var i := ResourcePlace(rs, GroupNamed(name));
    Spot(rs[..i], rs[i], ItemPlace(Items(rs[i]), GroupNamed(name)), rs[i + 1..])
  }

  ghost predicate ToMove(members: seq<Primitive>, names: seq<string>, toMove: seq<Primitive>) {
    && |toMove| == |names|
    && forall k | 0 <= k < |names| :: names[k] in IdsOf(members) && toMove[k] == Find(members, names[k])
  }

  /** Detaching one primitive and appending it to the target. */
  lemma MoveArranged(s: Spot, left: seq<Primitive>, moved: seq<Primitive>, p: Primitive)
    requires IsGroupSpot(s) && p.id !in Others(s)
    ensures var (rs, i) := (Detach(Arranged(s, left, moved), p.id), |s.before|);
      && (!ToSection(s) ==> i < |rs| && rs[i].Clone?)
      && AppendAt(rs, i, ToSection(s), p) == Arranged(s, WithoutId(left, p.id), WithoutId(moved, p.id) + [p])
  {
    DetachArranged(s, left, moved, p.id);
    AppendArranged(s, WithoutId(left, p.id), WithoutId(moved, p.id), p);
  }

  lemma OneMoreName(members: seq<Primitive>, names: seq<string>, k: nat)
    requires k < |names| && forall n <- names[..k + 1] :: n in IdsOf(members)
    ensures names[..k + 1] == names[..k] + [names[k]] && forall n <- names[..k] :: n in IdsOf(members)
    ensures names[k] in IdsOf(members)
    ensures Remaining(members, names[..k + 1]) == WithoutId(Remaining(members, names[..k]), names[k])
    ensures Moved(members, names[..k + 1]) ==
      WithoutId(Moved(members, names[..k]), names[k]) + [Find(members, names[k])]
  {
    assert names[..k + 1] == names[..k] + [names[k]] && names[..k + 1][..k] == names[..k];
    assert names[k] in names[..k + 1];
    RemainingSnoc(members, names[..k], names[k]);
  }

  /** For names without repetition, a removal that is not refused keeps the section in shape, and every primitive. */
  lemma UngroupingKeepsShape(rs: seq<Resource>, name: string, ids: seq<string>)
    requires Unique(Names(AllItems(rs))) && NoEmptyGroups(AllItems(rs)) && OneChildEach(rs)
    requires NoRepeats(ids) && GroupRmOutcome(rs, name, ids) == Done
    ensures var result := SpotResult(SpotOf(rs, name), ids);
      && multiset(Primitives(AllItems(result))) == multiset(Primitives(AllItems(rs)))
      && NoEmptyGroups(AllItems(result)) && OneChildEach(result)
  {
    var s := SpotOf(rs, name);
    MemberOfAllItems(rs, TheGroup(s));
    assert rs[|s.before|] == s.r;
    MembersAreApart(s);
    RefusedWhenAllNamed(s, ids);
    GroupRmConserves(s, ids);
    GroupRmLeavesNoEmptyGroup(s, ids);
    GroupRmKeepsOneChild(s, ids);
  }

  class ResourcesElement {
    var resources: seq<Resource>

    constructor (resources: seq<Resource>)
      ensures this.resources == resources
    {
      this.resources := resources;
    }

    /** The nodes to move, or nothing if one of them is not in the group. */
    static method ResourcesToMove(members: seq<Primitive>, names: seq<string>)
      returns (toMove: seq<Primitive>, missing: bool)
      ensures missing <==> exists n <- names :: n !in IdsOf(members)
      ensures !missing ==> ToMove(members, names, toMove)
    {
      toMove, missing := [], false;
      for k := 0 to |names|
        invariant ToMove(members, names[..k], toMove)
      {
        if names[k] !in IdsOf(members) {
          missing := true;
          return;
        }
        toMove := toMove + [Find(members, names[k])];
      }
    }

    /** The loop: each node leaves its parent, the group or already the target, and is appended to the target. */
    method MoveAll(ghost s: Spot, i: nat, toSection: bool, toMove: seq<Primitive>, ghost names: seq<string>)
      requires IsGroupSpot(s) && i == |s.before| && toSection == ToSection(s) && resources == Section(s)
      requires Unique(Names(AllItems(resources)))
      requires ToMove(TheGroup(s).members, names, toMove)
      modifies this
      ensures forall n <- names :: n in IdsOf(TheGroup(s).members)
      ensures resources == Arranged(s, Remaining(TheGroup(s).members, names), Moved(TheGroup(s).members, names))
    {
      ghost var members := TheGroup(s).members;
      MembersAreApart(s);
      SectionIsArranged(s);
      RemainingNone(members);
      for k := 0 to |toMove|
        invariant forall n <- names[..k] :: n in IdsOf(members)
        invariant resources == Arranged(s, Remaining(members, names[..k]), Moved(members, names[..k]))
      {
        OneMoreName(members, names, k);
        MoveArranged(s, Remaining(members, names[..k]), Moved(members, names[..k]), toMove[k]);
        resources := Detach(resources, toMove[k].id);
        resources := AppendAt(resources, i, toSection, toMove[k]);
      }
      assert names[..|names|] == names;
    }

    /** All the checks once the group is found. */
    method CheckMove(ghost s: Spot, isClonedGroup: bool, members: seq<Primitive>, resourceIds: seq<string>)
      returns (outcome: Outcome, toMove: seq<Primitive>)
      requires IsGroupSpot(s) && isClonedGroup == Cloned(s) && members == TheGroup(s).members
      ensures outcome == SpotOutcome(s, resourceIds)
      ensures outcome == Done ==> ToMove(members, Leavers(TheGroup(s), resourceIds), toMove)
    {
      var names := if resourceIds == [] then IdsOf(members) else resourceIds;
      var missing;
      toMove, missing := ResourcesToMove(members, names);
      outcome :=
        if missing then NotInGroup
        else if isClonedGroup && |members| > 1 && |toMove| == |members| then CannotRemoveAll
        else Done;
    }

    /** All the changes once the checks have passed. */
    method MoveAndTidy(cib: Cib, ghost s: Spot, i: nat, j: nat, toSection: bool, toMove: seq<Primitive>,
                       ghost ids: seq<string>)
      returns (ending: Ending)
      requires IsGroupSpot(s) && i == |s.before| && j == s.j && toSection == ToSection(s) && resources == Section(s)
      requires Unique(Names(AllItems(resources))) && SpotOutcome(s, ids) == Done
      requires ToMove(TheGroup(s).members, Leavers(TheGroup(s), ids), toMove)
      requires cib.Valid(TheGroup(s).id)
      modifies this, cib
      ensures resources == SpotResult(s, ids)
      ensures if NamesAll(s, ids)
        then Removes(old(cib.tags), old(cib.rest), TheGroup(s).id, ending, cib.tags, cib.rest)
        else ending == Ended && cib.tags == old(cib.tags) && cib.rest == old(cib.rest)
    {
      ghost var members, names := TheGroup(s).members, Leavers(TheGroup(s), ids);
      MoveAll(s, i, toSection, toMove, names);
      RemainingMembers(members, names);
      HeldAtPlace(s, Remaining(members, names), Moved(members, names));
      if Items(resources[i])[j].members == [] {
        RemoveEmptied(s, Moved(members, names));
        var groupName := Items(resources[i])[j].id;
        resources := RemoveAt(resources, i, j);
        ending := cib.RemoveReferences(groupName);
      } else {
        ending := Ended;
      }
    }

    /** `outcome` is that of the checks. After them the removal of references to the group may still fail. */
    method ResourceGroupRm(cib: Cib, groupName: string, resourceIds: seq<string>)
      returns (outcome: Outcome, ending: Ending)
      requires Unique(Names(AllItems(resources)))
      requires cib.Valid(groupName)
      modifies this, cib
      ensures outcome == GroupRmOutcome(old(resources), groupName, resourceIds)
      ensures resources ==
        if outcome == Done then SpotResult(SpotOf(old(resources), groupName), resourceIds) else old(resources)
      ensures Unique(Names(AllItems(resources)))
      ensures if outcome == Done && NamesAll(SpotOf(old(resources), groupName), resourceIds)
        then Removes(old(cib.tags), old(cib.rest), groupName, ending, cib.tags, cib.rest)
        else ending == Ended && cib.tags == old(cib.tags) && cib.rest == old(cib.rest)
    {
      ending := Ended;
      var i := ResourcePlace(resources, GroupNamed(groupName));
      if i == |resources| {
        outcome := NoSuchGroup;
        return;
      }
      ghost var s := SpotOf(resources, groupName);
      var j := ItemPlace(Items(resources[i]), GroupNamed(groupName));
      var members, isClonedGroup := Items(resources[i])[j].members, resources[i].Clone?;
      var toMove;
      outcome, toMove := CheckMove(s, isClonedGroup, members, resourceIds);
      if outcome == Done {
        GroupRmKeepsUnique(s, resourceIds);
        ending := MoveAndTidy(cib, s, i, j, !isClonedGroup || |members| > 1, toMove, resourceIds);
      }
    }
  }

  /** The group is still where it was. */
  lemma HeldAtPlace(s: Spot, left: seq<Primitive>, moved: seq<Primitive>)
    requires IsGroupSpot(s)
    ensures var (rs, i) := (Arranged(s, left, moved), |s.before|);
      i < |rs| && s.j < |Items(rs[i])| && Items(rs[i])[s.j] == Group(TheGroup(s).id, TheGroup(s).inner, left)
  {
  }
}
