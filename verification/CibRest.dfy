/** The parts of a CIB other than tags that refer to resources, and what removing names makes of them. */
module CibRest {
  import opened Sequences
  import opened Constraints
  import opened ConstraintsInPlace
  import opened Tags

  /**
   * What the library lists for a name: constraints without sets, by id, and whether there are any with sets. It looks
   * them up outside this document, so its lists do not change with it.
   */
  datatype Listing = Listing(plain: map<string, seq<string>>, inSets: set<string>)

  datatype Rest = Rest(
    hasTopology: bool, levels: seq<string>, permissions: seq<string>, constraints: seq<Constraint>, listing: Listing)

  // ----- constraints without sets --------------------------------------------

  function PlainOf(listing: Listing, name: string): seq<string> {
    if name in listing.plain then listing.plain[name] else []
  }

  function PlainOfAll(listing: Listing, names: set<string>): set<string> {
    set y, id | y in names && id in PlainOf(listing, y) :: id
  }

  predicate HasId(cs: seq<Constraint>, id: string) {
    exists c <- cs :: c.id == id
  }

  function DropIds(cs: seq<Constraint>, ids: set<string>): seq<Constraint> {
    if cs == [] then []
    else (if cs[0].id in ids then [] else [cs[0]]) + DropIds(cs[1..], ids)
  }

  lemma {:induction false} DropIdsKeeps(cs: seq<Constraint>, ids: set<string>)
    ensures forall c :: c in DropIds(cs, ids) <==> c in cs && c.id !in ids
  {
    if cs != [] {
      assert cs == [cs[0]] + cs[1..];
      DropIdsKeeps(cs[1..], ids);
    }
  }

  lemma {:induction false} DropIdsTwice(cs: seq<Constraint>, a: set<string>, b: set<string>)
    ensures DropIds(DropIds(cs, a), b) == DropIds(cs, a + b)
  {
    if cs != [] {
      DropIdsTwice(cs[1..], a, b);
      assert ([cs[0]] + DropIds(cs[1..], a))[1..] == DropIds(cs[1..], a);
      assert [] + DropIds(cs[1..], a) == DropIds(cs[1..], a);
    }
  }

  lemma {:induction false} DropNoIds(cs: seq<Constraint>)
    ensures DropIds(cs, {}) == cs
  {
    if cs != [] {
      DropNoIds(cs[1..]);
    }
  }

  /** References go from constraints that keep their ids. */
  lemma {:induction false} IdsAndRefsCommute(cs: seq<Constraint>, ids: set<string>, drop: Ref -> bool)
    ensures DropIds(Filter(cs, drop), ids) == Filter(DropIds(cs, ids), drop)
  {
    if cs != [] {
      var c, others := cs[0], cs[1..];
      IdsAndRefsCommute(others, ids, drop);
      FilterAppend([c], DropIds(others, ids), drop);
      FilterOne(c, drop);
      var once := c.(sets := FilterSets(c.sets, drop));
      assert ([once] + Filter(others, drop))[1..] == Filter(others, drop);
      assert [] + Filter(others, drop) == Filter(others, drop);
      assert [] + DropIds(others, ids) == DropIds(others, ids);
    }
  }

  /** Constraints without sets come through the filter, and no others appear. */
  lemma {:induction false} FilterKeepsPlain(cs: seq<Constraint>, drop: Ref -> bool)
    ensures forall c <- cs | c.sets == [] :: c in Filter(cs, drop)
    ensures forall c <- Filter(cs, drop) ::
      exists d <- cs :: c.id == d.id && c == d.(sets := FilterSets(d.sets, drop))
  {
    if cs != [] {
      var others := cs[1..];
      assert cs == [cs[0]] + others;
      FilterKeepsPlain(others, drop);
      forall c <- Filter(cs, drop) ensures exists d <- cs :: c.id == d.id && c == d.(sets := FilterSets(d.sets, drop)) {
        if c in Filter(others, drop) {
          var d :| d in others && c.id == d.id && c == d.(sets := FilterSets(d.sets, drop));
          assert d in cs;
        } else {
          assert c in FilterConstraint(cs[0], drop);
        }
      }
    }
  }

  // ----- the filter ----------------------------------------------------------

  /** Listed constraints without sets go; references go from those with sets, and what that empties. */
  function FilterListed(cs: seq<Constraint>, listing: Listing, names: set<string>): seq<Constraint> {
    Filter(DropIds(cs, PlainOfAll(listing, names)), ByNames(names * listing.inSets))
  }

  lemma {:induction false} FilterListedTwice(cs: seq<Constraint>, listing: Listing, a: set<string>, b: set<string>)
    ensures FilterListed(FilterListed(cs, listing, a), listing, b) == FilterListed(cs, listing, a + b)
  {
    var (p, q) := (ByNames(a * listing.inSets), ByNames(b * listing.inSets));
    var (i, j) := (PlainOfAll(listing, a), PlainOfAll(listing, b));
    IdsAndRefsCommute(DropIds(cs, i), j, p);
    DropIdsTwice(cs, i, j);
    FilterTwice(DropIds(cs, i + j), p, q, ByNames((a + b) * listing.inSets));
    assert i + j == PlainOfAll(listing, a + b);
  }

  /** Fencing levels lose devices, permissions their elements; a topology without levels goes. */
  function FilterRest(rest: Rest, names: set<string>): Rest {
    var levels := FilterLevels(rest.levels, names);
    Rest(rest.hasTopology && levels != [], levels, FilterStrings(rest.permissions, names),
         FilterListed(rest.constraints, rest.listing, names), rest.listing)
  }

  lemma {:induction false} DropIdsSelects(cs: seq<Constraint>, ids: set<string>)
    ensures Selects(cs, DropIds(cs, ids), (c: Constraint) => c.id !in ids)
  {
    if cs != [] {
      DropIdsSelects(cs[1..], ids);
      var later := DropIds(cs[1..], ids);
      assert ([cs[0]] + later)[1..] == later && [] + later == later;
    }
  }

  /** Listed for one of the names. */
  predicate IsListed(listing: Listing, names: set<string>, id: string) {
    exists y <- names :: y in listing.plain && id in listing.plain[y]
  }

  /**
   * Of constraints, those listed without sets go, and the others stay in order without the references in their sets
   * that name one of `names` for which sets are listed, and without the sets and constraints that this empties.
   */
  lemma ListedMeans(cs: seq<Constraint>, listing: Listing, names: set<string>) returns (others: seq<Constraint>)
    ensures Selects(cs, others, (c: Constraint) => !IsListed(listing, names, c.id))
    ensures ConstraintsLeft(FilterListed(cs, listing, names), others,
      (r: Ref) => !(r.id in names && r.id in listing.inSets))
  {
    var ids := PlainOfAll(listing, names);
    others := DropIds(cs, ids);
    DropIdsSelects(cs, ids);
    forall id ensures id in ids <==> IsListed(listing, names, id) {
      if y :| y in names && y in listing.plain && id in listing.plain[y] {
        assert id in PlainOf(listing, y);
      }
    }
    SelectsSame(cs, others, (c: Constraint) => c.id !in ids, (c: Constraint) => !IsListed(listing, names, c.id));
    FilterMeans(others, ByNames(names * listing.inSets), (r: Ref) => !(r.id in names && r.id in listing.inSets));
  }

  /**
   * What removing names leaves: fencing levels with other devices stay, in order, each with those devices in their
   * order; the topology stays if a level does; permissions for other names stay, in order.
   */
  lemma RestMeans(rest: Rest, names: set<string>) returns (stay: seq<string>)
    ensures var after := FilterRest(rest, names);
      && Selects(rest.levels, stay, (l: string) => HasOthers(l, names)) && |stay| == |after.levels|
      && (forall k | 0 <= k < |stay| :: LeftOf(after.levels[k], stay[k], names))
      && (after.hasTopology <==> rest.hasTopology && exists l <- rest.levels :: HasOthers(l, names))
      && Selects(rest.permissions, after.permissions, (p: string) => p !in names)
      && after.listing == rest.listing
  {
    stay := LevelsMean(rest.levels, names);
    SelectedAre(rest.levels, stay, (l: string) => HasOthers(l, names));
    FilterStringsSelects(rest.permissions, names);
    assert stay != [] ==> stay[0] in stay;
  }

  lemma {:induction false} FilterRestTwice(rest: Rest, a: set<string>, b: set<string>)
    ensures FilterRest(FilterRest(rest, a), b) == FilterRest(rest, a + b)
  {
    FilterLevelsTwice(rest.levels, a, b);
    FilterStringsTwice(rest.permissions, a, b);
    FilterListedTwice(rest.constraints, rest.listing, a, b);
    assert FilterLevels([], b) == [];
  }

  // ----- what is listed has to be there --------------------------------------

  /**
   * Without a topology element there are no levels; elements in the sets of constraints are told apart; what is listed
   * as a constraint without sets has none, and is listed once for a name.
   */
  ghost predicate RestValid(rest: Rest) {
    && (!rest.hasTopology ==> rest.levels == []) && DistinctRefs(AllRefs(rest.constraints))
    && (forall c <- rest.constraints, y <- rest.listing.plain | c.id in rest.listing.plain[y] :: c.sets == [])
    && forall y <- rest.listing.plain :: NoRepeats(rest.listing.plain[y])
  }

  lemma {:induction false} FilterRestValid(rest: Rest, names: set<string>)
    requires RestValid(rest)
    ensures RestValid(FilterRest(rest, names))
  {
    var (cs, drop) := (DropIds(rest.constraints, PlainOfAll(rest.listing, names)), ByNames(names * rest.listing.inSets));
    assert rest.levels == [] ==> FilterLevels(rest.levels, names) == [];
    DropIdsRefs(rest.constraints, PlainOfAll(rest.listing, names));
    AllRefsOfFilter(cs, drop);
    FilterRefsKeeps(AllRefs(cs), drop);
    FilterKeepsPlain(cs, drop);
    DropIdsKeeps(rest.constraints, PlainOfAll(rest.listing, names));
  }

  lemma {:induction false} DropPlainValid(rest: Rest, names: set<string>)
    requires RestValid(rest)
    ensures RestValid(rest.(constraints := DropIds(rest.constraints, PlainOfAll(rest.listing, names))))
  {
    DropIdsRefs(rest.constraints, PlainOfAll(rest.listing, names));
    DropIdsKeeps(rest.constraints, PlainOfAll(rest.listing, names));
  }

  lemma {:induction false} DropIdsRefs(cs: seq<Constraint>, ids: set<string>)
    requires DistinctRefs(AllRefs(cs))
    ensures DistinctRefs(AllRefs(DropIds(cs, ids)))
    ensures forall r <- AllRefs(DropIds(cs, ids)) :: r in AllRefs(cs)
  {
    if cs != [] {
      var here, later := SetRefs(cs[0].sets), AllRefs(cs[1..]);
      DistinctSplit(here, later);
      DropIdsRefs(cs[1..], ids);
      var left := AllRefs(DropIds(cs[1..], ids));
      if cs[0].id in ids {
        assert [] + DropIds(cs[1..], ids) == DropIds(cs[1..], ids);
      } else {
        assert ([cs[0]] + DropIds(cs[1..], ids))[1..] == DropIds(cs[1..], ids);
        DistinctJoin(here, left, later);
      }
    }
  }

  lemma DistinctJoin(a: seq<Ref>, b: seq<Ref>, c: seq<Ref>)
    requires DistinctRefs(a + c) && DistinctRefs(a) && DistinctRefs(b) && forall r <- b :: r in c
    ensures DistinctRefs(a + b)
  {
    forall i, j | 0 <= i < |a| && 0 <= j < |b| ensures a[i].key != b[j].key {
      assert b[j] in c;
      var k :| 0 <= k < |c| && c[k] == b[j];
      assert (a + c)[i] == a[i] && (a + c)[|a| + k] == c[k];
    }
  }

  /**
   * All constraints listed for these names are in the document, and none is listed for two of them. The lists are
   * stale: for the second name the constraint is listed still, but not there to be removed.
   */
  ghost predicate Findable(rest: Rest, names: set<string>) {
    && (forall y <- names, id <- PlainOf(rest.listing, y) :: HasId(rest.constraints, id))
    && forall y <- names, z <- names, id <- PlainOf(rest.listing, y) :: id in PlainOf(rest.listing, z) ==> y == z
  }

  /** One listed constraint after the other is removed, as long as they are there. */
  function RemoveEach(cs: seq<Constraint>, ids: seq<string>): Option<seq<Constraint>>
    decreases |ids|
  {
    if ids == [] then Some(cs)
    else if HasId(cs, ids[0]) then RemoveEach(DropIds(cs, {ids[0]}), ids[1..])
    else None
  }

  lemma {:induction false} RemoveEachExactly(cs: seq<Constraint>, ids: seq<string>, gone: set<string>)
    requires NoRepeats(ids) && forall id :: id in gone <==> id in ids
    ensures RemoveEach(cs, ids) == if forall id <- ids :: HasId(cs, id) then Some(DropIds(cs, gone)) else None
    decreases |ids|
  {
    if ids == [] {
      DropNoIds(cs);
      assert gone == {};
    } else {
      var id, others := ids[0], ids[1..];
      assert ids == [id] + others;
      RemoveEachExactly(DropIds(cs, {id}), others, gone - {id});
      DropIdsTwice(cs, {id}, gone - {id});
      assert {id} + (gone - {id}) == gone;
      OtherIdsStay(cs, id, others);
    }
  }

  lemma OtherIdsStay(cs: seq<Constraint>, gone: string, ids: seq<string>)
    requires gone !in ids
    ensures forall id <- ids :: HasId(DropIds(cs, {gone}), id) <==> HasId(cs, id)
  {
    DropIdsKeeps(cs, {gone});
    forall id <- ids ensures HasId(DropIds(cs, {gone}), id) <==> HasId(cs, id) {
      if c :| c in cs && c.id == id {
        assert c in DropIds(cs, {gone});
      }
    }
  }

  lemma PlainIsDropped(rest: Rest, name: string)
    requires RestValid(rest)
    ensures RemoveEach(rest.constraints, PlainOf(rest.listing, name)) ==
      if Findable(rest, {name}) then Some(DropIds(rest.constraints, PlainOfAll(rest.listing, {name}))) else None
  {
    RemoveEachExactly(rest.constraints, PlainOf(rest.listing, name), PlainOfAll(rest.listing, {name}));
  }

  /** What is listed stays there until a name goes for which it is listed. */
  lemma StillFound(rest: Rest, names: set<string>, y: string, id: string)
    requires RestValid(rest) && id in PlainOf(rest.listing, y)
    ensures HasId(FilterRest(rest, names).constraints, id) <==>
      HasId(rest.constraints, id) && id !in PlainOfAll(rest.listing, names)
  {
    var ids, drop := PlainOfAll(rest.listing, names), ByNames(names * rest.listing.inSets);
    DropIdsKeeps(rest.constraints, ids);
    FilterKeepsPlain(DropIds(rest.constraints, ids), drop);
    if HasId(rest.constraints, id) && id !in ids {
      var c :| c in rest.constraints && c.id == id;
      assert c in Filter(DropIds(rest.constraints, ids), drop);
    }
  }

  lemma FindableTwice(rest: Rest, a: set<string>, b: set<string>)
    requires RestValid(rest) && a !! b
    ensures Findable(rest, a + b) <==> Findable(rest, a) && Findable(FilterRest(rest, a), b)
  {
    if Findable(rest, a + b) {
      FindableLater(rest, a, b);
    }
    if Findable(rest, a) && Findable(FilterRest(rest, a), b) {
      FindableTogether(rest, a, b);
    }
  }

  lemma FindableLater(rest: Rest, a: set<string>, b: set<string>)
    requires RestValid(rest) && a !! b && Findable(rest, a + b)
    ensures Findable(FilterRest(rest, a), b)
  {
    forall y <- b, id <- PlainOf(rest.listing, y) ensures HasId(FilterRest(rest, a).constraints, id) {
      StillFound(rest, a, y, id);
    }
  }

  lemma FindableTogether(rest: Rest, a: set<string>, b: set<string>)
    requires RestValid(rest) && Findable(rest, a) && Findable(FilterRest(rest, a), b)
    ensures Findable(rest, a + b)
  {
    forall y <- b, id <- PlainOf(rest.listing, y)
      ensures HasId(rest.constraints, id) && id !in PlainOfAll(rest.listing, a)
    {
      StillFound(rest, a, y, id);
    }
    forall y <- a, z <- b, id <- PlainOf(rest.listing, y) ensures id !in PlainOf(rest.listing, z) {
      assert id in PlainOfAll(rest.listing, a);
    }
  }

  /** A name that has gone before is found again only if nothing is listed for it. */
  lemma FoundAgain(rest: Rest, a: set<string>, name: string)
    requires RestValid(rest) && name in a
    ensures Findable(FilterRest(rest, a), {name}) <==> PlainOf(rest.listing, name) == []
  {
    var ids := PlainOf(rest.listing, name);
    if ids != [] {
      assert ids[0] in ids && ids[0] in PlainOfAll(rest.listing, a);
      StillFound(rest, a, name, ids[0]);
    }
  }
}
