/** `remove_resource_references` as it runs: over a stale snapshot, calling itself for tags it empties. */
module TagCascade {
  import opened Sequences
  import opened Strings
  import opened Constraints
  import opened ConstraintsInPlace
  import opened Tags
  import opened CibRest

  // ----- one reference -------------------------------------------------------

  lemma {:induction false} KeyInLater(here: seq<Ref>, later: seq<Ref>, key: nat)
    requires HasKey(here + later, key) && !HasKey(here, key)
    ensures HasKey(later, key)
  {
    var all := here + later;
    var k :| 0 <= k < |all| && all[k].key == key;
    assert k >= |here| && later[k - |here|].key == key;
  }

  /** The parent of a reference, by position. */
  function ParentOf(tags: seq<Tag>, key: nat): (i: nat)
    requires HasKey(SetRefs(tags), key)
    ensures i < |tags| && HasKey(tags[i].refs, key)
  {
    if HasKey(tags[0].refs, key) then 0
    else
      KeyInLater(tags[0].refs, SetRefs(tags[1..]), key);
      1 + ParentOf(tags[1..], key)
  }

  lemma {:induction false} DetachAtParent(tags: seq<Tag>, key: nat, i: nat, refs: seq<Ref>)
    requires HasKey(SetRefs(tags), key) && i == ParentOf(tags, key) && refs == DetachRef(tags[i].refs, key)
    ensures DetachInSets(tags, key) ==
      tags[..i] + (if refs == [] then [] else [tags[i].(refs := refs)]) + tags[i + 1..]
  {
    var kept := if refs == [] then [] else [tags[i].(refs := refs)];
    if i == 0 {
      assert tags[..0] + kept == kept;
    } else {
      KeyInLater(tags[0].refs, SetRefs(tags[1..]), key);
      DetachAtParent(tags[1..], key, i - 1, refs);
      assert tags[..i] == [tags[0]] + tags[1..][..i - 1];
      assert tags[1..][i..] == tags[i + 1..];
      ConcatAssociates([tags[0]], tags[1..][..i - 1], kept + tags[i + 1..]);
      ConcatAssociates(tags[1..][..i - 1], kept, tags[i + 1..]);
      ConcatAssociates(tags[..i], kept, tags[i + 1..]);
    }
  }

  function RemoveTag(tags: seq<Tag>, key: nat): seq<Tag> {
    if tags == [] then []
    else if tags[0].key == key then tags[1..]
    else [tags[0]] + RemoveTag(tags[1..], key)
  }

  lemma {:induction false} RemoveTagAt(a: seq<Tag>, t: Tag, b: seq<Tag>)
    requires forall x <- a :: x.key != t.key
    ensures RemoveTag(a + [t] + b, t.key) == a + b
  {
    if a == [] {
      assert a + [t] + b == [t] + b;
      assert a + b == b;
    } else {
      assert a[0] in a;
      assert (a + [t] + b)[1..] == a[1..] + [t] + b;
      RemoveTagAt(a[1..], t, b);
      assert [a[0]] + (a[1..] + b) == a + b;
    }
  }

  /** Filtering around an empty tag, which stays, and removing it then. */
  lemma {:induction false} FilterAroundEmpty(a: seq<Tag>, t: Tag, b: seq<Tag>, drop: Ref -> bool)
    requires t.refs == [] && forall x <- a :: x.key != t.key
    ensures RemoveTag(FilterSets(a + [t] + b, drop), t.key) == FilterSets(a + b, drop)
  {
    FilterSetsAppend(a + [t], b, drop);
    FilterSetsAppend(a, [t], drop);
    FilterSetsAppend(a, b, drop);
    FilterSetsOne(t, drop);
    assert FilterSet(t, drop) == [t];
    Survivors(a, drop);
    forall x <- FilterSets(a, drop) ensures x.key != t.key {
    }
    RemoveTagAt(FilterSets(a, drop), t, FilterSets(b, drop));
  }

  // ----- the names that go ---------------------------------------------------

  /** Drops a reference that names something removed, or one of the nodes already handled. */
  function Gone(removed: set<string>, keys: set<nat>): Ref -> bool {
    (r: Ref) => r.id in removed || r.key in keys
  }

  /** Holds the id of every tag that loses all its members with these names, and with the nodes `keys`. */
  ghost predicate Closed(tags: seq<Tag>, keys: set<nat>, names: set<string>) {
    forall t <- tags | Emptied(t, Gone(names, keys)) :: t.id in names
  }

  /** The least such names: once the nodes `keys` are gone, tags empty one another so far and no further. */
  ghost predicate LeastClosed(tags: seq<Tag>, keys: set<nat>, names: set<string>) {
    && Closed(tags, keys, names)
    && forall other: set<string> | Closed(tags, keys, other) :: names <= other
  }

  /** Those names: the ids of tags that no closed names are without. */
  ghost function LeastOf(tags: seq<Tag>, keys: set<nat>): set<string> {
    set t <- tags | Returns(tags, keys, t.id) :: t.id
  }

  /** Once the nodes `keys` are gone, tags empty one another up to the tag of this name. */
  ghost predicate Returns(tags: seq<Tag>, keys: set<nat>, name: string) {
    forall names: set<string> | Closed(tags, keys, names) :: name in names
  }

  lemma LeastOfIsLeast(tags: seq<Tag>, keys: set<nat>)
    ensures LeastClosed(tags, keys, LeastOf(tags, keys))
    ensures forall y :: y in LeastOf(tags, keys) <==> Returns(tags, keys, y)
  {
    var least := LeastOf(tags, keys);
    forall t <- tags | Emptied(t, Gone(least, keys)) ensures t.id in least {
      forall names: set<string> | Closed(tags, keys, names) ensures t.id in names {
        assert Emptied(t, Gone(names, keys));
      }
    }
    assert Closed(tags, keys, least);
  }

  lemma LeastIsEmptied(tags: seq<Tag>, keys: set<nat>, names: set<string>, y: string)
    requires LeastClosed(tags, keys, names) && y in names
    ensures exists t <- tags :: t.id == y && Emptied(t, Gone(names, keys))
  {
    var others := names - {y};
    if forall t <- tags | Emptied(t, Gone(names, keys)) :: t.id != y {
      forall t <- tags | Emptied(t, Gone(others, keys)) ensures t.id in others {
        assert Emptied(t, Gone(names, keys));
      }
      assert Closed(tags, keys, others);
    }
  }

  /** A tag that two removals empty together: by the first of them, or what that leaves by the second. */
  lemma EmptiedTwice(tags: seq<Tag>, t: Tag, p: Ref -> bool, q: Ref -> bool)
    requires t in tags && !Emptied(t, p)
    ensures var u := t.(refs := FilterRefs(t.refs, p));
      u in FilterSets(tags, p) && (Emptied(u, q) <==> t.refs != [] && forall r <- t.refs :: p(r) || q(r))
  {
    Survivors(tags, p);
    AllRefsDropped(t.refs, p);
    FilterRefsKeeps(t.refs, p);
  }

  lemma LeastTwice(tags: seq<Tag>, keys: set<nat>, a: set<string>, more: set<nat>, b: set<string>)
    requires LeastClosed(tags, keys, a) && LeastClosed(FilterSets(tags, Gone(a, keys)), more, b)
    ensures LeastClosed(tags, keys + more, a + b)
  {
    var p, all := Gone(a, keys), keys + more;
    forall t <- tags | Emptied(t, Gone(a + b, all)) ensures t.id in a + b {
      if !Emptied(t, p) {
        EmptiedTwice(tags, t, p, Gone(b, more));
      }
    }
    forall other: set<string> | Closed(tags, all, other) ensures a + b <= other {
      ClosedTwice(tags, keys, a, more, other);
    }
  }

  lemma ClosedTwice(tags: seq<Tag>, keys: set<nat>, a: set<string>, more: set<nat>, other: set<string>)
    requires LeastClosed(tags, keys, a) && Closed(tags, keys + more, other)
    ensures a <= other && Closed(FilterSets(tags, Gone(a, keys)), more, other)
  {
    var p := Gone(a, keys);
    forall t <- tags | Emptied(t, Gone(other, keys)) ensures t.id in other {
      assert Emptied(t, Gone(other, keys + more));
    }
    assert Closed(tags, keys, other);
    Survivors(tags, p);
    forall u <- FilterSets(tags, p) | Emptied(u, Gone(other, more)) ensures u.id in other {
      var t :| t in tags && !Emptied(t, p) && u == t.(refs := FilterRefs(t.refs, p));
      EmptiedTwice(tags, t, p, Gone(other, more));
      assert Emptied(t, Gone(other, keys + more));
    }
  }

  lemma {:induction false} FilterKeepsOneTagEach(tags: seq<Tag>, drop: Ref -> bool)
    requires OneTagEach(tags)
    ensures OneTagEach(FilterSets(tags, drop)) && |SetRefs(FilterSets(tags, drop))| <= |SetRefs(tags)|
  {
    SetRefsOfFilter(tags, drop);
    FilterRefsKeeps(SetRefs(tags), drop);
    FilterRefsShrinks(SetRefs(tags), drop);
    FilterKeepsTagKeys(tags, drop);
  }

  lemma {:induction false} FilterRefsShrinks(refs: seq<Ref>, drop: Ref -> bool)
    ensures |FilterRefs(refs, drop)| <= |refs|
    ensures (exists r <- refs :: drop(r)) ==> |FilterRefs(refs, drop)| < |refs|
  {
    if refs != [] {
      assert refs == [refs[0]] + refs[1..];
      FilterRefsShrinks(refs[1..], drop);
    }
  }

  lemma {:induction false} FilterKeepsTagKeys(tags: seq<Tag>, drop: Ref -> bool)
    requires DistinctTags(tags)
    ensures DistinctTags(FilterSets(tags, drop))
  {
    if tags != [] {
      FilterKeepsTagKeys(tags[1..], drop);
      assert DistinctTags(FilterSets(tags[1..], drop));
      Survivors(tags[1..], drop);
      var later := FilterSets(tags[1..], drop);
      forall j | 0 <= j < |later| ensures later[j].key != tags[0].key {
        assert later[j] in later;
        var t :| t in tags[1..] && later[j] == t.(refs := FilterRefs(t.refs, drop));
      }
      var first := FilterSet(tags[0], drop);
      var all := first + later;
      forall i, j | 0 <= i < j < |all| ensures all[i].key != all[j].key {
        var l := j - |first|;
        assert all[j] == later[l] && later[l].key != tags[0].key;
        if i >= |first| {
          var k := i - |first|;
          assert all[i] == later[k] && later[k].key != later[l].key;
        } else {
          assert all[i] == first[i] && first[i].key == tags[0].key;
        }
      }
    }
  }

  // ----- the one description of what goes ------------------------------------

  /** Holds the name asked for, and the id of every tag that loses all its members with these names. */
  ghost predicate Takes(tags: seq<Tag>, name: string, names: set<string>) {
    name in names && forall t <- tags | Emptied(t, ByNames(names)) :: t.id in names
  }

  /** The ids of the tags that go are all the names that go, apart from the name asked for. */
  ghost predicate RemovedExactly(tags: seq<Tag>, name: string, removed: set<string>) {
    && Takes(tags, name, removed)
    && forall y <- removed | y != name :: exists t <- tags :: t.id == y && Emptied(t, ByNames(removed))
  }

  /** No fewer names will do: the one description of what goes, even if tags refer to each other in a circle. */
  ghost predicate LeastRemoval(tags: seq<Tag>, name: string, removed: set<string>) {
    && RemovedExactly(tags, name, removed)
    && forall other: set<string> | Takes(tags, name, other) :: removed <= other
  }

  lemma {:induction false} RemovedWithRank(tags: seq<Tag>, name: string, removed: set<string>, other: set<string>,
                                           rank: string -> nat, y: string)
    requires Acyclic(tags, rank) && RemovedExactly(tags, name, removed) && Takes(tags, name, other) && y in removed
    ensures y in other
    decreases rank(y)
  {
    if y != name {
      var t :| t in tags && t.id == y && Emptied(t, ByNames(removed));
      forall r <- t.refs ensures r.id in other {
        assert ByNames(removed)(r);
        RemovedWithRank(tags, name, removed, other, rank, r.id);
      }
      assert Emptied(t, ByNames(other));
    }
  }

  /** Without circles it is enough that the tags that go are those that are emptied. */
  lemma AcyclicRemoval(tags: seq<Tag>, name: string, removed: set<string>, rank: string -> nat)
    requires Acyclic(tags, rank)
    ensures LeastRemoval(tags, name, removed) <==> RemovedExactly(tags, name, removed)
  {
    if RemovedExactly(tags, name, removed) {
      forall other: set<string> | Takes(tags, name, other) ensures removed <= other {
        forall y <- removed ensures y in other {
          RemovedWithRank(tags, name, removed, other, rank, y);
        }
      }
    }
  }

  /** In a circle it is not: two tags that hold each other fit, though nothing they hold has gone. */
  lemma CircleFits(tags: seq<Tag>, a: Tag, b: Tag)
    requires tags == [a, b] && a.id == "a" && a.refs == [Ref(0, "b")] && b.id == "b" && b.refs == [Ref(1, "a")]
    ensures LeastRemoval(tags, "x", {"x"})
    ensures RemovedExactly(tags, "x", {"x", "a", "b"}) && !LeastRemoval(tags, "x", {"x", "a", "b"})
  {
    CircleStands(tags, a, b);
    CircleGoes(tags, a, b);
  }

  lemma CircleStands(tags: seq<Tag>, a: Tag, b: Tag)
    requires tags == [a, b] && a.refs == [Ref(0, "b")] && b.refs == [Ref(1, "a")]
    ensures LeastRemoval(tags, "x", {"x"})
  {
    assert a.refs[0] in a.refs && b.refs[0] in b.refs;
    assert !Emptied(a, ByNames({"x"})) && !Emptied(b, ByNames({"x"}));
  }

  lemma CircleGoes(tags: seq<Tag>, a: Tag, b: Tag)
    requires tags == [a, b] && a.id == "a" && a.refs == [Ref(0, "b")] && b.id == "b" && b.refs == [Ref(1, "a")]
    ensures RemovedExactly(tags, "x", {"x", "a", "b"})
  {
    assert Emptied(a, ByNames({"x", "a", "b"})) && Emptied(b, ByNames({"x", "a", "b"}));
    assert a in tags && b in tags;
  }

  lemma {:induction false} UntouchedStays(tags: seq<Tag>, t: Tag, drop: Ref -> bool)
    requires t in tags && forall r <- t.refs :: !drop(r)
    ensures t in FilterSets(tags, drop)
  {
    Survivors(tags, drop);
    FilterRefsNothing(t.refs, drop);
    assert t.refs != [] ==> t.refs[0] in t.refs;
  }

  lemma ListedIsClean(cs: seq<Constraint>, listing: Listing, removed: set<string>)
    ensures forall r <- AllRefs(FilterListed(cs, listing, removed)) :: r.id in listing.inSets ==> r.id !in removed
    ensures forall c <- FilterListed(cs, listing, removed), y <- removed :: c.id !in PlainOf(listing, y)
  {
    var left, drop := DropIds(cs, PlainOfAll(listing, removed)), ByNames(removed * listing.inSets);
    AllRefsOfFilter(left, drop);
    FilterRefsKeeps(AllRefs(left), drop);
    FilterKeepsPlain(left, drop);
    DropIdsKeeps(cs, PlainOfAll(listing, removed));
  }

  /**
   * What the cascade leaves: no reference, device or permission for a name that went, and no tag without members
   * unless it had none before.
   */
  lemma {:induction false} CascadeIsClean(tags: seq<Tag>, rest: Rest, name: string, removed: set<string>)
    requires RemovedExactly(tags, name, removed)
    ensures var left := FilterSets(tags, ByNames(removed));
      && (forall r <- SetRefs(left) :: r.id != name && r.id !in removed)
      && (forall u <- left :: u.refs == [] ==> u in tags)
      && (forall t <- tags | t !in left :: exists r <- t.refs :: r.id in removed)
    ensures var left := FilterRest(rest, removed);
      && (forall l <- left.levels, d <- Fields(l, ',') :: d !in removed)
      && (forall p <- left.permissions :: p !in removed)
      && (forall r <- AllRefs(left.constraints) :: r.id in rest.listing.inSets ==> r.id !in removed)
      && (forall c <- left.constraints, y <- removed :: c.id !in PlainOf(rest.listing, y))
      && (left.hasTopology ==> left.levels != [])
  {
    var drop := ByNames(removed);
    SetRefsOfFilter(tags, drop);
    FilterRefsKeeps(SetRefs(tags), drop);
    Survivors(tags, drop);
    forall u <- FilterSets(tags, drop) | u.refs == [] ensures u in tags {
      var t :| t in tags && !Emptied(t, drop) && u == t.(refs := FilterRefs(t.refs, drop));
      AllRefsDropped(t.refs, drop);
    }
    forall t <- tags | t !in FilterSets(tags, drop) ensures exists r <- t.refs :: r.id in removed {
      if forall r <- t.refs :: r.id !in removed {
        UntouchedStays(tags, t, drop);
      }
    }
    LevelsAreClean(rest.levels, removed);
    FilterStringsTwice(rest.permissions, removed, removed);
    ListedIsClean(rest.constraints, rest.listing, removed);
  }
}
