/** When the tag cascade comes back to the name it began with, and then meets a node that is no longer in the document. */
module TagCircles {
  import opened Constraints
  import opened ConstraintsInPlace
  import opened ConstraintCommands
  import opened Tags
  import opened TagCascade

  /** There is a reference to the name such that those before it, once gone, empty the tag of this name. */
  ghost predicate ComesBack(tags: seq<Tag>, name: string) {
    var refs := SetRefs(tags);
    exists i | 0 <= i < |refs| :: refs[i].id == name && Returns(tags, MatchingKeys(refs[..i], name), name)
  }

  /** Without all references to the name, tags empty one another up to the tag of this name: it is removed twice. */
  ghost predicate Circles(tags: seq<Tag>, name: string) {
    Returns(tags, MatchingKeys(SetRefs(tags), name), name)
  }

  /** All names that go with a name. */
  ghost function Removal(tags: seq<Tag>, name: string): set<string> {
    LeastOf(tags, MatchingKeys(SetRefs(tags), name)) + {name}
  }

  /** Once all nodes of a name are among those that go, the name itself may be said to go. */
  lemma LeastByName(tags: seq<Tag>, keys: set<nat>, name: string, removed: set<string>)
    requires forall t <- tags, r <- t.refs :: r.key in keys <==> r.id == name
    requires LeastClosed(tags, keys, removed)
    ensures LeastRemoval(tags, name, removed + {name})
  {
    var all := removed + {name};
    forall t <- tags ensures Emptied(t, ByNames(all)) <==> Emptied(t, Gone(removed, keys)) {
    }
    forall y <- all | y != name ensures exists t <- tags :: t.id == y && Emptied(t, ByNames(all)) {
      LeastIsEmptied(tags, keys, removed, y);
    }
    forall other: set<string> | Takes(tags, name, other) ensures all <= other {
      forall t <- tags | Emptied(t, Gone(other, keys)) ensures t.id in other {
        assert Emptied(t, ByNames(other));
      }
      assert Closed(tags, keys, other);
    }
  }

  lemma RemovalIsLeast(tags: seq<Tag>, name: string)
    requires DistinctRefs(SetRefs(tags))
    ensures LeastRemoval(tags, name, Removal(tags, name))
  {
    var keys := MatchingKeys(SetRefs(tags), name);
    KeysMeanName(SetRefs(tags), name);
    forall t <- tags, r <- t.refs ensures r.key in keys <==> r.id == name {
      SetRefsMember(tags, r);
    }
    LeastOfIsLeast(tags, keys);
    LeastByName(tags, keys, name, LeastOf(tags, keys));
  }

  /** References before the `i`-th with a key of the name have the name. */
  lemma EarlierMeanName(tags: seq<Tag>, i: nat, name: string, t: Tag, r: Ref)
    requires DistinctRefs(SetRefs(tags)) && i <= |SetRefs(tags)| && t in tags && r in t.refs
    requires r.key in MatchingKeys(SetRefs(tags)[..i], name)
    ensures r.id == name
  {
    var refs := SetRefs(tags);
    SetRefsMember(tags, r);
    var k :| 0 <= k < |refs| && refs[k] == r;
    var j :| 0 <= j < i && refs[..i][j].id == name && refs[..i][j].key == r.key;
    assert refs[j].key == refs[k].key;
  }

  /** What the cascade gets at is doomed, and ranks above the name. */
  lemma RanksAreClosed(tags: seq<Tag>, i: nat, name: string, doomed: string -> bool, rank: string -> nat)
    requires DistinctRefs(SetRefs(tags)) && i <= |SetRefs(tags)| && Ranked(tags, doomed, rank) && doomed(name)
    ensures Closed(tags, MatchingKeys(SetRefs(tags)[..i], name), DoomedAbove(tags, doomed, rank, rank(name)))
  {
    var keys, names := MatchingKeys(SetRefs(tags)[..i], name), DoomedAbove(tags, doomed, rank, rank(name));
    forall t <- tags | Emptied(t, Gone(names, keys)) ensures t.id in names {
      forall r <- t.refs ensures doomed(r.id) && rank(name) <= rank(r.id) {
        assert Gone(names, keys)(r);
        if r.id !in names {
          EarlierMeanName(tags, i, name, t, r);
        }
      }
      assert t.refs[0] in t.refs;
    }
  }

  ghost function DoomedAbove(tags: seq<Tag>, doomed: string -> bool, rank: string -> nat, floor: nat): set<string> {
    set t <- tags | doomed(t.id) && rank(t.id) > floor :: t.id
  }

  /** Where names can be ranked the cascade goes up only, ... */
  lemma RankedNeverReturns(tags: seq<Tag>, name: string, doomed: string -> bool, rank: string -> nat)
    requires DistinctRefs(SetRefs(tags)) && Ranked(tags, doomed, rank) && doomed(name)
    ensures !ComesBack(tags, name) && !Circles(tags, name)
  {
    var refs := SetRefs(tags);
    forall i | 0 <= i <= |refs| ensures !Returns(tags, MatchingKeys(refs[..i], name), name) {
      RanksAreClosed(tags, i, name, doomed, rank);
    }
    assert refs[..|refs|] == refs;
  }

  /** ... it cannot come back to a name that is not that of a tag with members, ... */
  lemma WithoutMembersNeverReturns(tags: seq<Tag>, name: string)
    requires forall t <- tags :: t.id == name ==> t.refs == []
    ensures !ComesBack(tags, name) && !Circles(tags, name)
  {
    var names := set t <- tags | t.refs != [] :: t.id;
    assert forall i | 0 <= i < |SetRefs(tags)| :: Closed(tags, MatchingKeys(SetRefs(tags)[..i], name), names);
    assert Closed(tags, MatchingKeys(SetRefs(tags), name), names);
  }

  /** ... and a name that is referred to once has no reference left to come back to. */
  lemma SingleNeverReturns(tags: seq<Tag>, refs: seq<Ref>, name: string)
    requires refs == SetRefs(tags) && forall i, j | 0 <= i < j < |refs| :: refs[i].id != name || refs[j].id != name
    ensures !ComesBack(tags, name)
  {
    forall i | 0 <= i < |refs| && refs[i].id == name ensures !Returns(tags, MatchingKeys(refs[..i], name), name) {
      assert forall j | 0 <= j < i :: refs[..i][j].id != name;
      assert MatchingKeys(refs[..i], name) == {};
      forall t <- tags ensures !Emptied(t, Gone({}, {})) {
        assert t.refs != [] ==> t.refs[0] in t.refs && !Gone({}, {})(t.refs[0]);
      }
      assert Closed(tags, {}, {});
    }
  }

  /**
   * The tag "x" holds the tag "a", which holds "x", and so does "b". Whether the cascade for "x" meets the detached
   * node in "b" depends on the order of the tags alone.
   */
  lemma OrderDecides()
    ensures var (x, a, b) := (ResourceSet(0, "x", [Ref(0, "a")]), ResourceSet(1, "a", [Ref(1, "x")]),
                              ResourceSet(2, "b", [Ref(2, "x")]));
      ComesBack([x, a, b], "x") && !ComesBack([x, b, a], "x")
  {
    var (x, a, b) := (ResourceSet(0, "x", [Ref(0, "a")]), ResourceSet(1, "a", [Ref(1, "x")]),
                      ResourceSet(2, "b", [Ref(2, "x")]));
    SetRefsOfThree(x, a, b);
    SetRefsOfThree(x, b, a);
    TakesA([x, a, b], x, a);
    var refs := SetRefs([x, a, b]);
    assert refs[2].id == "x" && refs[..2] == [Ref(0, "a"), Ref(1, "x")];
    assert MatchingKeys(refs[..2], "x") == {1} by {
      assert refs[..2][1].key == 1;
    }
    forall i | 0 <= i < 3 && SetRefs([x, b, a])[i].id == "x"
      ensures !Returns([x, b, a], MatchingKeys(SetRefs([x, b, a])[..i], "x"), "x")
    {
      StopsAtB([x, b, a], x, b, a, MatchingKeys(SetRefs([x, b, a])[..i], "x"));
    }
  }

  lemma SetRefsOfThree(a: Tag, b: Tag, c: Tag)
    requires |a.refs| == |b.refs| == |c.refs| == 1
    ensures SetRefs([a, b, c]) == [a.refs[0], b.refs[0], c.refs[0]]
  {
    assert SetRefs([c]) == c.refs + SetRefs([]);
    assert [b, c][1..] == [c] && [a, b, c][1..] == [b, c];
  }

  lemma TakesA(tags: seq<Tag>, x: Tag, a: Tag)
    requires x in tags && a in tags && x.id == "x" && x.refs == [Ref(0, "a")] && a.id == "a" && a.refs == [Ref(1, "x")]
    ensures Returns(tags, {1}, "x")
  {
    forall names: set<string> | Closed(tags, {1}, names) ensures "x" in names {
      assert Emptied(a, Gone(names, {1}));
      assert Emptied(x, Gone(names, {1}));
    }
  }

  lemma StopsAtB(tags: seq<Tag>, x: Tag, b: Tag, a: Tag, keys: set<nat>)
    requires tags == [x, b, a] && x.refs == [Ref(0, "a")] && b.id == "b" && a.refs == [Ref(1, "x")]
    requires keys <= {2}
    ensures !Returns(tags, keys, "x")
  {
    var names := {"b"};
    assert x.refs[0] in x.refs && !Gone(names, keys)(x.refs[0]);
    assert a.refs[0] in a.refs && !Gone(names, keys)(a.refs[0]);
    assert Closed(tags, keys, names);
  }
}
