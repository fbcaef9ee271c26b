/** Tags that refer to each other, fencing levels and ACL permissions: what removing names leaves of them. */
module Tags {
  import opened Sequences
  import opened Strings
  import opened Constraints
  import opened ConstraintsInPlace

  /** A tag holds references just as a resource set does, and goes when it is emptied. */
  type Tag = ResourceSet

  // ----- surviving and vanishing tags ----------------------------------------

  ghost predicate Emptied(t: Tag, drop: Ref -> bool) {
    t.refs != [] && forall r <- t.refs :: drop(r)
  }

  /** Where the tags of a filtered list come from, and which come through. */
  lemma {:induction false} Survivors(tags: seq<Tag>, drop: Ref -> bool)
    ensures forall t <- tags | !Emptied(t, drop) :: t.(refs := FilterRefs(t.refs, drop)) in FilterSets(tags, drop)
    ensures forall u <- FilterSets(tags, drop) ::
      exists t <- tags :: !Emptied(t, drop) && u == t.(refs := FilterRefs(t.refs, drop))
  {
    if tags != [] {
      var t, others := tags[0], tags[1..];
      assert tags == [t] + others;
      Survivors(others, drop);
      AllRefsDropped(t.refs, drop);
      forall u <- FilterSets(tags, drop)
        ensures exists t <- tags :: !Emptied(t, drop) && u == t.(refs := FilterRefs(t.refs, drop))
      {
        if u in FilterSets(others, drop) {
          var s :| s in others && !Emptied(s, drop) && u == s.(refs := FilterRefs(s.refs, drop));
          assert s in tags;
        } else {
          assert u in FilterSet(t, drop);
        }
      }
    }
  }

  /** Tags are told apart, and so are references. */
  ghost predicate OneTagEach(tags: seq<Tag>) {
    DistinctRefs(SetRefs(tags)) && DistinctTags(tags)
  }

  ghost predicate DistinctTags(tags: seq<Tag>) {
    forall i, j | 0 <= i < j < |tags| :: tags[i].key != tags[j].key
  }

  // ----- what can be emptied -------------------------------------------------

  /**
   * `doomed` holds every name that removing doomed names can get at: a tag all of whose members are doomed is
   * doomed, and ranks above its members.
   */
  ghost predicate Ranked(tags: seq<Tag>, doomed: string -> bool, rank: string -> nat) {
    forall t <- tags | t.refs != [] && forall r <- t.refs :: doomed(r.id) ::
      doomed(t.id) && forall r <- t.refs :: rank(r.id) < rank(t.id)
  }

  /** Tag-to-tag references without a cycle: every tag ranks above its members. */
  ghost predicate Acyclic(tags: seq<Tag>, rank: string -> nat) {
    forall t <- tags, r <- t.refs :: rank(r.id) < rank(t.id)
  }

  lemma {:induction false} AcyclicIsRanked(tags: seq<Tag>, rank: string -> nat)
    requires Acyclic(tags, rank)
    ensures Ranked(tags, (s: string) => true, rank)
  {
  }

  ghost predicate UniqueTagIds(tags: seq<Tag>) {
    forall t <- tags, u <- tags :: t.id == u.id ==> t == u
  }

  /** Ids of tags are unique, and the name to remove is not the id of a tag with members. */
  ghost predicate UniqueIds(tags: seq<Tag>, name: string) {
    UniqueTagIds(tags) && forall t <- tags :: t.id == name ==> t.refs == []
  }

  ghost predicate RankedSoFar(tags: seq<Tag>, ranks: map<string, nat>) {
    forall t <- tags | t.refs != [] && t.id in ranks ::
      forall r <- t.refs :: r.id in ranks && ranks[r.id] < ranks[t.id]
  }

  function DoomedBy(ranks: map<string, nat>): string -> bool {
    (s: string) => s in ranks
  }

  function RankBy(ranks: map<string, nat>): string -> nat {
    (s: string) => if s in ranks then ranks[s] else 0
  }

  /** With unique ids, cyclic references do no harm: the names that removal gets at can be ranked as it gets at them. */
  lemma {:induction false} UniqueIsRanked(tags: seq<Tag>, name: string) returns (ranks: map<string, nat>)
    requires UniqueIds(tags, name)
    ensures name in ranks && Ranked(tags, DoomedBy(ranks), RankBy(ranks))
  {
    ranks := map[name := 0];
    var top, left := 1, set t <- tags :: t.id;
    while exists t <- tags :: t.refs != [] && t.id !in ranks && forall r <- t.refs :: r.id in ranks
      invariant name in ranks && RankedSoFar(tags, ranks)
      invariant forall s <- ranks :: ranks[s] < top
      invariant forall t <- tags | t.id !in ranks :: t.id in left
      decreases left
    {
      var t :| t in tags && t.refs != [] && t.id !in ranks && forall r <- t.refs :: r.id in ranks;
      ranks := ranks[t.id := top];
      left := left - {t.id};
      top := top + 1;
    }
  }

  /** Some ranking covers what removing `name` can get at. */
  ghost predicate Rankable(tags: seq<Tag>, name: string) {
    exists doomed: string -> bool, rank: string -> nat :: Ranked(tags, doomed, rank) && doomed(name)
  }

  /** Ids of tags are unique, as in any document, or else names can be ranked. */
  ghost predicate Orderly(tags: seq<Tag>, name: string) {
    UniqueTagIds(tags) || Rankable(tags, name)
  }

  lemma UniqueFilter(tags: seq<Tag>, drop: Ref -> bool)
    requires UniqueTagIds(tags)
    ensures UniqueTagIds(FilterSets(tags, drop))
  {
    Survivors(tags, drop);
  }

  lemma {:induction false} RankedFilter(tags: seq<Tag>, doomed: string -> bool, rank: string -> nat, drop: Ref -> bool)
    requires Ranked(tags, doomed, rank) && forall t <- tags, r <- t.refs :: drop(r) ==> doomed(r.id)
    ensures Ranked(FilterSets(tags, drop), doomed, rank)
  {
    Survivors(tags, drop);
    forall u <- FilterSets(tags, drop) | u.refs != [] && forall r <- u.refs :: doomed(r.id)
      ensures doomed(u.id) && forall r <- u.refs :: rank(r.id) < rank(u.id)
    {
      var t :| t in tags && !Emptied(t, drop) && u == t.(refs := FilterRefs(t.refs, drop));
      FilterRefsKeeps(t.refs, drop);
    }
  }

  // ----- fencing levels ------------------------------------------------------

  function FilterStrings(xs: seq<string>, names: set<string>): seq<string> {
    if xs == [] then []
    else (if xs[0] in names then [] else [xs[0]]) + FilterStrings(xs[1..], names)
  }

  /** The `devices` attribute of a level without some devices; none if it had no others. */
  function FilterLevel(devices: string, names: set<string>): seq<string> {
    var left := FilterStrings(Fields(devices, ','), names);
    if left == [] then [] else [Join(left, ',')]
  }

  function FilterLevels(levels: seq<string>, names: set<string>): seq<string> {
    if levels == [] then [] else FilterLevel(levels[0], names) + FilterLevels(levels[1..], names)
  }

  /** Just the names asked for are taken out, and the others stay in order. */
  lemma {:induction false} FilterStringsSelects(xs: seq<string>, names: set<string>)
    ensures Selects(xs, FilterStrings(xs, names), (x: string) => x !in names)
  {
    if xs != [] {
      FilterStringsSelects(xs[1..], names);
      var later := FilterStrings(xs[1..], names);
      assert ([xs[0]] + later)[1..] == later && [] + later == later;
    }
  }

  /** A level goes exactly if all its devices do; else it is left with the others, in their order. */
  lemma LevelMeans(devices: string, names: set<string>)
    ensures var (fields, left) := (Fields(devices, ','), FilterLevel(devices, names));
      && (left == [] <==> forall d <- fields :: d in names)
      && (left != [] ==> |left| == 1 && Selects(fields, Fields(left[0], ','), (d: string) => d !in names))
  {
    var fields := Fields(devices, ',');
    var left := FilterStrings(fields, names);
    FilterStringsSelects(fields, names);
    SelectedAre(fields, left, (d: string) => d !in names);
    assert left != [] ==> left[0] in left;
    if left != [] {
      FieldsAreClean(devices, ',');
      FieldsOfJoin(left, ',');
    }
  }

  /** The level before a level that is left: the same devices but for those that went. */
  ghost predicate LeftOf(level: string, before: string, names: set<string>) {
    Selects(Fields(before, ','), Fields(level, ','), (d: string) => d !in names)
  }

  predicate HasOthers(level: string, names: set<string>) {
    exists d <- Fields(level, ',') :: d !in names
  }

  /** Level by level: those with other devices stay, in order, each with its other devices. */
  lemma {:induction false} LevelsMean(levels: seq<string>, names: set<string>) returns (stay: seq<string>)
    ensures Selects(levels, stay, (l: string) => HasOthers(l, names))
    ensures |stay| == |FilterLevels(levels, names)|
    ensures forall k | 0 <= k < |stay| :: LeftOf(FilterLevels(levels, names)[k], stay[k], names)
  {
    stay := [];
    if levels != [] {
      var others := LevelsMean(levels[1..], names);
      LevelMeans(levels[0], names);
      var here := FilterLevel(levels[0], names);
      var later := FilterLevels(levels[1..], names);
      if HasOthers(levels[0], names) {
        stay := [levels[0]] + others;
        assert stay[1..] == others && FilterLevels(levels, names) == [here[0]] + later;
      } else {
        stay := others;
        assert FilterLevels(levels, names) == later;
      }
    }
  }

  lemma {:induction false} FilterStringsTwice(xs: seq<string>, a: set<string>, b: set<string>)
    ensures FilterStrings(FilterStrings(xs, a), b) == FilterStrings(xs, a + b)
    ensures forall x <- FilterStrings(xs, a) :: x in xs && x !in a
  {
    if xs != [] {
      assert xs == [xs[0]] + xs[1..];
      FilterStringsTwice(xs[1..], a, b);
      var kept := FilterStrings(xs[1..], a);
      assert ([xs[0]] + kept)[1..] == kept && [] + kept == kept;
    }
  }

  lemma {:induction false} FilterStringsNothing(xs: seq<string>, names: set<string>)
    requires forall x <- xs :: x !in names
    ensures FilterStrings(xs, names) == xs
  {
    if xs != [] {
      assert xs[0] in xs;
      FilterStringsNothing(xs[1..], names);
    }
  }

  lemma {:induction false} FilterLevelsAppend(a: seq<string>, b: seq<string>, names: set<string>)
    ensures FilterLevels(a + b, names) == FilterLevels(a, names) + FilterLevels(b, names)
  {
    if a == [] {
      assert a + b == b;
    } else {
      assert (a + b)[1..] == a[1..] + b;
      FilterLevelsAppend(a[1..], b, names);
      ConcatAssociates(FilterLevel(a[0], names), FilterLevels(a[1..], names), FilterLevels(b, names));
    }
  }

  lemma {:induction false} FilterLevelTwice(devices: string, a: set<string>, b: set<string>)
    ensures FilterLevels(FilterLevel(devices, a), b) == FilterLevel(devices, a + b)
  {
    var fields := Fields(devices, ',');
    var left := FilterStrings(fields, a);
    FieldsAreClean(devices, ',');
    FilterStringsTwice(fields, a, b);
    if left == [] {
      assert FilterStrings(fields, a + b) == FilterStrings([], b);
    } else {
      FieldsOfJoin(left, ',');
      assert FilterLevels([Join(left, ',')][1..], b) == [];
    }
  }

  lemma {:induction false} FilterLevelsTwice(levels: seq<string>, a: set<string>, b: set<string>)
    ensures FilterLevels(FilterLevels(levels, a), b) == FilterLevels(levels, a + b)
  {
    if levels != [] {
      FilterLevelsTwice(levels[1..], a, b);
      FilterLevelsAppend(FilterLevel(levels[0], a), FilterLevels(levels[1..], a), b);
      FilterLevelTwice(levels[0], a, b);
    }
  }

  /** No level lists a removed device any more. */
  lemma {:induction false} LevelsAreClean(levels: seq<string>, names: set<string>)
    ensures forall l <- FilterLevels(levels, names), d <- Fields(l, ',') :: d !in names
  {
    if levels != [] {
      LevelsAreClean(levels[1..], names);
      var fields := Fields(levels[0], ',');
      var left := FilterStrings(fields, names);
      FieldsAreClean(levels[0], ',');
      FilterStringsTwice(fields, names, names);
      if left != [] {
        FieldsOfJoin(left, ',');
      }
    }
  }
}
