/** `uniq` and `sort` of the Ruby code, and why sorted lists without repetition are canonical. */
module Ordering {
  import opened Sequences

  /** Keeps the first of equal elements. */
  function Uniq<T(==)>(s: seq<T>): (r: seq<T>)
    ensures forall x <- r :: x in s
    ensures |r| <= |s|
  {
    if s == [] then []
    else
      var front, last := s[..|s| - 1], s[|s| - 1];
      assert s == front + [last];
      var r := Uniq(front);
      if last in r then r else r + [last]
  }

  lemma {:induction false} UniqIsUniq<T>(s: seq<T>)
    ensures NoRepeats(Uniq(s))
    ensures forall x <- s :: x in Uniq(s)
  {
    if s != [] {
      var front, last := s[..|s| - 1], s[|s| - 1];
      assert s == front + [last];
      UniqIsUniq(front);
    }
  }

  lemma {:induction false} UniqOfNoRepeats<T>(s: seq<T>)
    requires NoRepeats(s)
    ensures Uniq(s) == s
  {
    if s != [] {
      UniqOfNoRepeats(s[..|s| - 1]);
      assert s == s[..|s| - 1] + [s[|s| - 1]];
    }
  }

  /** Elements stand in the order in which they come first. */
  lemma {:induction false} UniqInOrder<T>(s: seq<T>, i: nat, j: nat) returns (k: nat)
    requires i < j < |Uniq(s)|
    ensures k <= |s| && Uniq(s)[i] in s[..k] && Uniq(s)[j] !in s[..k]
  {
    var front, last := s[..|s| - 1], s[|s| - 1];
    assert s == front + [last];
    if j < |Uniq(front)| {
      k := UniqInOrder(front, i, j);
      assert s[..k] == front[..k];
    } else {
      UniqIsUniq(front);
      k := |front|;
      assert s[..k] == front && Uniq(s)[j] == last;
    }
  }

  /** Appending what is there already changes nothing. */
  lemma {:induction false} UniqAbsorbs<T>(s: seq<T>, more: seq<T>)
    requires forall x <- more :: x in s
    ensures Uniq(s + more) == Uniq(s)
  {
    if more == [] {
      assert s + more == s;
    } else {
      var front, last := more[..|more| - 1], more[|more| - 1];
      assert more == front + [last];
      assert (s + more)[..|s + more| - 1] == s + front;
      UniqAbsorbs(s, front);
      UniqIsUniq(s);
    }
  }

  // ----- strict orders -------------------------------------------------------

  ghost predicate StrictOrder<T(!new)>(less: (T, T) -> bool) {
    && (forall x :: !less(x, x))
    && (forall x, y, z :: less(x, y) && less(y, z) ==> less(x, z))
  }

  ghost predicate Sorted<T(!new)>(s: seq<T>, less: (T, T) -> bool) {
    forall i, j | 0 <= i < j < |s| :: less(s[i], s[j])
  }

  ghost predicate Comparable<T(!new)>(s: seq<T>, less: (T, T) -> bool) {
    forall x <- s, y <- s :: x == y || less(x, y) || less(y, x)
  }

  function Insert<T>(x: T, s: seq<T>, less: (T, T) -> bool): seq<T> {
    if s == [] then [x]
    else if less(x, s[0]) then [x] + s
    else [s[0]] + Insert(x, s[1..], less)
  }

  function Sort<T>(s: seq<T>, less: (T, T) -> bool): seq<T> {
    if s == [] then [] else Insert(s[0], Sort(s[1..], less), less)
  }

  lemma {:induction false} InsertSorts<T(!new)>(x: T, s: seq<T>, less: (T, T) -> bool)
    requires StrictOrder(less) && Sorted(s, less)
    requires forall y <- s :: less(x, y) || less(y, x)
    ensures Sorted(Insert(x, s, less), less)
    ensures forall y :: y in Insert(x, s, less) <==> y == x || y in s
  {
    if s != [] && !less(x, s[0]) {
      assert s == [s[0]] + s[1..];
      InsertSorts(x, s[1..], less);
      var r := Insert(x, s[1..], less);
      forall y <- r ensures less(s[0], y) {
        if y != x { assert y in s[1..]; }
      }
    }
  }

  lemma {:induction false} SortSorts<T(!new)>(s: seq<T>, less: (T, T) -> bool)
    requires StrictOrder(less) && NoRepeats(s) && Comparable(s, less)
    ensures Sorted(Sort(s, less), less)
    ensures forall y :: y in Sort(s, less) <==> y in s
  {
    if s != [] {
      assert s == [s[0]] + s[1..];
      SortSorts(s[1..], less);
      forall y <- s[1..] ensures less(s[0], y) || less(y, s[0]) {
        assert y in s && s[0] in s && y != s[0];
      }
      InsertSorts(s[0], Sort(s[1..], less), less);
    }
  }

  /** The elements determine the sorted list. */
  lemma {:induction false} SortedIsCanonical<T(!new)>(a: seq<T>, b: seq<T>, less: (T, T) -> bool)
    requires StrictOrder(less) && Sorted(a, less) && Sorted(b, less)
    requires forall x :: x in a <==> x in b
    ensures a == b
  {
    assert a != [] ==> a[0] in a;
    assert b != [] ==> b[0] in b;
    if a != [] && b != [] {
      SameHead(a, b, less);
      assert a == [a[0]] + a[1..] && b == [b[0]] + b[1..];
      forall x ensures x in a[1..] <==> x in b[1..] {
        assert x in a[1..] ==> x in a && less(a[0], x);
        assert x in b[1..] ==> x in b && less(b[0], x);
      }
      SortedIsCanonical(a[1..], b[1..], less);
    }
  }

  lemma SameHead<T(!new)>(a: seq<T>, b: seq<T>, less: (T, T) -> bool)
    requires StrictOrder(less) && Sorted(a, less) && Sorted(b, less)
    requires forall x :: x in a <==> x in b
    requires a != [] && b != []
    ensures a[0] == b[0]
  {
    var i :| 0 <= i < |b| && b[i] == a[0] by { assert a[0] in b; }
    var j :| 0 <= j < |a| && a[j] == b[0] by { assert b[0] in a; }
    assert i > 0 ==> less(b[0], a[0]);
  }

  // ----- strings -------------------------------------------------------------

  predicate Less(a: string, b: string) {
    b != [] && (a == [] || a[0] < b[0] || (a[0] == b[0] && Less(a[1..], b[1..])))
  }

  lemma {:induction false} LessIsIrreflexive(a: string)
    ensures !Less(a, a)
  {
    if a != [] { LessIsIrreflexive(a[1..]); }
  }

  lemma {:induction false} LessIsTransitive(a: string, b: string, c: string)
    requires Less(a, b) && Less(b, c)
    ensures Less(a, c)
  {
    if a != [] && a[0] == b[0] == c[0] { LessIsTransitive(a[1..], b[1..], c[1..]); }
  }

  lemma {:induction false} LessIsTotal(a: string, b: string)
    ensures a == b || Less(a, b) || Less(b, a)
  {
    if a != [] && b != [] && a[0] == b[0] {
      LessIsTotal(a[1..], b[1..]);
      assert a == [a[0]] + a[1..] && b == [b[0]] + b[1..];
    }
  }

  /** The strings agree up to `k`, where the first ends or has the smaller character. */
  predicate LessAt(a: string, b: string, k: nat) {
    k <= |a| && k < |b| && a[..k] == b[..k] && (k == |a| || a[k] < b[k])
  }

  lemma {:induction false} LessHasPlace(a: string, b: string) returns (k: nat)
    requires Less(a, b)
    ensures LessAt(a, b, k)
  {
    k := 0;
    if a != [] && a[0] == b[0] {
      var later := LessHasPlace(a[1..], b[1..]);
      k := later + 1;
      assert a[..k] == [a[0]] + a[1..][..later] && b[..k] == [b[0]] + b[1..][..later];
    }
  }

  lemma {:induction false} LessFromPlace(a: string, b: string, k: nat)
    requires LessAt(a, b, k)
    ensures Less(a, b)
  {
    if k > 0 {
      assert a[0] == a[..k][0] && b[0] == b[..k][0];
      assert a[1..][..k - 1] == a[..k][1..] && b[1..][..k - 1] == b[..k][1..];
      LessFromPlace(a[1..], b[1..], k - 1);
    }
  }

  /** Strings are ordered by the first character in which they differ; a prefix comes first. */
  ghost predicate Before(a: string, b: string) {
    exists k: nat :: LessAt(a, b, k)
  }

  lemma LessMeans(a: string, b: string)
    ensures Less(a, b) <==> Before(a, b)
  {
    if Less(a, b) {
      var _ := LessHasPlace(a, b);
    }
    if k: nat :| LessAt(a, b, k) {
      LessFromPlace(a, b, k);
    }
  }

  lemma StringsAreOrdered()
    ensures StrictOrder(Less)
  {
    forall a ensures !Less(a, a) { LessIsIrreflexive(a); }
    forall a, b, c | Less(a, b) && Less(b, c) ensures Less(a, c) { LessIsTransitive(a, b, c); }
  }

  lemma StringsCompare(s: seq<string>)
    ensures Comparable(s, Less)
  {
    forall x <- s, y <- s ensures x == y || Less(x, y) || Less(y, x) { LessIsTotal(x, y); }
  }

  /** Ruby's `s.uniq.sort`. */
  function UniqSort(s: seq<string>): seq<string> {
    Sort(Uniq(s), Less)
  }

  lemma UniqSortSorts(s: seq<string>)
    ensures Sorted(UniqSort(s), Less) && NoRepeats(UniqSort(s))
    ensures forall x :: x in UniqSort(s) <==> x in s
  {
    UniqIsUniq(s);
    StringsAreOrdered();
    StringsCompare(Uniq(s));
    SortSorts(Uniq(s), Less);
  }

  lemma UniqSortIsOrdered(s: seq<string>, i: nat, j: nat)
    requires i < j < |UniqSort(s)|
    ensures Before(UniqSort(s)[i], UniqSort(s)[j])
  {
    UniqSortSorts(s);
    LessMeans(UniqSort(s)[i], UniqSort(s)[j]);
  }

  /** Two lists agree after `uniq.sort` exactly when they have the same elements. */
  lemma UniqSortIsCanonical(a: seq<string>, b: seq<string>)
    ensures UniqSort(a) == UniqSort(b) <==> (forall x :: x in a <==> x in b)
  {
    UniqSortSorts(a);
    UniqSortSorts(b);
    StringsAreOrdered();
    if UniqSort(a) == UniqSort(b) {
      forall x ensures x in a <==> x in b {
        assert x in UniqSort(a) <==> x in UniqSort(b);
      }
    }
    if forall x :: x in a <==> x in b {
      SortedIsCanonical(UniqSort(a), UniqSort(b), Less);
    }
  }

  lemma UniqSortTwice(s: seq<string>)
    ensures UniqSort(UniqSort(s)) == UniqSort(s)
  {
    UniqSortSorts(s);
    UniqSortIsCanonical(UniqSort(s), s);
  }
}
