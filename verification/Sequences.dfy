/** What the modules share: optional values, selections, and facts about sequences. */
module Sequences {

  datatype Option<+T> = None | Some(value: T)

  predicate NoRepeats<T(==)>(s: seq<T>) {
    forall i, j | 0 <= i < j < |s| :: s[i] != s[j]
  }

  lemma ConcatAssociates<T>(a: seq<T>, b: seq<T>, c: seq<T>)
    ensures a + b + c == a + (b + c)
  {
  }

  // ----- selections ----------------------------------------------------------

  /** `r` is all of `xs` that is to be kept, in its old order, and nothing else. */
  ghost predicate Selects<T(!new)>(xs: seq<T>, r: seq<T>, keep: T -> bool) {
    if xs == [] then r == []
    else if keep(xs[0]) then r != [] && r[0] == xs[0] && Selects(xs[1..], r[1..], keep)
    else Selects(xs[1..], r, keep)
  }

  /** What was selected is what is to be kept; all of it, if nothing is to go. */
  lemma {:induction false} SelectedAre<T(!new)>(xs: seq<T>, r: seq<T>, keep: T -> bool)
    requires Selects(xs, r, keep)
    ensures forall x :: x in r <==> x in xs && keep(x)
    ensures |r| <= |xs| && (r == xs <==> forall x <- xs :: keep(x))
  {
    if xs != [] {
      assert xs == [xs[0]] + xs[1..];
      if keep(xs[0]) {
        assert r == [r[0]] + r[1..];
        SelectedAre(xs[1..], r[1..], keep);
      } else {
        SelectedAre(xs[1..], r, keep);
        assert |r| < |xs| && xs[0] in xs;
      }
    }
  }

  lemma {:induction false} SelectsSame<T(!new)>(xs: seq<T>, r: seq<T>, keep: T -> bool, asked: T -> bool)
    requires Selects(xs, r, keep) && forall x <- xs :: keep(x) <==> asked(x)
    ensures Selects(xs, r, asked)
  {
    if xs != [] {
      assert xs == [xs[0]] + xs[1..];
      SelectsSame(xs[1..], if keep(xs[0]) then r[1..] else r, keep, asked);
    }
  }

  lemma {:induction false} SelectsAppend<T(!new)>(xs: seq<T>, ys: seq<T>, r: seq<T>, s: seq<T>, keep: T -> bool)
    requires Selects(xs, r, keep) && Selects(ys, s, keep)
    ensures Selects(xs + ys, r + s, keep)
  {
    if xs == [] {
      assert xs + ys == ys && r + s == s;
    } else {
      assert (xs + ys)[1..] == xs[1..] + ys;
      if keep(xs[0]) {
        SelectsAppend(xs[1..], ys, r[1..], s, keep);
        assert (r + s)[1..] == r[1..] + s;
      } else {
        SelectsAppend(xs[1..], ys, r, s, keep);
      }
    }
  }

  /** Of selections that keep the same there is one. */
  lemma {:induction false} SelectsOnce<T(!new)>(xs: seq<T>, r: seq<T>, s: seq<T>, keep: T -> bool)
    requires Selects(xs, r, keep) && Selects(xs, s, keep)
    ensures r == s
  {
    if xs != [] {
      if keep(xs[0]) {
        SelectsOnce(xs[1..], r[1..], s[1..], keep);
        assert r == [r[0]] + r[1..] && s == [s[0]] + s[1..];
      } else {
        SelectsOnce(xs[1..], r, s, keep);
      }
    }
  }
}
