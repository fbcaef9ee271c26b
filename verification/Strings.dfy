/** The string operations of Ruby and Python that the modelled code relies on. */
module Strings {
  // ----- strip ---------------------------------------------------------------

  predicate IsSpace(c: char) {
    c == ' ' || c == '\0' || '\t' <= c <= '\r'
  }

  predicate Blank(s: string) {
    forall c <- s :: IsSpace(c)
  }

  function LStrip(s: string): string {
    if s != [] && IsSpace(s[0]) then LStrip(s[1..]) else s
  }

  function RStrip(s: string): string {
    if s != [] && IsSpace(s[|s| - 1]) then RStrip(s[..|s| - 1]) else s
  }

  function Strip(s: string): string {
    RStrip(LStrip(s))
  }

  /** No white space at either end. */
  predicate Stripped(s: string) {
    s != [] ==> !IsSpace(s[0]) && !IsSpace(s[|s| - 1])
  }

  lemma {:induction false} LStripPrefix(w: string, s: string)
    requires Blank(w)
    ensures LStrip(w + s) == LStrip(s)
  {
    if w == [] {
      assert w + s == s;
    } else {
      assert (w + s)[1..] == w[1..] + s;
      LStripPrefix(w[1..], s);
    }
  }

  lemma {:induction false} RStripSuffix(s: string, w: string)
    requires Blank(w)
    ensures RStrip(s + w) == RStrip(s)
  {
    if w == [] {
      assert s + w == s;
    } else {
      assert (s + w)[..|s + w| - 1] == s + w[..|w| - 1];
      RStripSuffix(s, w[..|w| - 1]);
    }
  }

  lemma {:induction false} LStripSplits(s: string) returns (w: string)
    ensures s == w + LStrip(s) && Blank(w)
    ensures LStrip(s) != [] ==> !IsSpace(LStrip(s)[0])
  {
    if s != [] && IsSpace(s[0]) {
      var w' := LStripSplits(s[1..]);
      w := [s[0]] + w';
    } else {
      w := [];
    }
  }

  lemma {:induction false} RStripSplits(s: string) returns (w: string)
    ensures s == RStrip(s) + w && Blank(w)
    ensures RStrip(s) != [] ==> !IsSpace(RStrip(s)[|RStrip(s)| - 1])
  {
    if s != [] && IsSpace(s[|s| - 1]) {
      var w' := RStripSplits(s[..|s| - 1]);
      w := w' + [s[|s| - 1]];
    } else {
      w := [];
    }
  }

  /** `Strip` cuts white space off both ends and nothing else. */
  lemma StripSplits(s: string) returns (a: string, b: string)
    ensures s == a + Strip(s) + b && Blank(a) && Blank(b) && Stripped(Strip(s))
  {
    a := LStripSplits(s);
    b := RStripSplits(LStrip(s));
    assert LStrip(s) == Strip(s) + b;
  }

  /** ... and the stripped middle is the only such middle. */
  lemma StripIs(a: string, m: string, b: string)
    requires Blank(a) && Blank(b) && Stripped(m)
    ensures Strip(a + m + b) == m
  {
    assert a + m + b == a + (m + b);
    LStripPrefix(a, m + b);
    if m == [] {
      assert m + b == b;
      assert b + [] == b;
      LStripPrefix(b, []);
    } else {
      assert LStrip(m + b) == m + b;
      RStripSuffix(m, b);
    }
  }

  lemma StripStripped(s: string)
    requires Stripped(s)
    ensures Strip(s) == s
  {
    StripIs([], s, []);
    assert [] + s + [] == s;
  }

  /** Indenting a line does not change what `strip` leaves of it. */
  lemma StripIndented(w: string, s: string)
    requires Blank(w)
    ensures Strip(w + s) == Strip(s)
  {
    LStripPrefix(w, s);
  }

  /** Every character `Strip` leaves was there. */
  lemma StripSubset(s: string)
    ensures forall c <- Strip(s) :: c in s
  {
    var a, b := StripSplits(s);
    forall c <- Strip(s) ensures c in s {
      assert c in a + Strip(s) + b;
    }
  }

  // ----- finding a character -------------------------------------------------

  function IndexOf(s: string, c: char): (i: nat)
    requires c in s
    ensures i < |s| && s[i] == c && forall k | 0 <= k < i :: s[k] != c
  {
    if s[0] == c then 0 else 1 + IndexOf(s[1..], c)
  }

  function LastIndexOf(s: string, c: char): (i: nat)
    requires c in s
    ensures i < |s| && s[i] == c && forall k | i < k < |s| :: s[k] != c
  {
    if s[|s| - 1] == c then |s| - 1 else
      assert s == s[..|s| - 1] + [s[|s| - 1]];
      LastIndexOf(s[..|s| - 1], c)
  }

  // ----- split and join ------------------------------------------------------

  function Join(lines: seq<string>, sep: char): string {
    if lines == [] then ""
    else if |lines| == 1 then lines[0]
    else lines[0] + [sep] + Join(lines[1..], sep)
  }

  /** Python's `s.split(sep)`: as many fields as separators plus one. */
  function Fields(s: string, sep: char): (fields: seq<string>)
    ensures fields != []
    decreases |s|
  {
    if sep in s then
      var i := IndexOf(s, sep);
      [s[..i]] + Fields(s[i + 1..], sep)
    else
      [s]
  }

  function DropTrailingEmpty(fields: seq<string>): (r: seq<string>)
    ensures r <= fields
  {
    if fields != [] && fields[|fields| - 1] == "" then
      DropTrailingEmpty(fields[..|fields| - 1])
    else
      fields
  }

  /** Ruby's `s.split(sep)`: the fields without the empty ones at the end. */
  function Split(s: string, sep: char): seq<string> {
    DropTrailingEmpty(Fields(s, sep))
  }

  lemma {:induction false} FieldsAreClean(s: string, sep: char)
    ensures forall f <- Fields(s, sep) :: sep !in f
    decreases |s|
  {
    if sep in s {
      FieldsAreClean(s[IndexOf(s, sep) + 1..], sep);
    }
  }

  lemma SplitIsClean(s: string, sep: char)
    ensures forall l <- Split(s, sep) :: sep !in l
  {
    FieldsAreClean(s, sep);
  }

  lemma FieldsCons(field: string, others: string, sep: char)
    requires sep !in field
    ensures Fields(field + [sep] + others, sep) == [field] + Fields(others, sep)
  {
    var s := field + [sep] + others;
    assert s[|field|] == sep;
    assert forall k | 0 <= k < |field| :: s[k] == field[k] && s[k] != sep;
    assert IndexOf(s, sep) == |field|;
    assert s[..|field|] == field && s[|field| + 1..] == others;
  }

  lemma JoinCons(line: string, lines: seq<string>, sep: char)
    requires lines != []
    ensures Join([line] + lines, sep) == line + [sep] + Join(lines, sep)
  {
    assert ([line] + lines)[1..] == lines;
  }

  lemma {:induction false} FieldsOfJoin(lines: seq<string>, sep: char)
    requires lines != [] && forall l <- lines :: sep !in l
    ensures Fields(Join(lines, sep), sep) == lines
  {
    if |lines| > 1 {
      assert lines == [lines[0]] + lines[1..];
      JoinCons(lines[0], lines[1..], sep);
      FieldsCons(lines[0], Join(lines[1..], sep), sep);
      FieldsOfJoin(lines[1..], sep);
    }
  }

  lemma {:induction false} JoinOfFields(s: string, sep: char)
    ensures Join(Fields(s, sep), sep) == s
    decreases |s|
  {
    if sep in s {
      var i := IndexOf(s, sep);
      var others := Fields(s[i + 1..], sep);
      JoinOfFields(s[i + 1..], sep);
      JoinCons(s[..i], others, sep);
      assert s == s[..i] + [sep] + s[i + 1..];
    }
  }

  lemma {:induction false} JoinAppendEmpty(lines: seq<string>, sep: char)
    requires lines != []
    ensures Join(lines + [""], sep) == Join(lines, sep) + [sep]
  {
    if |lines| > 1 {
      assert (lines + [""])[1..] == lines[1..] + [""];
      JoinAppendEmpty(lines[1..], sep);
    }
  }

  /** Splitting text that ends in a line break gives back its lines. */
  lemma SplitTerminated(lines: seq<string>, sep: char)
    requires lines != [] && lines[|lines| - 1] != "" && forall l <- lines :: sep !in l
    ensures Split(Join(lines, sep) + [sep], sep) == lines
  {
    var padded := lines + [""];
    JoinAppendEmpty(lines, sep);
    assert Fields(Join(padded, sep), sep) == padded by { FieldsOfJoin(padded, sep); }
    assert padded[|padded| - 1] == "" && padded[..|padded| - 1] == lines;
    assert DropTrailingEmpty(lines) == lines;
  }
}
