/** What the text of corosync.conf means, told by its characters: what each line says, and which lines say nothing. */
module CorosyncText {
  import opened Strings
  import opened CorosyncConf

  // ----- lines ---------------------------------------------------------------

  /** `m` is what white space at both ends of `s` leaves. */
  ghost predicate Trimmed(s: string, m: string) {
    Stripped(m) && exists i, j | 0 <= i <= j <= |s| :: s[i..j] == m && Blank(s[..i]) && Blank(s[j..])
  }

  predicate Comment(line: string) {
    exists i | 0 <= i < |line| :: line[i] == '#' && Blank(line[..i])
  }

  predicate Skipped(line: string) {
    Blank(line) || Comment(line)
  }

  /** An opener: white space after its last brace, and a name before it. */
  ghost predicate OpensAt(line: string, i: nat, name: string) {
    && i < |line| && line[i] == '{' && Blank(line[i + 1..])
    && name != "" && Trimmed(line[..i], name)
  }

  /** An attribute, divided at its first colon. */
  ghost predicate DividesAt(line: string, i: nat, a: Attribute) {
    && i < |line| && line[i] == ':' && ':' !in line[..i] && '{' !in line && '}' !in line
    && Trimmed(line[..i], a.name) && Trimmed(line[i + 1..], a.value)
  }

  ghost predicate Wrong(line: string, e: ParseError) {
    match e
    case ExtraAfterOpeningBrace =>
      exists i | 0 <= i < |line| :: line[i] == '{' && '{' !in line[i + 1..] && !Blank(line[i + 1..])
    case MissingSectionName => exists i | 0 <= i < |line| :: line[i] == '{' && Blank(line[..i]) && Blank(line[i + 1..])
    case ExtraAroundClosingBrace =>
      '{' !in line && exists i | 0 <= i < |line| :: line[i] == '}' && !(Blank(line[..i]) && Blank(line[i + 1..]))
    case NotALine => '{' !in line && '}' !in line && ':' !in line
    case _ => false
  }

  ghost predicate Says(line: string, token: Token) {
    match token
    case Ignored => Skipped(line)
    case Open(name) => !Comment(line) && exists i: nat :: OpensAt(line, i, name)
    case Close => exists i | 0 <= i < |line| :: line[i] == '}' && Blank(line[..i]) && Blank(line[i + 1..])
    case Pair(a) => !Comment(line) && exists i: nat :: DividesAt(line, i, a)
    case Bad(e) => !Skipped(line) && Wrong(line, e)
  }

  lemma StripTrims(s: string)
    ensures Trimmed(s, Strip(s))
  {
    var a, b := StripSplits(s);
    var i, j := |a|, |s| - |b|;
    assert s[..i] == a && s[i..j] == Strip(s) && s[j..] == b;
  }

  lemma MiddleIsStrip(s: string, i: nat, j: nat)
    requires i <= j <= |s| && Stripped(s[i..j]) && Blank(s[..i]) && Blank(s[j..])
    ensures Strip(s) == s[i..j]
  {
    StripIs(s[..i], s[i..j], s[j..]);
    assert s == s[..i] + s[i..j] + s[j..];
  }

  lemma TrimmedIsStrip(s: string, m: string)
    ensures Trimmed(s, m) <==> Strip(s) == m
  {
    StripTrims(s);
    if Trimmed(s, m) {
      var i, j :| 0 <= i <= j <= |s| && s[i..j] == m && Blank(s[..i]) && Blank(s[j..]);
      MiddleIsStrip(s, i, j);
    }
  }

  lemma BlankIsEmpty(s: string)
    ensures Blank(s) <==> Strip(s) == ""
  {
    var a, b := StripSplits(s);
    if Blank(s) {
      StripIs(s, "", "");
      assert s + "" + "" == s;
    }
    if Strip(s) == "" {
      assert s == a + b;
    }
  }

  lemma StripPadded(a: string, x: string, b: string)
    requires Blank(a) && Blank(b)
    ensures Strip(a + x + b) == Strip(x)
  {
    var c, d := StripSplits(x);
    assert a + x + b == (a + c) + Strip(x) + (d + b);
    StripIs(a + c, Strip(x), d + b);
  }

  /** The first character that is not white space is where the stripped line begins. */
  lemma FirstVisible(line: string, a: string, l: string, b: string, i: nat)
    requires line == a + l + b && Blank(a) && l != "" && !IsSpace(l[0])
    requires i < |line| && !IsSpace(line[i]) && Blank(line[..i])
    ensures i == |a|
  {
    assert line[|a|] == l[0];
  }

  lemma CommentIs(line: string)
    ensures Comment(line) <==> Strip(line) != "" && Strip(line)[0] == '#'
  {
    var a, b := StripSplits(line);
    var l := Strip(line);
    BlankIsEmpty(line);
    if Comment(line) {
      var i :| 0 <= i < |line| && line[i] == '#' && Blank(line[..i]);
      assert line[i] in line;
      FirstVisible(line, a, l, b, i);
    }
    if l != "" && l[0] == '#' {
      assert line[|a|] == '#' && line[..|a|] == a;
    }
  }

  lemma SameVisible(line: string, c: char)
    requires !IsSpace(c)
    ensures c in line <==> c in Strip(line)
  {
    var a, b := StripSplits(line);
    assert line == a + Strip(line) + b;
  }

  // ----- a line says what it is read as ... ----------------------------------

  /** Where a place of the stripped line is in the line, with what is before and after it. */
  lemma PlaceInLine(line: string, i: nat) returns (p: nat)
    requires i < |Strip(line)|
    ensures p < |line| && line[p] == Strip(line)[i]
    ensures Strip(line[..p]) == Strip(Strip(line)[..i]) && Strip(line[p + 1..]) == Strip(Strip(line)[i + 1..])
    ensures forall c :: !IsSpace(c) ==> (c in line[..p] <==> c in Strip(line)[..i])
    ensures forall c :: !IsSpace(c) ==> (c in line[p + 1..] <==> c in Strip(line)[i + 1..])
  {
    var a, b := StripSplits(line);
    var l := Strip(line);
    p := |a| + i;
    assert line[..p] == a + l[..i] && line[p + 1..] == l[i + 1..] + b;
    assert a + l[..i] + [] == a + l[..i] && [] + l[i + 1..] + b == l[i + 1..] + b;
    StripPadded(a, l[..i], []);
    StripPadded([], l[i + 1..], b);
  }

  lemma OpenerSays(line: string)
    requires !Skipped(line) && '{' in Strip(line)
    ensures Says(line, Classify(line))
  {
    var l := Strip(line);
    var i := LastIndexOf(l, '{');
    CommentIs(line);
    BlankIsEmpty(line);
    var p := PlaceInLine(line, i);
    assert forall k | i < k < |l| :: l[k] != '{';
    assert '{' !in l[i + 1..] && !IsSpace('{');
    OpenerMeans(line, p);
    assert Classify(line) ==
      if Strip(line[p + 1..]) != "" then Bad(ExtraAfterOpeningBrace)
      else if Strip(line[..p]) == "" then Bad(MissingSectionName)
      else Open(Strip(line[..p]));
  }

  lemma OpenerMeans(line: string, p: nat)
    requires p < |line| && line[p] == '{' && '{' !in line[p + 1..]
    ensures Strip(line[p + 1..]) != "" ==> Wrong(line, ExtraAfterOpeningBrace)
    ensures Strip(line[p + 1..]) == "" && Strip(line[..p]) == "" ==> Wrong(line, MissingSectionName)
    ensures Strip(line[p + 1..]) == "" && Strip(line[..p]) != "" ==> OpensAt(line, p, Strip(line[..p]))
  {
    BlankIsEmpty(line[..p]);
    BlankIsEmpty(line[p + 1..]);
    TrimmedIsStrip(line[..p], Strip(line[..p]));
  }

  lemma CloserSays(line: string)
    requires !Skipped(line) && '{' !in Strip(line) && '}' in Strip(line)
    ensures Says(line, Classify(line))
  {
    var i := IndexOf(Strip(line), '}');
    var p := PlaceInLine(line, i);
    SameVisible(line, '{');
    ReadAsCloser(line, i);
    BlankIsEmpty(line[..p]);
    BlankIsEmpty(line[p + 1..]);
  }

  lemma ReadAsCloser(line: string, i: nat)
    requires !Skipped(line) && '{' !in Strip(line) && i < |Strip(line)| && Strip(line)[i] == '}'
    ensures Classify(line) ==
      if Strip(Strip(line)[..i]) == "" && Strip(Strip(line)[i + 1..]) == "" then Close else Bad(ExtraAroundClosingBrace)
  {
    var l := Strip(line);
    CommentIs(line);
    BlankIsEmpty(line);
    BlankIsEmpty(l[..i]);
    BlankIsEmpty(l[i + 1..]);
    var a, b := StripSplits(line);
    StripStripped(l);
    AloneIn(l, i);
  }

  /** With nothing but white space around it, a character is the whole stripped line. */
  lemma AloneIn(l: string, i: nat)
    requires Stripped(l) && i < |l| && !IsSpace(l[i])
    ensures Blank(l[..i]) && Blank(l[i + 1..]) <==> l == [l[i]]
  {
  }

  lemma PairSays(line: string)
    requires !Skipped(line) && '{' !in Strip(line) && '}' !in Strip(line) && ':' in Strip(line)
    ensures Says(line, Classify(line))
  {
    var i := IndexOf(Strip(line), ':');
    var p := PlaceInLine(line, i);
    SameVisible(line, '{');
    SameVisible(line, '}');
    ReadAsPair(line, p, i);
    DividerMeans(line, p);
  }

  lemma ReadAsPair(line: string, p: nat, i: nat)
    requires !Skipped(line) && '{' !in Strip(line) && '}' !in Strip(line) && ':' in Strip(line)
    requires i == IndexOf(Strip(line), ':') && p < |line|
    requires Strip(line[..p]) == Strip(Strip(line)[..i]) && Strip(line[p + 1..]) == Strip(Strip(line)[i + 1..])
    requires forall c :: !IsSpace(c) ==> (c in line[..p] <==> c in Strip(line)[..i])
    ensures Classify(line) == Pair(Attribute(Strip(line[..p]), Strip(line[p + 1..]))) && ':' !in line[..p]
  {
    CommentIs(line);
    BlankIsEmpty(line);
    assert !IsSpace(':');
  }

  lemma DividerMeans(line: string, p: nat)
    requires p < |line| && line[p] == ':' && ':' !in line[..p] && '{' !in line && '}' !in line
    ensures DividesAt(line, p, Attribute(Strip(line[..p]), Strip(line[p + 1..])))
  {
    StripTrims(line[..p]);
    StripTrims(line[p + 1..]);
  }

  lemma LineSays(line: string)
    ensures Says(line, Classify(line))
  {
    CommentIs(line);
    BlankIsEmpty(line);
    SameVisible(line, '{');
    SameVisible(line, '}');
    SameVisible(line, ':');
    if !Skipped(line) {
      if '{' in Strip(line) {
        OpenerSays(line);
      } else if '}' in Strip(line) {
        CloserSays(line);
      } else if ':' in Strip(line) {
        PairSays(line);
      }
    }
  }

  // ----- ... and nothing else ------------------------------------------------

  lemma TrimmedOnce(s: string, m: string, n: string)
    requires Trimmed(s, m) && Trimmed(s, n)
    ensures m == n
  {
    TrimmedIsStrip(s, m);
    TrimmedIsStrip(s, n);
  }

  predicate IsLast(line: string, c: char, i: nat) {
    i < |line| && line[i] == c && c !in line[i + 1..]
  }

  lemma LastOnce(line: string, c: char, i: nat, j: nat)
    requires IsLast(line, c, i) && IsLast(line, c, j)
    ensures i == j
  {
  }

  /** Every opening brace in a line that opens a section is the last one, and so is one with white space after it. */
  lemma BlankAfterLast(line: string, i: nat)
    requires i < |line| && line[i] == '{' && Blank(line[i + 1..])
    ensures IsLast(line, '{', i)
  {
  }

  lemma VisibleInside(line: string, i: nat)
    requires i < |line| && !IsSpace(line[i])
    ensures !Blank(line) && line[i] in line
  {
  }

  lemma OpenOnce(line: string, name: string, t: Token)
    requires Says(line, Open(name)) && Says(line, t) && t != Close
    ensures t == Open(name)
  {
    var i: nat :| OpensAt(line, i, name);
    BlankAfterLast(line, i);
    VisibleInside(line, i);
    match t
    case Ignored =>
    case Open(other) =>
      var j: nat :| OpensAt(line, j, other);
      BlankAfterLast(line, j);
      LastOnce(line, '{', i, j);
      TrimmedOnce(line[..i], name, other);
    case Pair(a) =>
    case Bad(e) => OpenIsNotWrong(line, i, name, e);
  }

  lemma OpenIsNotWrong(line: string, i: nat, name: string, e: ParseError)
    requires OpensAt(line, i, name) && '{' in line
    ensures !Wrong(line, e)
  {
    BlankAfterLast(line, i);
    TrimmedIsStrip(line[..i], name);
    BlankIsEmpty(line[..i]);
    match e
    case ExtraAfterOpeningBrace =>
      forall j | 0 <= j < |line| && line[j] == '{' && '{' !in line[j + 1..] ensures Blank(line[j + 1..]) {
        LastOnce(line, '{', i, j);
      }
    case MissingSectionName =>
      forall j | 0 <= j < |line| && line[j] == '{' && Blank(line[j + 1..]) ensures !Blank(line[..j]) {
        BlankAfterLast(line, j);
        LastOnce(line, '{', i, j);
      }
    case _ =>
  }

  lemma DividesOnce(line: string, i: nat, a: Attribute, j: nat, b: Attribute)
    requires DividesAt(line, i, a) && DividesAt(line, j, b)
    ensures a == b
  {
    assert i == j;
    TrimmedOnce(line[..i], a.name, b.name);
    TrimmedOnce(line[i + 1..], a.value, b.value);
  }

  lemma PairOnce(line: string, a: Attribute, t: Token)
    requires Says(line, Pair(a)) && Says(line, t)
    ensures t == Pair(a)
  {
    var i: nat :| DividesAt(line, i, a);
    VisibleInside(line, i);
    match t
    case Ignored =>
    case Open(_) =>
    case Close =>
    case Pair(b) =>
      var j: nat :| DividesAt(line, j, b);
      DividesOnce(line, i, a, j, b);
    case Bad(e) =>
  }

  lemma CloseOnce(line: string, t: Token)
    requires Says(line, Close) && Says(line, t)
    ensures t == Close
  {
    var i :| 0 <= i < |line| && line[i] == '}' && Blank(line[..i]) && Blank(line[i + 1..]);
    VisibleInside(line, i);
    forall j | 0 <= j < |line| && !IsSpace(line[j]) ensures j == i {
    }
    assert '{' !in line && ':' !in line && '#' !in line;
  }

  lemma WrongOnce(line: string, d: ParseError, e: ParseError)
    requires Wrong(line, d) && Wrong(line, e)
    ensures d == e
  {
    if d == ExtraAfterOpeningBrace && e == MissingSectionName {
      MissingIsNotExtra(line);
    }
    if d == MissingSectionName && e == ExtraAfterOpeningBrace {
      MissingIsNotExtra(line);
    }
  }

  lemma MissingIsNotExtra(line: string)
    requires Wrong(line, MissingSectionName)
    ensures !Wrong(line, ExtraAfterOpeningBrace)
  {
    var i :| 0 <= i < |line| && line[i] == '{' && Blank(line[..i]) && Blank(line[i + 1..]);
    BlankAfterLast(line, i);
    forall j | 0 <= j < |line| && line[j] == '{' && '{' !in line[j + 1..] ensures Blank(line[j + 1..]) {
      LastOnce(line, '{', i, j);
    }
  }

  lemma OthersOnce(line: string, s: Token, t: Token)
    requires Says(line, s) && Says(line, t) && (t.Open? || t.Pair? || t.Close?)
    ensures s == t
  {
    match t
    case Close => CloseOnce(line, s);
    case Open(name) => if s == Close { CloseOnce(line, t); } else { OpenOnce(line, name, s); }
    case Pair(a) => PairOnce(line, a, s);
  }

  lemma SaysOnce(line: string, s: Token, t: Token)
    requires Says(line, s) && Says(line, t)
    ensures s == t
  {
    if t.Open? || t.Pair? || t.Close? {
      OthersOnce(line, s, t);
    } else if s.Open? || s.Pair? || s.Close? {
      OthersOnce(line, t, s);
    } else if s.Bad? && t.Bad? {
      WrongOnce(line, s.error, t.error);
    }
  }

  /** What a line is read as is what its characters say. */
  lemma LineMeans(line: string, t: Token)
    ensures Classify(line) == t <==> Says(line, t)
  {
    LineSays(line);
    if Says(line, t) {
      SaysOnce(line, Classify(line), t);
    }
  }

  // ----- texts ---------------------------------------------------------------

  /** The lines that are neither blank nor comments. */
  function Kept(lines: seq<string>): seq<string> {
    if lines == [] then [] else (if Skipped(lines[0]) then [] else [lines[0]]) + Kept(lines[1..])
  }

  lemma {:induction false} KeptAre(lines: seq<string>)
    ensures forall l :: l in Kept(lines) <==> l in lines && !Skipped(l)
  {
    if lines != [] {
      assert lines == [lines[0]] + lines[1..];
      KeptAre(lines[1..]);
    }
  }

  lemma ClassifyCons(line: string, lines: seq<string>)
    ensures ClassifyAll([line] + lines) == [Classify(line)] + ClassifyAll(lines)
  {
    assert ([line] + lines)[1..] == lines;
  }

  lemma {:induction false} MeaningfulIsKept(lines: seq<string>)
    ensures Meaningful(ClassifyAll(lines)) == ClassifyAll(Kept(lines))
  {
    if lines != [] {
      var line, others := lines[0], lines[1..];
      assert lines == [line] + others;
      ClassifyCons(line, others);
      ClassifyCons(line, Kept(others));
      LineMeans(line, Ignored);
      MeaningfulIsKept(others);
      assert ([Classify(line)] + ClassifyAll(others))[1..] == ClassifyAll(others);
    }
  }

  /** Lines that say nothing change neither what is read nor the error. */
  lemma {:induction false} ParseMeaningful(tokens: seq<Token>, nested: bool)
    ensures var (p, q) := (Parse(tokens, nested), Parse(Meaningful(tokens), nested));
      if p.Ok? then q == Ok(Parsed(p.value.items, Meaningful(p.value.rest))) else q == p
    decreases |tokens|
  {
    if tokens != [] {
      var others := tokens[1..];
      assert tokens[0] != Ignored ==> Meaningful(tokens)[1..] == Meaningful(others);
      match tokens[0]
      case Ignored =>
        assert Meaningful(tokens) == Meaningful(others);
        ParseMeaningful(others, nested);
      case Bad(_) =>
      case Close =>
      case Pair(_) => ParseMeaningful(others, nested);
      case Open(_) =>
        ParseMeaningful(others, true);
        var inner := Parse(others, true);
        if inner.Ok? {
          ParseMeaningful(inner.value.rest, nested);
        }
    }
  }

  lemma {:induction false} TrailingEmpty(lines: seq<string>)
    ensures Kept(DropTrailingEmpty(lines)) == Kept(lines)
  {
    if lines != [] && lines[|lines| - 1] == "" {
      var front := lines[..|lines| - 1];
      TrailingEmpty(front);
      KeptSnocEmpty(front);
      assert lines == front + [""];
    }
  }

  lemma {:induction false} KeptSnocEmpty(lines: seq<string>)
    ensures Kept(lines + [""]) == Kept(lines)
  {
    if lines != [] {
      assert (lines + [""])[1..] == lines[1..] + [""];
      KeptSnocEmpty(lines[1..]);
    }
  }

  lemma KeptOfText(lines: seq<string>)
    requires forall l <- lines :: '\n' !in l
    ensures Kept(Split(Join(lines, '\n'), '\n')) == Kept(lines)
  {
    if lines != [] {
      FieldsOfJoin(lines, '\n');
      TrailingEmpty(lines);
    } else {
      assert Fields("", '\n') == [""];
    }
  }

  /** What a text is read as is settled by the lines it keeps. */
  lemma ParseKept(lines: seq<string>)
    requires forall l <- lines :: '\n' !in l
    ensures ParseText(Join(lines, '\n')) ==
      match Parse(ClassifyAll(Kept(lines)), false)
      case Err(e) => Err(e)
      case Ok(p) => Ok(Build("", p.items))
  {
    var read := Split(Join(lines, '\n'), '\n');
    KeptOfText(lines);
    MeaningfulIsKept(read);
    ParseMeaningful(ClassifyAll(read), false);
  }

  lemma {:induction false} KeptTwice(lines: seq<string>)
    ensures Kept(Kept(lines)) == Kept(lines)
  {
    if lines != [] {
      KeptTwice(lines[1..]);
      assert ([lines[0]] + Kept(lines[1..]))[1..] == Kept(lines[1..]) && [] + Kept(lines[1..]) == Kept(lines[1..]);
    }
  }

  /** Blank lines and comments may be left out: the same tree is read, or the same error reported. */
  lemma CommentsSayNothing(lines: seq<string>)
    requires forall l <- lines :: '\n' !in l
    ensures ParseText(Join(lines, '\n')) == ParseText(Join(Kept(lines), '\n'))
  {
    KeptAre(lines);
    ParseKept(lines);
    ParseKept(Kept(lines));
    KeptTwice(lines);
  }

  /** Line by line, the tokens are what the characters say. */
  ghost predicate SaysAll(lines: seq<string>, tokens: seq<Token>) {
    |lines| == |tokens| && forall i | 0 <= i < |lines| :: Says(lines[i], tokens[i])
  }

  lemma LinesMean(lines: seq<string>, tokens: seq<Token>)
    ensures ClassifyAll(lines) == tokens <==> SaysAll(lines, tokens)
  {
    forall i | 0 <= i < |lines| && i < |tokens| ensures Classify(lines[i]) == tokens[i] <==> Says(lines[i], tokens[i]) {
      LineMeans(lines[i], tokens[i]);
    }
    if SaysAll(lines, tokens) {
      assert forall i | 0 <= i < |lines| :: ClassifyAll(lines)[i] == tokens[i];
    }
  }

  lemma {:induction false} MeaningfulOfMeaningful(tokens: seq<Token>)
    requires forall i | 0 <= i < |tokens| :: tokens[i] != Ignored
    ensures Meaningful(tokens) == tokens
  {
    if tokens != [] {
      MeaningfulOfMeaningful(tokens[1..]);
    }
  }

  lemma KeptMean(lines: seq<string>, items: seq<Item>)
    ensures Meaningful(ClassifyAll(Kept(lines))) == Spelled(items) <==> SaysAll(Kept(lines), Spelled(items))
  {
    var kept := Kept(lines);
    KeptAre(lines);
    forall i | 0 <= i < |kept| ensures ClassifyAll(kept)[i] != Ignored {
      assert kept[i] in kept;
      LineMeans(kept[i], Ignored);
    }
    MeaningfulOfMeaningful(ClassifyAll(kept));
    LinesMean(kept, Spelled(items));
  }

  /**
   * A text is read as a tree exactly if its lines that are neither blank nor comments spell out, one by one and in
   * order, items that the tree is built from.
   */
  lemma TextMeans(lines: seq<string>, t: Tree)
    requires forall l <- lines :: '\n' !in l
    ensures ParseText(Join(lines, '\n')) == Ok(t) <==>
      exists items :: Build("", items) == t && SaysAll(Kept(lines), Spelled(items))
  {
    var tokens := ClassifyAll(Kept(lines));
    ParseKept(lines);
    if ParseText(Join(lines, '\n')) == Ok(t) {
      var items := Parse(tokens, false).value.items;
      Acceptance(tokens, items);
      KeptMean(lines, items);
      assert Build("", items) == t && SaysAll(Kept(lines), Spelled(items));
    }
    if items :| Build("", items) == t && SaysAll(Kept(lines), Spelled(items)) {
      KeptMean(lines, items);
      Acceptance(tokens, items);
    }
  }
}
