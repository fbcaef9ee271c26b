/** Printing a corosync.conf tree and parsing the text gives the tree back, exactly when it is well formed. */
module CorosyncRoundTrip {
  import opened Sequences
  import opened Strings
  import opened CorosyncConf

  // ----- well-formed trees ---------------------------------------------------

  /** Survives being put on a line of its own and stripped. */
  predicate Clean(s: string) {
    Stripped(s) && '\n' !in s
  }

  predicate StartsComment(s: string) {
    s != "" && s[0] == '#'
  }

  predicate WfAttribute(a: Attribute) {
    && Clean(a.name) && Clean(a.value)
    && '{' !in a.name && '}' !in a.name && ':' !in a.name && !StartsComment(a.name)
    && '{' !in a.value && '}' !in a.value
  }

  predicate WfName(name: string) {
    name != "" && Clean(name) && !StartsComment(name)
  }

  predicate WfTree(t: Tree) {
    && (forall i | 0 <= i < |t.attributes| :: WfAttribute(t.attributes[i]))
    && (forall i | 0 <= i < |t.sections| :: WfName(t.sections[i].name) && WfTree(t.sections[i]))
  }

  // ----- normal form: whatever is parsed is well formed ----------------------

  predicate WfToken(token: Token) {
    match token
    case Pair(a) => WfAttribute(a)
    case Open(name) => WfName(name)
    case _ => true
  }

  lemma StripKeepsHead(s: string)
    requires s != "" && !IsSpace(s[0])
    ensures Strip(s) != "" && Strip(s)[0] == s[0]
  {
    var a, b := StripSplits(s);
    assert s[0] == (a + (Strip(s) + b))[0];
  }

  /** What is left of a part of a line. */
  lemma PartIsClean(part: string)
    requires '\n' !in part
    ensures Clean(Strip(part)) && forall c <- Strip(part) :: c in part
  {
    var _, _ := StripSplits(part);
    StripSubset(part);
  }

  lemma PairIsWf(l: string)
    requires '\n' !in l && Stripped(l) && ClassifyStripped(l).Pair?
    ensures WfToken(ClassifyStripped(l))
  {
    var i := IndexOf(l, ':');
    var a := Attribute(Strip(l[..i]), Strip(l[i + 1..]));
    assert ClassifyStripped(l) == Pair(a);
    PartIsClean(l[..i]);
    PartIsClean(l[i + 1..]);
    NameStartsLine(l, i);
    assert forall c <- a.name :: c in l[..i] && c in l;
    assert forall c <- a.value :: c in l[i + 1..] && c in l;
  }

  /** The name of an attribute starts as the line does, which is no comment. */
  lemma NameStartsLine(l: string, i: nat)
    requires i < |l| && Stripped(l)
    ensures StartsComment(Strip(l[..i])) ==> StartsComment(l)
  {
    if i > 0 {
      StripKeepsHead(l[..i]);
    }
  }

  lemma OpenIsWf(l: string)
    requires '\n' !in l && Stripped(l) && ClassifyStripped(l).Open?
    ensures WfToken(ClassifyStripped(l))
  {
    var i := LastIndexOf(l, '{');
    var _, _ := StripSplits(l[..i]);
    StripSubset(l[..i]);
    assert i > 0;
    StripKeepsHead(l[..i]);
  }

  lemma ClassifyIsWf(line: string)
    requires '\n' !in line
    ensures WfToken(Classify(line))
  {
    var l := Strip(line);
    var _, _ := StripSplits(line);
    StripSubset(line);
    match Classify(line)
    case Pair(_) => PairIsWf(l);
    case Open(_) => OpenIsWf(l);
    case _ =>
  }

  predicate WfItems(items: seq<Item>) {
    forall i | 0 <= i < |items| ::
      match items[i]
      case Leaf(a) => WfAttribute(a)
      case Block(name, body) => WfName(name) && WfItems(body)
  }

  lemma {:induction false} ParseIsWf(tokens: seq<Token>, nested: bool)
    requires forall i | 0 <= i < |tokens| :: WfToken(tokens[i])
    ensures var r := Parse(tokens, nested); r.Ok? ==>
      WfItems(r.value.items) && forall i | 0 <= i < |r.value.rest| :: WfToken(r.value.rest[i])
    decreases |tokens|
  {
    if tokens != [] {
      match tokens[0]
      case Open(_) =>
        ParseIsWf(tokens[1..], true);
        var inner := Parse(tokens[1..], true);
        if inner.Ok? {
          ParseIsWf(inner.value.rest, nested);
        }
      case _ => ParseIsWf(tokens[1..], nested);
    }
  }

  lemma {:induction false} BuildIsWf(name: string, items: seq<Item>)
    requires WfItems(items)
    ensures WfTree(Build(name, items))
    decreases items
  {
    if items != [] {
      BuildIsWf(name, items[1..]);
      if items[0].Block? {
        BuildIsWf(items[0].name, items[0].body);
      }
    }
  }

  lemma ParsedTextIsWf(text: string)
    requires ParseText(text).Ok?
    ensures WfTree(ParseText(text).value) && ParseText(text).value.name == ""
  {
    var lines := Split(text, '\n');
    SplitIsClean(text, '\n');
    forall i | 0 <= i < |lines| ensures WfToken(ClassifyAll(lines)[i]) {
      assert lines[i] in lines;
      ClassifyIsWf(lines[i]);
    }
    ParseIsWf(ClassifyAll(lines), false);
    BuildIsWf("", Parse(ClassifyAll(lines), false).value.items);
  }

  // ----- what each printed line says -----------------------------------------

  lemma ClassifyPairCore(a: Attribute, tail: string)
    requires WfAttribute(a) && '{' !in tail && '}' !in tail && Strip(tail) == a.value
    ensures ClassifyStripped(a.name + ":" + tail) == Pair(a)
  {
    var l := a.name + ":" + tail;
    assert l[|a.name|] == ':';
    assert IndexOf(l, ':') == |a.name|;
    assert l[..|a.name|] == a.name && l[|a.name| + 1..] == tail;
    assert l[0] == if a.name == "" then ':' else a.name[0];
    StripStripped(a.name);
  }

  lemma StripPairLine(a: Attribute)
    requires WfAttribute(a)
    ensures Strip(a.name + ": " + a.value) == a.name + ":" + PairTail(a)
  {
    var l := a.name + ":" + PairTail(a);
    assert l[0] == if a.name == "" then ':' else a.name[0];
    assert l[|l| - 1] == if a.value == "" then ':' else a.value[|a.value| - 1];
    var trim := if a.value == "" then " " else "";
    assert a.name + ": " + a.value == [] + l + trim;
    StripIs([], l, trim);
  }

  function PairTail(a: Attribute): string {
    if a.value == "" then "" else " " + a.value
  }

  lemma ClassifyPairLine(a: Attribute)
    requires WfAttribute(a)
    ensures Classify(a.name + ": " + a.value) == Pair(a)
  {
    StripPairLine(a);
    assert Strip(PairTail(a)) == a.value by {
      var space := if a.value == "" then "" else " ";
      assert PairTail(a) == space + a.value + [];
      StripIs(space, a.value, []);
    }
    ClassifyPairCore(a, PairTail(a));
  }

  lemma ClassifyOpenLine(name: string)
    requires WfName(name)
    ensures Classify(name + " {") == Open(name)
  {
    var l := name + " {";
    StripStripped(l);
    assert l[|name| + 1] == '{';
    assert LastIndexOf(l, '{') == |name| + 1;
    assert l[..|name| + 1] == [] + name + " " && l[|name| + 2..] == "";
    StripIs([], name, " ");
  }

  lemma ClassifyCloseLine()
    ensures Classify("}") == Close
  {
    StripStripped("}");
  }

  // ----- the lines of a text -------------------------------------------------

  /** The printer without the detour through text: a subsection's lines are used as they are. */
  function Lines(t: Tree, nested: bool, indent: string): seq<string>
    decreases t, 1
  {
    Framed(t, nested, indent, AttributeLines(t.attributes) + Separator(t) + AllSectionLines(t.sections))
  }

  function AllSectionLines(sections: seq<Tree>): seq<string>
    decreases sections, 0
  {
    if sections == [] then []
    else
      Lines(sections[0], true, INDENT)
      + (if |sections| > 1 then [""] else [])
      + AllSectionLines(sections[1..])
  }

  predicate OneLiners(lines: seq<string>) {
    forall i | 0 <= i < |lines| :: '\n' !in lines[i]
  }

  lemma {:induction false} LinesAreOneLiners(t: Tree, nested: bool, indent: string)
    requires WfTree(t) && (nested ==> WfName(t.name)) && '\n' !in indent
    ensures OneLiners(Lines(t, nested, indent))
    decreases t, 1
  {
    SectionLinesAreOneLiners(t.sections);
  }

  lemma {:induction false} SectionLinesAreOneLiners(sections: seq<Tree>)
    requires forall i | 0 <= i < |sections| :: WfName(sections[i].name) && WfTree(sections[i])
    ensures OneLiners(AllSectionLines(sections))
    decreases sections, 0
  {
    if sections != [] {
      LinesAreOneLiners(sections[0], true, INDENT);
      SectionLinesAreOneLiners(sections[1..]);
    }
  }

  /** Joining, splitting again and dropping a blank last line loses nothing. */
  lemma {:induction false} SectionLinesAreLines(sections: seq<Tree>)
    requires forall i | 0 <= i < |sections| :: WfName(sections[i].name) && WfTree(sections[i])
    ensures SectionLines(sections) == AllSectionLines(sections)
    decreases sections, 0
  {
    if sections != [] {
      var lines := Lines(sections[0], true, INDENT);
      PrintIsLines(sections[0], true, INDENT);
      LinesAreOneLiners(sections[0], true, INDENT);
      assert lines[|lines| - 1] == "}";
      TerminatedJoin(lines);
      SplitTerminated(lines, '\n');
      StripStripped("}");
      SectionLinesAreLines(sections[1..]);
    }
  }

  lemma {:induction false} TerminatedJoin(lines: seq<string>)
    requires lines != [] && lines[|lines| - 1] != ""
    ensures Terminated(Join(lines, '\n')) == Join(lines, '\n') + "\n"
  {
    assert Join(lines, '\n') != "";
  }

  lemma {:induction false} PrintIsLines(t: Tree, nested: bool, indent: string)
    requires WfTree(t)
    ensures Print(t, nested, indent) == Terminated(Join(Lines(t, nested, indent), '\n'))
    decreases t, 1
  {
    SectionLinesAreLines(t.sections);
  }

  // ----- the tokens of a printed tree ----------------------------------------

  function Said(lines: seq<string>): seq<Token> {
    Meaningful(ClassifyAll(lines))
  }

  lemma {:induction false} MeaningfulAppend(a: seq<Token>, b: seq<Token>)
    ensures Meaningful(a + b) == Meaningful(a) + Meaningful(b)
  {
    if a == [] {
      assert a + b == b;
    } else {
      assert (a + b)[1..] == a[1..] + b;
      MeaningfulAppend(a[1..], b);
      ConcatAssociates(if a[0] == Ignored then [] else [a[0]], Meaningful(a[1..]), Meaningful(b));
    }
  }

  lemma SaidAppend(a: seq<string>, b: seq<string>)
    ensures Said(a + b) == Said(a) + Said(b)
  {
    assert ClassifyAll(a + b) == ClassifyAll(a) + ClassifyAll(b);
    MeaningfulAppend(ClassifyAll(a), ClassifyAll(b));
  }

  lemma SaidOne(line: string)
    ensures Said([line]) == if Classify(line) == Ignored then [] else [Classify(line)]
  {
    var tokens := [Classify(line)];
    assert ClassifyAll([line]) == tokens;
    assert Meaningful(tokens[1..]) == [];
  }

  lemma SaidIndented(indent: string, lines: seq<string>)
    requires Blank(indent)
    ensures Said(IndentLines(indent, lines)) == Said(lines)
  {
    forall i | 0 <= i < |lines| ensures Classify(IndentLine(indent, lines[i])) == Classify(lines[i]) {
      StripIndented(indent, lines[i]);
    }
    assert ClassifyAll(IndentLines(indent, lines)) == ClassifyAll(lines);
  }

  /** The items of a tree in the order the printer writes them. */
  function Canonical(t: Tree): seq<Item>
    decreases t, 1
  {
    Leaves(t.attributes) + Blocks(t.sections)
  }

  function Leaves(attributes: seq<Attribute>): seq<Item> {
    seq(|attributes|, i requires 0 <= i < |attributes| => Leaf(attributes[i]))
  }

  function Blocks(sections: seq<Tree>): seq<Item>
    decreases sections, 0
  {
    if sections == [] then []
    else [Block(sections[0].name, Canonical(sections[0]))] + Blocks(sections[1..])
  }

  lemma {:induction false} SpellAppend(a: seq<Item>, b: seq<Item>, after: seq<Token>)
    ensures Spell(a + b, after) == Spell(a, Spell(b, after))
  {
    if a == [] {
      assert a + b == b;
    } else {
      assert (a + b)[1..] == a[1..] + b;
      SpellAppend(a[1..], b, after);
    }
  }

  lemma {:induction false} SpellFrame(items: seq<Item>, x: seq<Token>, y: seq<Token>)
    ensures Spell(items, x + y) == Spell(items, x) + y
    decreases items
  {
    if items != [] {
      SpellFrame(items[1..], x, y);
      var z := Spell(items[1..], x);
      match items[0]
      case Leaf(a) => assert [Pair(a)] + (z + y) == ([Pair(a)] + z) + y;
      case Block(name, body) =>
        assert [Close] + (z + y) == ([Close] + z) + y;
        SpellFrame(body, [Close] + z, y);
        assert [Open(name)] + (Spell(body, [Close] + z) + y) == ([Open(name)] + Spell(body, [Close] + z)) + y;
    }
  }

  lemma {:induction false} SaidAttributes(attributes: seq<Attribute>)
    requires forall i | 0 <= i < |attributes| :: WfAttribute(attributes[i])
    ensures Said(AttributeLines(attributes)) == Spelled(Leaves(attributes))
  {
    if attributes != [] {
      var a := attributes[0];
      var line, others := a.name + ": " + a.value, AttributeLines(attributes[1..]);
      assert AttributeLines(attributes) == [line] + others;
      SaidAppend([line], others);
      assert Said([line]) == [Pair(a)] by { SaidOne(line); ClassifyPairLine(a); }
      SaidAttributes(attributes[1..]);
      assert Leaves(attributes) == [Leaf(a)] + Leaves(attributes[1..]);
      SpellCons(Leaf(a), Leaves(attributes[1..]), []);
    }
  }

  lemma SaidThree(first: seq<string>, gap: seq<string>, others: seq<string>)
    requires gap == [] || gap == [""]
    ensures Said(first + gap + others) == Said(first) + Said(others)
  {
    SaidAppend(first + gap, others);
    SaidAppend(first, gap);
    assert Said(gap) == [] by { SaidOne(""); }
  }

  lemma SpelledCanonical(t: Tree)
    ensures Spelled(Canonical(t)) == Spelled(Leaves(t.attributes)) + Spelled(Blocks(t.sections))
  {
    SpellAppend(Leaves(t.attributes), Blocks(t.sections), []);
    SpellFrame(Leaves(t.attributes), [], Spelled(Blocks(t.sections)));
    assert [] + Spelled(Blocks(t.sections)) == Spelled(Blocks(t.sections));
  }

  lemma SaidFramed(name: string, indent: string, body: seq<string>)
    requires WfName(name) && Blank(indent)
    ensures Said([name + " {"] + IndentLines(indent, body) + ["}"]) == [Open(name)] + Said(body) + [Close]
  {
    var inside := IndentLines(indent, body);
    SaidAppend([name + " {"] + inside, ["}"]);
    SaidAppend([name + " {"], inside);
    assert Said([name + " {"]) == [Open(name)] by { SaidOne(name + " {"); ClassifyOpenLine(name); }
    assert Said(["}"]) == [Close] by { SaidOne("}"); ClassifyCloseLine(); }
    SaidIndented(indent, body);
  }

  lemma {:induction false} SaidTree(t: Tree, nested: bool, indent: string)
    requires WfTree(t) && (nested ==> WfName(t.name)) && Blank(indent)
    ensures Said(Lines(t, nested, indent)) ==
      if nested then [Open(t.name)] + Spelled(Canonical(t)) + [Close] else Spelled(Canonical(t))
    decreases t, 1
  {
    var attributes, sections := AttributeLines(t.attributes), AllSectionLines(t.sections);
    SaidThree(attributes, Separator(t), sections);
    SaidAttributes(t.attributes);
    SaidSections(t.sections);
    SpelledCanonical(t);
    if nested {
      SaidFramed(t.name, indent, attributes + Separator(t) + sections);
    }
  }

  lemma SpelledBlock(name: string, body: seq<Item>, others: seq<Item>)
    ensures Spelled([Block(name, body)] + others) == [Open(name)] + Spelled(body) + [Close] + Spelled(others)
  {
    var after := [Close] + Spelled(others);
    SpellCons(Block(name, body), others, []);
    SpellFrame(body, [], after);
    assert [] + after == after;
    assert [Open(name)] + (Spelled(body) + after) == [Open(name)] + Spelled(body) + [Close] + Spelled(others);
  }

  lemma {:induction false} SaidSections(sections: seq<Tree>)
    requires forall i | 0 <= i < |sections| :: WfName(sections[i].name) && WfTree(sections[i])
    ensures Said(AllSectionLines(sections)) == Spelled(Blocks(sections))
    decreases sections, 0
  {
    if sections != [] {
      var t := sections[0];
      SaidThree(Lines(t, true, INDENT), if |sections| > 1 then [""] else [], AllSectionLines(sections[1..]));
      SaidTree(t, true, INDENT);
      SaidSections(sections[1..]);
      SpelledBlock(t.name, Canonical(t), Blocks(sections[1..]));
    }
  }

  // ----- rebuilding the tree -------------------------------------------------

  lemma {:induction false} BuildLeaves(attributes: seq<Attribute>)
    ensures AttributesOf(Leaves(attributes)) == attributes && SectionsOf(Leaves(attributes)) == []
  {
    if attributes != [] {
      assert Leaves(attributes)[1..] == Leaves(attributes[1..]);
      BuildLeaves(attributes[1..]);
    }
  }

  lemma {:induction false} BuildBlocks(sections: seq<Tree>)
    ensures AttributesOf(Blocks(sections)) == [] && SectionsOf(Blocks(sections)) == sections
    decreases sections, 0
  {
    if sections != [] {
      assert Blocks(sections)[1..] == Blocks(sections[1..]);
      BuildCanonical(sections[0]);
      BuildBlocks(sections[1..]);
    }
  }

  lemma {:induction false} BuildCanonical(t: Tree)
    ensures Build(t.name, Canonical(t)) == t
    decreases t, 1
  {
    BuildAppend(Leaves(t.attributes), Blocks(t.sections));
    BuildLeaves(t.attributes);
    BuildBlocks(t.sections);
  }

  // ----- the main results ----------------------------------------------------

  lemma SplitPrinted(t: Tree, indent: string)
    requires WfTree(t)
    ensures Said(Split(Print(t, false, indent), '\n')) == Said(Lines(t, false, indent))
  {
    var lines := Lines(t, false, indent);
    PrintIsLines(t, false, indent);
    if lines == [] {
      assert Fields("", '\n') == [""];
    } else {
      assert lines[|lines| - 1] != "" by { LastLineHasText(t, indent); }
      LinesAreOneLiners(t, false, "");
      TerminatedJoin(lines);
      SplitTerminated(lines, '\n');
    }
  }

  lemma {:induction false} LastSectionLine(sections: seq<Tree>)
    requires sections != []
    ensures AllSectionLines(sections) != []
    ensures AllSectionLines(sections)[|AllSectionLines(sections)| - 1] == "}"
  {
    var first := Lines(sections[0], true, INDENT);
    assert first[|first| - 1] == "}";
    if |sections| > 1 {
      LastSectionLine(sections[1..]);
    }
  }

  lemma LastLineHasText(t: Tree, indent: string)
    requires Lines(t, false, indent) != []
    ensures var lines := Lines(t, false, indent); lines[|lines| - 1] != ""
  {
    if t.sections != [] {
      LastSectionLine(t.sections);
    }
  }

  /** Printing and parsing rebuilds a root exactly when it is well formed, at any depth of nesting. */
  lemma RoundTrip(t: Tree, indent: string)
    ensures ParseText(Print(t, false, indent)) == Ok(t) <==> WfTree(t) && t.name == ""
  {
    if WfTree(t) && t.name == "" {
      var tokens := ClassifyAll(Split(Print(t, false, indent), '\n'));
      SplitPrinted(t, indent);
      SaidTree(t, false, "");
      Acceptance(tokens, Canonical(t));
      BuildCanonical(t);
    }
    if ParseText(Print(t, false, indent)) == Ok(t) {
      ParsedTextIsWf(Print(t, false, indent));
    }
  }

  /** Rewriting an accepted file in the printer's form keeps its meaning, and does so once and for all. */
  lemma NormalForm(text: string, indent: string)
    requires ParseText(text).Ok?
    ensures var rewritten := Print(ParseText(text).value, false, indent);
      && ParseText(rewritten) == ParseText(text)
      && Print(ParseText(rewritten).value, false, indent) == rewritten
  {
    ParsedTextIsWf(text);
    RoundTrip(ParseText(text).value, indent);
  }
}
