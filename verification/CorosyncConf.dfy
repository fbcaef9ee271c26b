/** corosync.conf as a value: the tree, the printer, the parser, and why they undo each other. */
module CorosyncConf {
  import opened Strings

  datatype Attribute = Attribute(name: string, value: string)

  /** What a section and everything below it hold. */
  datatype Tree = Tree(name: string, attributes: seq<Attribute>, sections: seq<Tree>)

  datatype ParseError =
    | ExtraAfterOpeningBrace
    | MissingSectionName
    | ExtraAroundClosingBrace
    | UnexpectedClosingBrace
    | NotALine
    | MissingClosingBrace

  datatype Result<+T> = Ok(value: T) | Err(error: ParseError)

  const INDENT := "    "

  // ----- the printer ---------------------------------------------------------

  function AttributeLines(attributes: seq<Attribute>): seq<string> {
    seq(|attributes|, i requires 0 <= i < |attributes| => attributes[i].name + ": " + attributes[i].value)
  }

  function Separator(t: Tree): seq<string> {
    if t.attributes != [] && t.sections != [] then [""] else []
  }

  function IndentLine(indent: string, line: string): string {
    if line == "" then line else indent + line
  }

  function IndentLines(indent: string, lines: seq<string>): seq<string> {
    seq(|lines|, i requires 0 <= i < |lines| => IndentLine(indent, lines[i]))
  }

  function DropBlankLast(lines: seq<string>): seq<string> {
    if lines != [] && Strip(lines[|lines| - 1]) == "" then lines[..|lines| - 1] else lines
  }

  /** The lines of the subsections, each printed on its own and split again. */
  function SectionLines(sections: seq<Tree>): seq<string>
    decreases sections, 0
  {
    if sections == [] then []
    else
      DropBlankLast(Split(Print(sections[0], true, INDENT), '\n'))
      + (if |sections| > 1 then [""] else [])
      + SectionLines(sections[1..])
  }

  function Framed(t: Tree, nested: bool, indent: string, body: seq<string>): seq<string> {
    if nested then [t.name + " {"] + IndentLines(indent, body) + ["}"] else body
  }

  function Terminated(text: string): string {
    if text == "" then text else text + "\n"
  }

  /** The text of a section; `nested` tells a section with a parent from a root. */
  function Print(t: Tree, nested: bool, indent: string): string
    decreases t, 1
  {
    var body := AttributeLines(t.attributes) + Separator(t) + SectionLines(t.sections);
    Terminated(Join(Framed(t, nested, indent, body), '\n'))
  }

  // ----- what one line of a file says ----------------------------------------

  datatype Token =
    | Ignored
    | Open(name: string)
    | Close
    | Pair(attribute: Attribute)
    | Bad(error: ParseError)

  function Classify(line: string): Token {
    ClassifyStripped(Strip(line))
  }

  function ClassifyStripped(l: string): Token {
    if l == "" || l[0] == '#' then Ignored
    else if '{' in l then
      var i := LastIndexOf(l, '{');
      if Strip(l[i + 1..]) != "" then Bad(ExtraAfterOpeningBrace)
      else if Strip(l[..i]) == "" then Bad(MissingSectionName)
      else Open(Strip(l[..i]))
    else if '}' in l then
      if Strip(l) != "}" then Bad(ExtraAroundClosingBrace) else Close
    else if ':' in l then
      var i := IndexOf(l, ':');
      Pair(Attribute(Strip(l[..i]), Strip(l[i + 1..])))
    else Bad(NotALine)
  }

  function ClassifyAll(lines: seq<string>): seq<Token> {
    seq(|lines|, i requires 0 <= i < |lines| => Classify(lines[i]))
  }

  /** The tokens that mean something. */
  function Meaningful(tokens: seq<Token>): seq<Token> {
    if tokens == [] then []
    else (if tokens[0] == Ignored then [] else [tokens[0]]) + Meaningful(tokens[1..])
  }

  // ----- the parser ----------------------------------------------------------

  /** What was read, in the order of the file. */
  datatype Item = Leaf(attribute: Attribute) | Block(name: string, body: seq<Item>)

  datatype Parsed = Parsed(items: seq<Item>, rest: seq<Token>)

  /** `nested` tells whether a closing brace is due. */
  function Parse(tokens: seq<Token>, nested: bool): (r: Result<Parsed>)
    ensures r.Ok? ==> |r.value.rest| <= |tokens| && (nested ==> |r.value.rest| < |tokens|)
    ensures r.Ok? && !nested ==> r.value.rest == []
    decreases |tokens|
  {
    if tokens == [] then
      if nested then Err(MissingClosingBrace) else Ok(Parsed([], []))
    else match tokens[0]
      case Ignored => Parse(tokens[1..], nested)
      case Bad(e) => Err(e)
      case Close => if nested then Ok(Parsed([], tokens[1..])) else Err(UnexpectedClosingBrace)
      case Pair(a) => Prepend(Leaf(a), Parse(tokens[1..], nested))
      case Open(name) =>
        match Parse(tokens[1..], true)
        case Err(e) => Err(e)
        case Ok(inner) => Prepend(Block(name, inner.items), Parse(inner.rest, nested))
  }

  function Prepend(item: Item, r: Result<Parsed>): Result<Parsed> {
    match r
    case Err(e) => Err(e)
    case Ok(p) => Ok(Parsed([item] + p.items, p.rest))
  }

  /** A section keeps its attributes and its subsections apart, each in file order. */
  function AttributesOf(items: seq<Item>): seq<Attribute> {
    if items == [] then []
    else (if items[0].Leaf? then [items[0].attribute] else []) + AttributesOf(items[1..])
  }

  function SectionsOf(items: seq<Item>): seq<Tree>
    decreases items, 0
  {
    if items == [] then []
    else (if items[0].Block? then [Build(items[0].name, items[0].body)] else []) + SectionsOf(items[1..])
  }

  function Build(name: string, items: seq<Item>): Tree
    decreases items, 1
  {
    Tree(name, AttributesOf(items), SectionsOf(items))
  }

  lemma {:induction false} BuildAppend(a: seq<Item>, b: seq<Item>)
    ensures AttributesOf(a + b) == AttributesOf(a) + AttributesOf(b)
    ensures SectionsOf(a + b) == SectionsOf(a) + SectionsOf(b)
  {
    if a == [] {
      assert a + b == b;
    } else {
      var tail := a[1..] + b;
      assert (a + b)[1..] == tail && (a + b)[0] == a[0];
      BuildAppend(a[1..], b);
      var attributes := if a[0].Leaf? then [a[0].attribute] else [];
      assert attributes + (AttributesOf(a[1..]) + AttributesOf(b)) == AttributesOf(a) + AttributesOf(b);
      var sections := if a[0].Block? then [Build(a[0].name, a[0].body)] else [];
      assert sections + (SectionsOf(a[1..]) + SectionsOf(b)) == SectionsOf(a) + SectionsOf(b);
    }
  }

  function ParseText(text: string): Result<Tree> {
    match Parse(ClassifyAll(Split(text, '\n')), false)
    case Err(e) => Err(e)
    case Ok(p) => Ok(Build("", p.items))
  }

  // ----- acceptance: the parser inverts spelling out -------------------------

  /** The tokens that spell out items, and then `after`: a block is its opener, its body and a closing brace. */
  function Spell(items: seq<Item>, after: seq<Token>): seq<Token>
    decreases items
  {
    if items == [] then after else SpellItem(items[0], Spell(items[1..], after))
  }

  function SpellItem(item: Item, after: seq<Token>): seq<Token>
    decreases item
  {
    match item
    case Leaf(a) => [Pair(a)] + after
    case Block(name, body) => [Open(name)] + Spell(body, [Close] + after)
  }

  function Spelled(items: seq<Item>): seq<Token> {
    Spell(items, [])
  }

  lemma SpellCons(item: Item, items: seq<Item>, after: seq<Token>)
    ensures Spell([item] + items, after) == SpellItem(item, Spell(items, after))
  {
    assert ([item] + items)[1..] == items;
  }

  /** Whatever is accepted is read completely: every line once, in its place. */
  lemma {:induction false} ParseIsFaithful(tokens: seq<Token>, nested: bool)
    requires Parse(tokens, nested).Ok?
    ensures var p := Parse(tokens, nested).value;
      Meaningful(tokens) == Spell(p.items, if nested then [Close] + Meaningful(p.rest) else [])
    decreases |tokens|
  {
    if tokens != [] {
      var p := Parse(tokens, nested).value;
      var after := if nested then [Close] + Meaningful(p.rest) else [];
      match tokens[0]
      case Ignored => ParseIsFaithful(tokens[1..], nested);
      case Bad(_) =>
      case Close =>
      case Pair(a) =>
        ParseIsFaithful(tokens[1..], nested);
        SpellCons(Leaf(a), Parse(tokens[1..], nested).value.items, after);
      case Open(name) =>
        var inner := Parse(tokens[1..], true).value;
        ParseIsFaithful(tokens[1..], true);
        ParseIsFaithful(inner.rest, nested);
        SpellCons(Block(name, inner.items), Parse(inner.rest, nested).value.items, after);
    }
  }

  /** Anything that spells out items is accepted, as those items. */
  lemma {:induction false} ParseIsComplete(tokens: seq<Token>, nested: bool, items: seq<Item>, after: seq<Token>)
    requires Meaningful(tokens) == Spell(items, if nested then [Close] + after else [])
    ensures Parse(tokens, nested).Ok?
    ensures Parse(tokens, nested).value.items == items
    ensures nested ==> Meaningful(Parse(tokens, nested).value.rest) == after
    decreases |tokens|
  {
    var tail := if nested then [Close] + after else [];
    if tokens == [] {
      assert items == [];
    } else if tokens[0] == Ignored {
      ParseIsComplete(tokens[1..], nested, items, after);
    } else {
      assert Meaningful(tokens)[1..] == Meaningful(tokens[1..]);
      if items == [] {
        assert tail[1..] == after;
      } else {
        var more := Spell(items[1..], tail);
        assert items == [items[0]] + items[1..];
        match items[0]
        case Leaf(a) =>
          assert Meaningful(tokens) == [Pair(a)] + more;
          ParseIsComplete(tokens[1..], nested, items[1..], after);
        case Block(name, body) =>
          assert Meaningful(tokens) == [Open(name)] + Spell(body, [Close] + more);
          ParseIsComplete(tokens[1..], true, body, more);
          ParseIsComplete(Parse(tokens[1..], true).value.rest, nested, items[1..], after);
      }
    }
  }

  /** Acceptance, and the one possible result of it. */
  lemma Acceptance(tokens: seq<Token>, items: seq<Item>)
    ensures Parse(tokens, false) == Ok(Parsed(items, [])) <==> Meaningful(tokens) == Spelled(items)
  {
    if Parse(tokens, false) == Ok(Parsed(items, [])) {
      ParseIsFaithful(tokens, false);
    }
    if Meaningful(tokens) == Spelled(items) {
      ParseIsComplete(tokens, false, items, []);
    }
  }
}
