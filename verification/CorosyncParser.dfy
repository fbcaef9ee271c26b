/** The parser as it runs: one shared line buffer, sections linked into the forest as they are opened. */
module CorosyncParser {
  import opened Sequences
  import opened Strings
  import opened CorosyncConf
  import opened CorosyncSection

  /** The array of lines that every recursive call takes lines from. */
  class LineBuffer {
    var lines: seq<string>

    constructor (lines: seq<string>)
      ensures this.lines == lines
    {
      this.lines := lines;
    }

    method Shift() returns (line: string)
      requires lines != []
      modifies this
      ensures line == old(lines[0]) && lines == old(lines[1..])
    {
      line := lines[0];
      lines := lines[1..];
    }
  }

  /** Items already read, put in front of what is still to be read. */
  function PrependAll(items: seq<Item>, r: Result<Parsed>): Result<Parsed> {
    match r
    case Err(e) => Err(e)
    case Ok(p) => Ok(Parsed(items + p.items, p.rest))
  }

  lemma PrependNothing(r: Result<Parsed>)
    ensures PrependAll([], r) == r
  {
    if r.Ok? {
      assert [] + r.value.items == r.value.items;
    }
  }

  lemma PrependMore(items: seq<Item>, more: seq<Item>, r: Result<Parsed>)
    ensures PrependAll(items, PrependAll(more, r)) == PrependAll(items + more, r)
  {
    if r.Ok? {
      assert items + (more + r.value.items) == items + more + r.value.items;
    }
  }

  lemma BuildOne(item: Item)
    ensures AttributesOf([item]) == if item.Leaf? then [item.attribute] else []
    ensures SectionsOf([item]) == if item.Block? then [Build(item.name, item.body)] else []
  {
    var items := [item];
    assert AttributesOf(items[1..]) == [] && SectionsOf(items[1..]) == [];
  }

  /** `sections` are children of `owner` that represent `trees`, within `nodes`. */
  ghost predicate Children(owner: Section, sections: seq<Section>, trees: seq<Tree>, nodes: set<Section>)
    reads nodes`parent, nodes`attributeList, nodes`sectionList
  {
    && |sections| == |trees|
    && forall i | 0 <= i < |trees| ::
      sections[i] in nodes && sections[i].parent == owner && Represents(sections[i], trees[i], nodes)
  }

  lemma ChildrenMore(owner: Section, sections: seq<Section>, trees: seq<Tree>, nodes: set<Section>, more: set<Section>)
    requires Children(owner, sections, trees, nodes) && nodes <= more
    ensures Children(owner, sections, trees, more)
  {
    forall i | 0 <= i < |trees| ensures Represents(sections[i], trees[i], more) {
      RepresentsMore(sections[i], trees[i], nodes, more);
    }
  }

  /** A section that was filled with what `items` say stands for the tree built from them. */
  lemma ReadIsBuilt(section: Section, items: seq<Item>, added: seq<Section>, inner: set<Section>)
    requires section.attributeList == AttributesOf(items) && section.sectionList == added
    requires Children(section, added, SectionsOf(items), inner)
    ensures Represents(section, Build(section.name, items), {section} + inner)
  {
    ChildrenMore(section, added, SectionsOf(items), inner, {section} + inner);
  }

  lemma ChildrenAppend(owner: Section, a: seq<Section>, s: seq<Tree>, m: set<Section>,
                       b: seq<Section>, t: seq<Tree>, n: set<Section>)
    requires Children(owner, a, s, m) && Children(owner, b, t, n)
    ensures Children(owner, a + b, s + t, m + n)
  {
    ChildrenMore(owner, a, s, m, m + n);
    ChildrenMore(owner, b, t, n, m + n);
  }

  /** Ancestors of a forest's section are in the forest. */
  lemma {:induction false} UnderStaysInside(s: Section, top: Section, forest: set<Section>, more: set<Section>)
    requires Forest(forest) && s in forest && forest <= more && Under(s, top, more)
    ensures top in forest
    decreases s.rank
  {
    if s != top {
      UnderStaysInside(s.parent, top, forest, more);
    }
  }

  method AddNewSection(section: Section, sectionName: string, ghost forest: set<Section>) returns (newSection: Section)
    requires section in forest && Forest(forest)
    modifies section`sectionList, forest`rank
    ensures fresh(newSection) && Forest(forest + {newSection})
    ensures newSection.name == sectionName && newSection.parent == section
    ensures newSection.attributeList == [] && newSection.sectionList == []
    ensures section.sectionList == old(section.sectionList) + [newSection]
  {
    newSection := new Section(sectionName);
    ghost var more := forest + {newSection};
    assert Forest(more);
    if Under(section, newSection, more) {
      UnderStaysInside(section, newSection, forest, more);
    }
    var _ := section.AddSection(newSection, more);
  }

  /** How a turn of the loop in `ParseSection` ends. */
  datatype Turn = Next | Return | Raise(error: ParseError)

  /** What `Parse` makes of the lines left over after a turn. */
  function Remaining(turn: Turn, lines: seq<string>, nested: bool): Result<Parsed> {
    match turn
    case Next => Parse(ClassifyAll(lines), nested)
    case Return => Ok(Parsed([], ClassifyAll(lines)))
    case Raise(e) => Err(e)
  }

  /** The branch of `ParseSection` for an opening line: a new section is linked in, then filled. */
  method OpenSection(buffer: LineBuffer, section: Section, sectionName: string, ghost forest: set<Section>)
    returns (turn: Turn, ghost items: seq<Item>, ghost newSection: Section, ghost nodes: set<Section>)
    requires section in forest && Forest(forest)
    modifies buffer, section`sectionList, forest`rank
    ensures fresh(nodes) && Forest(forest + nodes)
    ensures section.sectionList == old(section.sectionList) + [newSection]
    ensures turn == Next || turn.Raise?
    ensures Parse(ClassifyAll(old(buffer.lines)), true) ==
      if turn.Next? then Ok(Parsed(items, ClassifyAll(buffer.lines))) else Err(turn.error)
    ensures turn.Next? ==>
      newSection in nodes && newSection.parent == section && Represents(newSection, Build(sectionName, items), nodes)
    ensures |buffer.lines| <= |old(buffer.lines)|
    ensures turn.Next? ==> |buffer.lines| < |old(buffer.lines)|
    decreases |buffer.lines|, 3
  {
    var made := AddNewSection(section, sectionName, forest);
    newSection := made;
    var r;
    ghost var added, inner;
    r, items, added, inner := ParseSection(buffer, made, forest + {made});
    nodes := {made} + inner;
    assert forest + nodes == forest + {made} + inner;
    if r.Pass? {
      ReadIsBuilt(made, items, added, inner);
    }
    turn := if r.Pass? then Next else Raise(r.error);
  }

  lemma OpenTurn(tokens: seq<Token>, nested: bool, items: seq<Item>, turn: Turn, lines: seq<string>)
    requires tokens != [] && tokens[0].Open? && (turn.Next? || turn.Raise?)
    requires Parse(tokens[1..], true) ==
      if turn.Next? then Ok(Parsed(items, ClassifyAll(lines))) else Err(turn.error)
    ensures Parse(tokens, nested) == PrependAll([Block(tokens[0].name, items)], Remaining(turn, lines, nested))
  {
  }

  lemma PairTurn(tokens: seq<Token>, nested: bool, a: Attribute, lines: seq<string>)
    requires tokens != [] && tokens[0] == Pair(a) && tokens[1..] == ClassifyAll(lines)
    ensures Parse(tokens, nested) == PrependAll([Leaf(a)], Remaining(Next, lines, nested))
    ensures AttributesOf([Leaf(a)]) == [a] && SectionsOf([Leaf(a)]) == []
  {
    BuildOne(Leaf(a));
  }

  /** One turn of the loop: takes one line, and the whole subsection if the line opens one. */
  method ParseLine(buffer: LineBuffer, section: Section, ghost forest: set<Section>)
    returns (turn: Turn, ghost read: seq<Item>, ghost added: seq<Section>, ghost nodes: set<Section>)
    requires section in forest && Forest(forest) && buffer.lines != []
    modifies buffer, section`attributeList, section`sectionList, forest`rank
    ensures fresh(nodes) && Forest(forest + nodes)
    ensures |buffer.lines| < |old(buffer.lines)|
    ensures section.attributeList == old(section.attributeList) + AttributesOf(read)
    ensures section.sectionList == old(section.sectionList) + added
    ensures !turn.Raise? ==> Children(section, added, SectionsOf(read), nodes)
    ensures Parse(ClassifyAll(old(buffer.lines)), section.parent != null) ==
      PrependAll(read, Remaining(turn, buffer.lines, section.parent != null))
    ensures turn.Return? ==> section.parent != null
    decreases |buffer.lines|, 0
  {
    ghost var tokens := ClassifyAll(buffer.lines);
    var line := buffer.Shift();
    assert tokens[0] == Classify(line) && tokens[1..] == ClassifyAll(buffer.lines);
    match Classify(line)
    case Open(name) => turn, read, added, nodes := OpenLine(buffer, section, name, forest, tokens);
    case token =>
      turn, read := PlainLine(section, token, forest, tokens, buffer.lines);
      added, nodes := [], {};
  }

  /** The turn for any other line, with `lines` to come. */
  method PlainLine(section: Section, token: Token, ghost forest: set<Section>,
                   ghost tokens: seq<Token>, ghost lines: seq<string>)
    returns (turn: Turn, ghost read: seq<Item>)
    requires Forest(forest)
    requires tokens != [] && tokens[0] == token && !token.Open? && tokens[1..] == ClassifyAll(lines)
    modifies section`attributeList
    ensures Forest(forest + {})
    ensures section.attributeList == old(section.attributeList) + AttributesOf(read) && SectionsOf(read) == []
    ensures Parse(tokens, section.parent != null) == PrependAll(read, Remaining(turn, lines, section.parent != null))
    ensures turn.Return? ==> section.parent != null
  {
    read := [];
    assert forest + {} == forest;
    PrependNothing(Parse(tokens, section.parent != null));
    match token
    case Ignored => turn := Next;
    case Bad(e) => turn := Raise(e);
    case Close => turn := if section.parent == null then Raise(UnexpectedClosingBrace) else Return;
    case Pair(a) =>
      section.AddAttribute(a.name, a.value);
      turn, read := Next, [Leaf(a)];
      PairTurn(tokens, section.parent != null, a, lines);
  }

  /** The turn for an opening line, which was taken from the buffer. */
  method OpenLine(buffer: LineBuffer, section: Section, name: string, ghost forest: set<Section>,
                  ghost tokens: seq<Token>)
    returns (turn: Turn, ghost read: seq<Item>, ghost added: seq<Section>, ghost nodes: set<Section>)
    requires section in forest && Forest(forest)
    requires tokens != [] && tokens[0] == Open(name) && tokens[1..] == ClassifyAll(buffer.lines)
    modifies buffer, section`sectionList, forest`rank
    ensures fresh(nodes) && Forest(forest + nodes)
    ensures |buffer.lines| <= |old(buffer.lines)|
    ensures AttributesOf(read) == [] && section.sectionList == old(section.sectionList) + added
    ensures !turn.Return? && (turn.Next? ==> Children(section, added, SectionsOf(read), nodes))
    ensures Parse(tokens, section.parent != null) ==
      PrependAll(read, Remaining(turn, buffer.lines, section.parent != null))
    decreases |buffer.lines|, 4
  {
    ghost var items, child;
    turn, items, child, nodes := OpenSection(buffer, section, name, forest);
    read, added := [Block(name, items)], [child];
    BuildOne(Block(name, items));
    OpenTurn(tokens, section.parent != null, items, turn, buffer.lines);
  }

  ghost predicate SoFar(section: Section, attributes: seq<Attribute>, sections: seq<Section>,
                        items: seq<Item>, added: seq<Section>)
    reads section`attributeList, section`sectionList
  {
    section.attributeList == attributes + AttributesOf(items) && section.sectionList == sections + added
  }

  /** The same turn, added to what earlier turns have read. */
  method ParseMore(buffer: LineBuffer, section: Section, ghost forest: set<Section>, ghost tokens: seq<Token>,
                   ghost attributes: seq<Attribute>, ghost sections: seq<Section>,
                   ghost items: seq<Item>, ghost added: seq<Section>, ghost nodes: set<Section>)
    returns (turn: Turn, ghost items': seq<Item>, ghost added': seq<Section>, ghost nodes': set<Section>)
    requires section in forest && Forest(forest + nodes) && buffer.lines != []
    requires Parse(tokens, section.parent != null) ==
      PrependAll(items, Parse(ClassifyAll(buffer.lines), section.parent != null))
    requires SoFar(section, attributes, sections, items, added)
    requires Children(section, added, SectionsOf(items), nodes) && section !in nodes
    modifies buffer, section`attributeList, section`sectionList, (forest + nodes)`rank
    ensures nodes <= nodes' && fresh(nodes' - nodes) && Forest(forest + nodes')
    ensures |buffer.lines| < |old(buffer.lines)|
    ensures Parse(tokens, section.parent != null) ==
      PrependAll(items', Remaining(turn, buffer.lines, section.parent != null))
    ensures turn.Return? ==> section.parent != null
    ensures SoFar(section, attributes, sections, items', added')
    ensures !turn.Raise? ==> Children(section, added', SectionsOf(items'), nodes')
    decreases |buffer.lines|, 1
  {
    ghost var read, child, inner;
    turn, read, child, inner := ParseLine(buffer, section, forest + nodes);
    assert forest + nodes + inner == forest + (nodes + inner);
    PrependMore(items, read, Remaining(turn, buffer.lines, section.parent != null));
    BuildAppend(items, read);
    ConcatAssociates(attributes, AttributesOf(items), AttributesOf(read));
    ConcatAssociates(sections, added, child);
    if !turn.Raise? {
      ChildrenAppend(section, added, SectionsOf(items), nodes, child, SectionsOf(read), inner);
    }
    items', added', nodes' := items + read, added + child, nodes + inner;
  }

  /** What the loop has read when it ends. */
  lemma EndsAs(tokens: seq<Token>, nested: bool, items: seq<Item>, turn: Turn, lines: seq<string>)
    requires Parse(tokens, nested) == PrependAll(items, Remaining(turn, lines, nested))
    requires turn.Next? ==> lines == []
    ensures Parse(tokens, nested) ==
      match turn
      case Raise(e) => Err(e)
      case Return => Ok(Parsed(items, ClassifyAll(lines)))
      case Next => if nested then Err(MissingClosingBrace) else Ok(Parsed(items, []))
  {
    assert items + [] == items;
  }

  /**
   * Reads the lines of `section` up to its closing brace. `forest` are the sections known so far; `nodes` are
   * the ones made here.
   */
  method ParseSection(buffer: LineBuffer, section: Section, ghost forest: set<Section>)
    returns (r: Outcome<ParseError>, ghost items: seq<Item>, ghost added: seq<Section>, ghost nodes: set<Section>)
    requires section in forest && Forest(forest)
    modifies buffer, section`attributeList, section`sectionList, forest`rank
    ensures fresh(nodes) && Forest(forest + nodes)
    ensures Parse(ClassifyAll(old(buffer.lines)), section.parent != null) ==
      if r.Pass? then Ok(Parsed(items, ClassifyAll(buffer.lines))) else Err(r.error)
    ensures section.attributeList == old(section.attributeList) + AttributesOf(items)
    ensures r.Pass? ==> Children(section, added, SectionsOf(items), nodes)
    ensures section.sectionList == old(section.sectionList) + added
    ensures |buffer.lines| <= |old(buffer.lines)|
    ensures r == Pass && section.parent != null ==> |buffer.lines| < |old(buffer.lines)|
    decreases |buffer.lines|, 2
  {
    ghost var tokens, nested := ClassifyAll(buffer.lines), section.parent != null;
    items, added, nodes := [], [], {};
    assert forest + nodes == forest;
    PrependNothing(Parse(tokens, nested));
    var turn := Next;
    while turn.Next? && buffer.lines != []
      invariant |buffer.lines| <= |old(buffer.lines)|
      invariant turn.Return? ==> nested && |buffer.lines| < |old(buffer.lines)|
      invariant fresh(nodes) && Forest(forest + nodes)
      invariant Parse(tokens, nested) == PrependAll(items, Remaining(turn, buffer.lines, nested))
      invariant SoFar(section, old(section.attributeList), old(section.sectionList), items, added)
      invariant !turn.Raise? ==> Children(section, added, SectionsOf(items), nodes)
      decreases |buffer.lines|
    {
      turn, items, added, nodes := ParseMore(
        buffer, section, forest, tokens, old(section.attributeList), old(section.sectionList), items, added, nodes);
    }
    EndsAs(tokens, nested, items, turn, buffer.lines);
    r := match turn
      case Raise(e) => Fail(e)
      case Return => Pass
      case Next => if section.parent != null then Fail(MissingClosingBrace) else Pass;
  }

  /** The result of reading a whole text: a root section, or the error. */
  method ParseString(confText: string)
    returns (root: Section, r: Outcome<ParseError>, ghost t: Tree, ghost nodes: set<Section>)
    ensures fresh(nodes) && Forest(nodes) && root in nodes && root.parent == null
    ensures ParseText(confText) == if r.Pass? then Ok(t) else Err(r.error)
    ensures r.Pass? ==> Represents(root, t, nodes)
  {
    root := new Section("");
    var buffer := new LineBuffer(Split(confText, '\n'));
    ghost var items, added, inner;
    assert Forest({root});
    r, items, added, inner := ParseSection(buffer, root, {root});
    nodes := {root} + inner;
    t := Build("", items);
    if r.Pass? {
      ReadIsBuilt(root, items, added, inner);
    }
  }
}
