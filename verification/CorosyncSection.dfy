/** `Section` objects: a forest on the heap that the printer and the parser work on. */
module CorosyncSection {
  import opened Sequences
  import opened Strings
  import opened CorosyncConf

  datatype Outcome<+E> = Pass | Fail(error: E)

  datatype CircularParentship = CircularParentship

  /** Ruby's `list.delete(x)`. */
  function Without<T(==)>(list: seq<T>, x: T): (r: seq<T>)
    ensures forall y <- r :: y in list && y != x
    ensures forall y <- list | y != x :: y in r
    ensures x !in list ==> r == list
    ensures NoRepeats(list) ==> NoRepeats(r)
  {
    if list == [] then []
    else
      assert list == [list[0]] + list[1..];
      assert NoRepeats(list) ==> NoRepeats(list[1..]) && list[0] !in list[1..];
      (if list[0] == x then [] else [list[0]]) + Without(list[1..], x)
  }

  /** The others stay in order. */
  lemma {:induction false} WithoutAppend<T>(a: seq<T>, b: seq<T>, x: T)
    ensures Without(a + b, x) == Without(a, x) + Without(b, x)
  {
    if a == [] {
      assert a + b == b;
    } else {
      assert (a + b)[1..] == a[1..] + b;
      WithoutAppend(a[1..], b, x);
      ConcatAssociates(if a[0] == x then [] else [a[0]], Without(a[1..], x), Without(b, x));
    }
  }

  class Section {
    const name: string
    var parent: Section?
    var attributeList: seq<Attribute>
    var sectionList: seq<Section>
    /** Larger than the rank of the parent: no section is its own ancestor. */
    ghost var rank: nat

    constructor (name: string)
      ensures this.name == name && parent == null && attributeList == [] && sectionList == []
    {
      this.name := name;
      parent, attributeList, sectionList := null, [], [];
    }

    method Root(ghost forest: set<Section>) returns (root: Section)
      requires this in forest && Forest(forest)
      ensures root in forest && root.parent == null && Under(this, root, forest)
    {
      root := this;
      while root.parent != null
        invariant root in forest
        invariant forall top | top in forest && Under(root, top, forest) :: Under(this, top, forest)
        decreases root.rank
      {
        root := root.parent;
      }
    }

    method AddAttribute(name: string, value: string)
      modifies this`attributeList
      ensures attributeList == old(attributeList) + [Attribute(name, value)]
    {
      attributeList := attributeList + [Attribute(name, value)];
    }

    method SetAttribute(name: string, value: string)
      modifies this`attributeList
      ensures attributeList == SetIn(old(attributeList), name, value)
    {
      var found := false;
      var newList: seq<Attribute> := [];
      for i := 0 to |attributeList|
        invariant attributeList == old(attributeList)
        invariant found == HasName(attributeList[..i], name)
        invariant newList == Replaced(attributeList[..i], name, value)
      {
        var a := attributeList[i];
        ReplacedSnoc(attributeList[..i], a, name, value);
        assert attributeList[..i + 1] == attributeList[..i] + [a];
        if a.name != name {
          newList := newList + [a];
        } else if !found {
          found := true;
          newList := newList + [Attribute(name, value)];
        }
      }
      assert attributeList[..|attributeList|] == attributeList;
      attributeList := newList;
      if !found {
        AddAttribute(name, value);
      }
    }

    /** Moves `section` to the end of this section's list, unless that would close a circle. */
    method AddSection(section: Section, ghost forest: set<Section>) returns (r: Outcome<CircularParentship>)
      requires this in forest && section in forest && Forest(forest)
      modifies this`sectionList, section`parent, Parents(section)`sectionList, forest`rank
      ensures Forest(forest)
      ensures r.Fail? <==> old(Under(this, section, forest))
      ensures r.Fail? ==> forall s <- forest ::
        s.parent == old(s.parent) && s.sectionList == old(s.sectionList) && s.rank == old(s.rank)
      ensures r.Pass? ==> section.parent == this && sectionList == Without(old(sectionList), section) + [section]
      ensures r.Pass? && old(section.parent) != null && old(section.parent) != this ==>
        old(section.parent).sectionList == old(Without(section.parent.sectionList, section))
    {
      var parent: Section? := this;
      while parent != null
        invariant parent != null ==> parent in forest
        invariant Under(this, section, forest) <==> parent != null && Under(parent, section, forest)
        decreases if parent == null then 0 else parent.rank + 1
      {
        if parent == section {
          return Fail(CircularParentship);
        }
        parent := parent.parent;
      }
      // the part of the forest that hangs from `section` moves along with it
      ghost var raised := set s | s in forest && Under(s, section, forest);
      assert forall s <- forest | s != section && s.parent != null :: (s in raised) == (s.parent in raised);
      assert section in raised;
      assert this !in raised;
      if section.parent != null {
        section.parent.DelSection(section, forest);
      }
      Adopt(section, forest, raised);
      r := Pass;
    }

    /** The linking step of `AddSection`; `raised` is the part of the forest that hangs from `section`. */
    method Adopt(section: Section, ghost forest: set<Section>, ghost raised: set<Section>)
      requires this in forest && section in forest && Forest(forest)
      requires section.parent == null && raised <= forest && section in raised && this !in raised
      requires forall s <- forest | s != section && s.parent != null :: (s in raised) == (s.parent in raised)
      modifies this`sectionList, section`parent, raised`rank
      ensures Forest(forest)
      ensures section.parent == this && sectionList == old(sectionList) + [section]
    {
      assert section !in sectionList;
      section.parent := this;
      sectionList := sectionList + [section];
      ghost var lift := rank + 1;
      forall s | s in raised {
        s.rank := s.rank + lift;
      }
      forall s <- forest | s.parent != null
        ensures s.parent in forest && s in s.parent.sectionList && s.parent.rank < s.rank
      {
        assert s != section ==> s.parent == old(s.parent) && old(s in s.parent.sectionList && s.parent.rank < s.rank);
      }
      forall s <- forest, c <- s.sectionList ensures c in forest && c.parent == s {
        assert c != section ==> c in old(s.sectionList);
      }
      assert NoRepeats(sectionList);
    }

    method TextOfAttributes() returns (lines: seq<string>)
      ensures lines == AttributeLines(attributeList)
    {
      lines := [];
      for i := 0 to |attributeList|
        invariant lines == AttributeLines(attributeList[..i])
      {
        lines := lines + [attributeList[i].name + ": " + attributeList[i].value];
      }
      assert attributeList[..|attributeList|] == attributeList;
    }

    /** One turn of the section loop in `Text`: take the lines of subsection `i` over, without a blank last one. */
    method TextOfSection(lines: seq<string>, i: nat, ghost t: Tree, ghost nodes: set<Section>)
      returns (longer: seq<string>)
      requires Represents(this, t, nodes) && i < |t.sections|
      ensures longer == lines + SectionChunk(t.sections, i)
      decreases t, 0
    {
      var text := sectionList[i].Text(INDENT, t.sections[i], nodes);
      SectionTextHasLines(t.sections[i]);
      longer := lines + Split(text, '\n');
      PopBlankLast(lines, Split(text, '\n'));
      if Strip(longer[|longer| - 1]) == "" {
        longer := longer[..|longer| - 1];
      }
      ConcatAssociates(lines, DropBlankLast(Split(text, '\n')), [""]);
      if i < |sectionList| - 1 {
        longer := longer + [""];
      }
    }

    method TextOfSections(lines: seq<string>, ghost t: Tree, ghost nodes: set<Section>) returns (longer: seq<string>)
      requires Represents(this, t, nodes)
      ensures longer == lines + SectionLines(t.sections)
      decreases t, 1
    {
      longer := lines;
      for i := 0 to |sectionList|
        invariant longer + SectionLines(t.sections[i..]) == lines + SectionLines(t.sections)
      {
        SectionLinesFrom(t.sections, i);
        ConcatAssociates(longer, SectionChunk(t.sections, i), SectionLines(t.sections[i + 1..]));
        longer := TextOfSection(longer, i, t, nodes);
      }
    }

    method Text(indent: string, ghost t: Tree, ghost nodes: set<Section>) returns (text: string)
      requires Represents(this, t, nodes)
      ensures text == Print(t, parent != null, indent)
      decreases t, 2
    {
      var lines := TextOfAttributes();
      if !(attributeList == [] || sectionList == []) {
        lines := lines + [""];
      }
      assert lines == AttributeLines(t.attributes) + Separator(t);
      lines := TextOfSections(lines, t, nodes);
      if parent != null {
        lines := [name + " {"] + IndentLines(indent, lines) + ["}"];
      }
      text := Join(lines, '\n');
      if text != "" {
        text := text + "\n";
      }
    }

    method DelSection(section: Section, ghost forest: set<Section>)
      requires this in forest && section in forest && Forest(forest)
      modifies this`sectionList, section`parent
      ensures Forest(forest)
      ensures sectionList == Without(old(sectionList), section)
      ensures section.parent == if section in old(sectionList) then null else old(section.parent)
    {
      if section in sectionList {
        assert section.parent == this && forall s <- forest | s != this :: section !in s.sectionList;
        sectionList := Without(sectionList, section);
        section.parent := null;
      }
    }
  }

  ghost function Parents(section: Section): set<Section>
    reads section`parent
  {
    if section.parent == null then {} else {section.parent}
  }

  // ----- the forest invariant ------------------------------------------------

  /** Parent pointers and section lists agree, and going up always ends. */
  ghost predicate Forest(forest: set<Section>)
    reads forest`parent, forest`sectionList, forest`rank
  {
    && (forall s {:trigger s.parent} | s in forest && s.parent != null ::
          s.parent in forest && s in s.parent.sectionList && s.parent.rank < s.rank)
    && (forall s <- forest, c <- s.sectionList :: c in forest && c.parent == s)
    && (forall s <- forest :: NoRepeats(s.sectionList))
  }

  /** `top` is `s` or one of its ancestors. */
  ghost predicate Under(s: Section, top: Section, forest: set<Section>)
    requires s in forest
    reads forest`parent, forest`rank
    decreases s.rank
  {
    s == top
    || (s.parent != null && s.parent in forest && s.parent.rank < s.rank && Under(s.parent, top, forest))
  }

  lemma {:induction false} UnderRanks(s: Section, top: Section, forest: set<Section>)
    requires s in forest && Under(s, top, forest)
    ensures top.rank <= s.rank
    decreases s.rank
  {
    if s != top {
      UnderRanks(s.parent, top, forest);
    }
  }

  /** In a forest no section is its own ancestor. */
  lemma NotOwnAncestor(s: Section, forest: set<Section>)
    requires Forest(forest) && s in forest && s.parent != null
    ensures !Under(s.parent, s, forest)
  {
    if Under(s.parent, s, forest) {
      UnderRanks(s.parent, s, forest);
    }
  }

  // ----- what a section and everything below it hold -------------------------

  ghost predicate Represents(s: Section, t: Tree, nodes: set<Section>)
    reads nodes`parent, nodes`attributeList, nodes`sectionList
    decreases t
  {
    && s in nodes && s.name == t.name && s.attributeList == t.attributes && |s.sectionList| == |t.sections|
    && forall i | 0 <= i < |t.sections| ::
      s.sectionList[i] in nodes && s.sectionList[i].parent == s && Represents(s.sectionList[i], t.sections[i], nodes)
  }

  lemma {:induction false} RepresentsMore(s: Section, t: Tree, nodes: set<Section>, more: set<Section>)
    requires Represents(s, t, nodes) && nodes <= more
    ensures Represents(s, t, more)
    decreases t
  {
    forall i | 0 <= i < |t.sections| ensures Represents(s.sectionList[i], t.sections[i], more) {
      RepresentsMore(s.sectionList[i], t.sections[i], nodes, more);
    }
  }

  /** Every section of a forest represents a tree; `height` bounds the ranks. */
  lemma {:induction false} HasTree(s: Section, forest: set<Section>, height: nat) returns (t: Tree)
    requires Forest(forest) && s in forest && forall x <- forest :: x.rank <= height
    ensures Represents(s, t, forest)
    decreases height - s.rank
  {
    var trees: seq<Tree> := [];
    for i := 0 to |s.sectionList|
      invariant |trees| == i
      invariant forall k | 0 <= k < i :: Represents(s.sectionList[k], trees[k], forest)
    {
      var child := s.sectionList[i];
      assert child in s.sectionList && child.parent == s;
      var tree := HasTree(child, forest, height);
      trees := trees + [tree];
    }
    forall k | 0 <= k < |s.sectionList| ensures s.sectionList[k] in forest && s.sectionList[k].parent == s {
      assert s.sectionList[k] in s.sectionList;
    }
    t := Tree(s.name, s.attributeList, trees);
  }

  /** ... and only one. */
  lemma {:induction false} HasOneTree(s: Section, t: Tree, u: Tree, nodes: set<Section>)
    requires Represents(s, t, nodes) && Represents(s, u, nodes)
    ensures t == u
    decreases t
  {
    forall i | 0 <= i < |t.sections| ensures t.sections[i] == u.sections[i] {
      HasOneTree(s.sectionList[i], t.sections[i], u.sections[i], nodes);
    }
    assert t.sections == u.sections;
  }

  /** A pop at the end of a longer list pops the last of what was added. */
  lemma PopBlankLast(lines: seq<string>, added: seq<string>)
    requires added != []
    ensures var longer := lines + added;
      lines + DropBlankLast(added) ==
        if Strip(longer[|longer| - 1]) == "" then longer[..|longer| - 1] else longer
  {
    var longer := lines + added;
    assert longer[|longer| - 1] == added[|added| - 1];
    assert longer[..|longer| - 1] == lines + added[..|added| - 1];
  }

  function SectionChunk(sections: seq<Tree>, i: nat): seq<string>
    requires i < |sections|
  {
    DropBlankLast(Split(Print(sections[i], true, INDENT), '\n')) + (if i < |sections| - 1 then [""] else [])
  }

  lemma SectionLinesFrom(sections: seq<Tree>, i: nat)
    requires i < |sections|
    ensures SectionLines(sections[i..]) == SectionChunk(sections, i) + SectionLines(sections[i + 1..])
  {
    assert sections[i..][1..] == sections[i + 1..];
  }

  lemma {:induction false} FieldsWithoutText(s: string, sep: char)
    requires Split(s, sep) == []
    ensures forall i | 0 <= i < |s| :: s[i] == sep
  {
    AllEmpty(Fields(s, sep));
    JoinOfFields(s, sep);
    JoinOfEmpty(Fields(s, sep), sep);
  }

  lemma {:induction false} AllEmpty(fields: seq<string>)
    requires DropTrailingEmpty(fields) == []
    ensures forall i | 0 <= i < |fields| :: fields[i] == ""
  {
    if fields != [] {
      AllEmpty(fields[..|fields| - 1]);
    }
  }

  lemma {:induction false} JoinOfEmpty(fields: seq<string>, sep: char)
    requires forall i | 0 <= i < |fields| :: fields[i] == ""
    ensures forall i | 0 <= i < |Join(fields, sep)| :: Join(fields, sep)[i] == sep
  {
    if |fields| > 1 {
      JoinOfEmpty(fields[1..], sep);
    }
  }

  /** A subsection always prints its closing brace, so its text has a last line. */
  lemma SectionTextHasLines(t: Tree)
    ensures Split(Print(t, true, INDENT), '\n') != []
  {
    var text := Print(t, true, INDENT);
    var lines := Framed(t, true, INDENT, AttributeLines(t.attributes) + Separator(t) + SectionLines(t.sections));
    JoinEndsIn(lines, '\n');
    assert text[|text| - 2] == '}';
    if Split(text, '\n') == [] {
      FieldsWithoutText(text, '\n');
    }
  }

  lemma {:induction false} JoinEndsIn(lines: seq<string>, sep: char)
    requires lines != [] && lines[|lines| - 1] == "}"
    ensures var text := Join(lines, sep); text != "" && text[|text| - 1] == '}'
  {
    if |lines| > 1 {
      JoinEndsIn(lines[1..], sep);
    }
  }

  // ----- attributes ----------------------------------------------------------

  predicate HasName(attributes: seq<Attribute>, name: string) {
    exists i | 0 <= i < |attributes| :: attributes[i].name == name
  }

  /** The first attribute of that name gets the value, later ones go. */
  function Replaced(attributes: seq<Attribute>, name: string, value: string): seq<Attribute> {
    if attributes == [] then []
    else
      var last := attributes[|attributes| - 1];
      var front := attributes[..|attributes| - 1];
      Replaced(front, name, value) +
      (if last.name != name then [last] else if HasName(front, name) then [] else [Attribute(name, value)])
  }

  function SetIn(attributes: seq<Attribute>, name: string, value: string): seq<Attribute> {
    Replaced(attributes, name, value) + if HasName(attributes, name) then [] else [Attribute(name, value)]
  }

  lemma ReplacedSnoc(front: seq<Attribute>, last: Attribute, name: string, value: string)
    ensures Replaced(front + [last], name, value) == Replaced(front, name, value) +
      if last.name != name then [last] else if HasName(front, name) then [] else [Attribute(name, value)]
    ensures HasName(front + [last], name) <==> HasName(front, name) || last.name == name
  {
    assert (front + [last])[..|front|] == front;
    if HasName(front, name) {
      var i :| 0 <= i < |front| && front[i].name == name;
      assert (front + [last])[i].name == name;
    }
    assert (front + [last])[|front|] == last;
  }

  function OthersThan(name: string, attributes: seq<Attribute>): seq<Attribute> {
    if attributes == [] then []
    else
      var last := attributes[|attributes| - 1];
      OthersThan(name, attributes[..|attributes| - 1]) + (if last.name == name then [] else [last])
  }

  lemma {:induction false} OthersThanSelects(name: string, attributes: seq<Attribute>)
    ensures Selects(attributes, OthersThan(name, attributes), (a: Attribute) => a.name != name)
  {
    if attributes != [] {
      var front, last := attributes[..|attributes| - 1], attributes[|attributes| - 1];
      OthersThanSelects(name, front);
      assert attributes == front + [last];
      SelectsAppend(front, [last], OthersThan(name, front), if last.name == name then [] else [last],
                    (a: Attribute) => a.name != name);
    }
  }

  /** Setting a value keeps the place of the first attribute of that name and drops the later ones. */
  lemma {:induction false} SetInReplacesFirst(
      before: seq<Attribute>, hit: Attribute, after: seq<Attribute>, name: string, value: string)
    requires !HasName(before, name) && hit.name == name
    ensures SetIn(before + [hit] + after, name, value) == before + [Attribute(name, value)] + OthersThan(name, after)
  {
    assert (before + [hit] + after)[|before|].name == name;
    if after == [] {
      assert before + [hit] + after == before + [hit];
      ReplacedSnoc(before, hit, name, value);
      ReplacedNothing(before, name, value);
    } else {
      var front, last := after[..|after| - 1], after[|after| - 1];
      assert before + [hit] + after == (before + [hit] + front) + [last];
      assert (before + [hit] + front)[|before|].name == name;
      SetInReplacesFirst(before, hit, front, name, value);
      ReplacedSnoc(before + [hit] + front, last, name, value);
      var kept := if last.name == name then [] else [last];
      assert SetIn(before + [hit] + after, name, value) == SetIn(before + [hit] + front, name, value) + kept;
      assert OthersThan(name, after) == OthersThan(name, front) + kept;
    }
  }

  lemma {:induction false} ReplacedNothing(attributes: seq<Attribute>, name: string, value: string)
    requires !HasName(attributes, name)
    ensures Replaced(attributes, name, value) == attributes
  {
    if attributes != [] {
      var front, last := attributes[..|attributes| - 1], attributes[|attributes| - 1];
      assert attributes == front + [last];
      ReplacedSnoc(front, last, name, value);
      ReplacedNothing(front, name, value);
    }
  }

  /** ... and appends when there is none. */
  lemma SetInAppends(attributes: seq<Attribute>, name: string, value: string)
    requires !HasName(attributes, name)
    ensures SetIn(attributes, name, value) == attributes + [Attribute(name, value)]
  {
    ReplacedNothing(attributes, name, value);
  }
}
