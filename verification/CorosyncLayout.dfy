/** The look of a printed corosync.conf: four blanks for each level, blank lines between parts, one line after another. */
module CorosyncLayout {
  import opened Sequences
  import opened Strings
  import opened CorosyncConf
  import opened CorosyncRoundTrip

  /** The lines inside a section, each after the margin: attributes, a blank line if both kinds follow, subsections. */
  function Inside(t: Tree, margin: string): seq<string>
    decreases t, 1
  {
    Pairs(t.attributes, margin)
    + (if t.attributes != [] && t.sections != [] then [""] else [])
    + Subsections(t.sections, margin)
  }

  function Pairs(attributes: seq<Attribute>, margin: string): seq<string> {
    seq(|attributes|,
        i requires 0 <= i < |attributes| => margin + attributes[i].name + ": " + attributes[i].value)
  }

  function Subsections(sections: seq<Tree>, margin: string): seq<string>
    decreases sections, 0
  {
    if sections == [] then []
    else
      [margin + sections[0].name + " {"] + Inside(sections[0], margin + "    ") + [margin + "}"]
      + (if |sections| > 1 then [""] else [])
      + Subsections(sections[1..], margin)
  }

  /** Every line ends in a line break. */
  function Written(lines: seq<string>): string {
    if lines == [] then "" else lines[0] + "\n" + Written(lines[1..])
  }

  lemma {:induction false} WrittenIsJoined(lines: seq<string>)
    requires lines != []
    ensures Written(lines) == Join(lines, '\n') + "\n"
  {
    if |lines| == 1 {
      assert Written(lines[1..]) == "";
    } else {
      WrittenIsJoined(lines[1..]);
    }
  }

  lemma IndentAppend(a: seq<string>, b: seq<string>)
    ensures IndentLines(INDENT, a + b) == IndentLines(INDENT, a) + IndentLines(INDENT, b)
  {
  }

  lemma IndentOne(line: string)
    ensures IndentLines(INDENT, [line]) == [if line == "" then "" else "    " + line]
  {
  }

  lemma IndentPairs(attributes: seq<Attribute>, margin: string)
    ensures IndentLines(INDENT, Pairs(attributes, margin)) == Pairs(attributes, "    " + margin)
  {
    forall i | 0 <= i < |attributes|
      ensures IndentLine(INDENT, Pairs(attributes, margin)[i]) == Pairs(attributes, "    " + margin)[i]
    {
      var (name, value) := (attributes[i].name, attributes[i].value);
      assert "    " + (margin + name + ": " + value) == "    " + margin + name + ": " + value;
    }
  }

  /** Indenting lines once more widens the margin. */
  lemma {:induction false} IndentInside(t: Tree, margin: string)
    ensures IndentLines(INDENT, Inside(t, margin)) == Inside(t, "    " + margin)
    decreases t, 1
  {
    var blank := if t.attributes != [] && t.sections != [] then [""] else [];
    IndentPairs(t.attributes, margin);
    IndentSubsections(t.sections, margin);
    IndentAppend(Pairs(t.attributes, margin) + blank, Subsections(t.sections, margin));
    IndentAppend(Pairs(t.attributes, margin), blank);
    assert IndentLines(INDENT, blank) == blank;
  }

  lemma {:induction false} IndentSubsections(sections: seq<Tree>, margin: string)
    ensures IndentLines(INDENT, Subsections(sections, margin)) == Subsections(sections, "    " + margin)
    decreases sections, 0
  {
    if sections != [] {
      var s, wide := sections[0], "    " + margin;
      var (head, body, tail) := ([margin + s.name + " {"], Inside(s, margin + "    "), [margin + "}"]);
      var blank := if |sections| > 1 then [""] else [];
      IndentInside(s, margin + "    ");
      IndentSubsections(sections[1..], margin);
      IndentAppend(head + body + tail + blank, Subsections(sections[1..], margin));
      IndentAppend(head + body + tail, blank);
      IndentAppend(head + body, tail);
      IndentAppend(head, body);
      IndentOne(margin + s.name + " {");
      IndentOne(margin + "}");
      assert IndentLines(INDENT, blank) == blank;
      assert "    " + (margin + s.name + " {") == wide + s.name + " {" && "    " + (margin + "}") == wide + "}";
      assert "    " + (margin + "    ") == wide + "    ";
    }
  }

  lemma {:induction false} LinesAreInside(t: Tree, indent: string)
    ensures Lines(t, false, indent) == Inside(t, "")
    decreases t, 1
  {
    SectionLinesAreInside(t.sections);
    forall i | 0 <= i < |t.attributes| ensures AttributeLines(t.attributes)[i] == Pairs(t.attributes, "")[i] {
      assert "" + t.attributes[i].name == t.attributes[i].name;
    }
  }

  lemma {:induction false} SectionLinesAreInside(sections: seq<Tree>)
    ensures AllSectionLines(sections) == Subsections(sections, "")
    decreases sections, 0
  {
    if sections != [] {
      var s := sections[0];
      LinesAreInside(s, INDENT);
      IndentInside(s, "");
      SectionLinesAreInside(sections[1..]);
      assert "    " + "" == "" + "    " && "" + s.name + " {" == s.name + " {" && "" + "}" == "}";
      assert Lines(s, true, INDENT) == [s.name + " {"] + IndentLines(INDENT, Lines(s, false, INDENT)) + ["}"];
    }
  }

  /** The text of a root: its lines in this look, whatever indentation was asked for. */
  lemma PrintedText(t: Tree, indent: string)
    requires WfTree(t)
    ensures Print(t, false, indent) == Written(Inside(t, ""))
  {
    PrintIsLines(t, false, indent);
    LinesAreInside(t, indent);
    var lines := Inside(t, "");
    if lines != [] {
      LastLineHasText(t, indent);
      TerminatedJoin(lines);
      WrittenIsJoined(lines);
    }
  }
}
