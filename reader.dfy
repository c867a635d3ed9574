/**
 * `_read_diagram` (src/routers/erd.py:25-38): the Mermaid source inside the generated
 * markdown file, with the opening and closing fence lines removed. Whether the file
 * exists and what it holds are inputs: `None` for a missing file, otherwise its text.
 */
module ErdReader {
  import opened Wrappers
  import opened Text
  import opened Schema
  import opened Mermaid

  /** Lines 34-35: a first line that starts with a fence is dropped. */
  function DropOpeningFence(lines: seq<string>): seq<string>
  {
    if |lines| > 0 && StartsWith(lines[0], "```") then lines[1..] else lines
  }

  /** Lines 36-37: a last line that is a fence, apart from surrounding whitespace, is dropped. */
  function DropClosingFence(lines: seq<string>): seq<string>
  {
    if |lines| > 0 && Strip(lines[|lines| - 1]) == "```" then lines[..|lines| - 1] else lines
  }

  /** The whole text is stripped and split into lines; the fences go; the rest is re-joined by "\n". */
  function ReadDiagram(file: Option<string>): (source: Option<string>)
    ensures source.None? <==> file.None?
  {
    match file
    case None => None
    case Some(text) => Some(Join(DropClosingFence(DropOpeningFence(SplitLines(Strip(text)))), "\n"))
  }

  /** Surrounding whitespace of the file does not matter: the text is stripped before it is split. */
  lemma ReadStripped(text: string)
    ensures ReadDiagram(Some(text)) == ReadDiagram(Some(Strip(text)))
  {
    StripStrip(text);
  }

  /** A file whose only line is a fence holds no source. */
  lemma OnlyFence()
    ensures ReadDiagram(Some("```")) == Some("")
  {
    StripAppendedSpace("```", "");
    assert "```" + "" == "```";
    SplitLinesJoin(["```"]);
  }

  /**
   * A fenced text, followed by any whitespace, reads back as its interior lines, blank
   * ones included, joined by "\n".
   */
  lemma ReadFenced(lines: seq<string>, pad: string)
    requires |lines| >= 2
    requires forall i :: 0 <= i < |lines| ==> '\n' !in lines[i]
    requires StartsWith(lines[0], "```") && lines[|lines| - 1] == "```"
    requires AllSpace(pad)
    ensures ReadDiagram(Some(Join(lines, "\n") + pad)) == Some(Join(lines[1..|lines| - 1], "\n"))
  {
    var text := Join(lines, "\n");
    calc {
      ReadDiagram(Some(text + pad));
      Some(Join(DropClosingFence(DropOpeningFence(SplitLines(Strip(text + pad)))), "\n"));
      { StripFenced(lines, pad); }
      Some(Join(DropClosingFence(DropOpeningFence(SplitLines(text))), "\n"));
      { SplitLinesJoin(lines); }
      Some(Join(DropClosingFence(DropOpeningFence(lines)), "\n"));
      { FenceLines(lines); }
      Some(Join(lines[1..|lines| - 1], "\n"));
    }
  }

  /** Whitespace after a fenced text is stripped away, and nothing else. */
  lemma StripFenced(lines: seq<string>, pad: string)
    requires |lines| >= 2
    requires StartsWith(lines[0], "```") && lines[|lines| - 1] == "```"
    requires AllSpace(pad)
    ensures Strip(Join(lines, "\n") + pad) == Join(lines, "\n")
  {
    FencedEnds(lines);
    StripAppendedSpace(Join(lines, "\n"), pad);
  }

  /** A fenced text joined by "\n" starts and ends with a backtick. */
  lemma FencedEnds(lines: seq<string>)
    requires |lines| >= 2
    requires StartsWith(lines[0], "```") && lines[|lines| - 1] == "```"
    ensures var text := Join(lines, "\n"); |text| > 0 && text[0] == '`' && text[|text| - 1] == '`'
  {
    var text := Join(lines, "\n");
    JoinEnds(lines, "\n");
    assert text[0] == '`' by {
      assert lines[0][..3] == "```";
      assert text[..|lines[0]|] == lines[0];
      assert text[0] == lines[0][0];
    }
    assert text[|text| - 1] == '`' by {
      assert text[|text| - 3..] == "```";
    }
  }

  /** Both fences of a fenced list of lines are dropped, and nothing else. */
  lemma FenceLines(lines: seq<string>)
    requires |lines| >= 2
    requires StartsWith(lines[0], "```") && lines[|lines| - 1] == "```"
    ensures DropClosingFence(DropOpeningFence(lines)) == lines[1..|lines| - 1]
  {
    assert DropOpeningFence(lines) == lines[1..];
    assert Strip("```") == "```" by {
      StripAppendedSpace("```", "");
      assert "```" + "" == "```";
    }
    assert lines[1..][..|lines| - 2] == lines[1..|lines| - 1];
  }

  /**
   * Round trip with the generator: the file `build_diagram` plus a final "\n" produces
   * reads back as the diagram's lines without the two fences, which starts with
   * `erDiagram`.
   */
  lemma ReadBack(tables: map<string, TableInfo>, fks: seq<ForeignKeyInfo>)
    requires NoLineBreaks(tables, fks)
    ensures var lines := DiagramLines(tables, fks);
      ReadDiagram(Some(Diagram(tables, fks) + "\n")) == Some(Join(lines[1..|lines| - 1], "\n"))
    ensures ReadDiagram(Some(Diagram(tables, fks) + "\n")).Some?
    ensures StartsWith(ReadDiagram(Some(Diagram(tables, fks) + "\n")).value, "erDiagram")
  {
    var lines := DiagramLines(tables, fks);
    DiagramFrame(tables, fks);
    DiagramLinesNoBreaks(tables, fks);
    assert StartsWith(lines[0], "```");
    ReadFenced(lines, "\n");
    JoinEnds(lines[1..|lines| - 1], "\n");
  }
}
