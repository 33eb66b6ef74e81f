/**
 * The registry file as a stream of characters and as the lines a reader sees.
 * Writing a line is "the line, then endl"; reading is repeated getline, which
 * returns the characters up to the next '\n' and drops the '\n'.
 */
module Lines {

  predicate NoLineBreak(s: string) {
    forall i :: 0 <= i < |s| ==> s[i] != '\n'
  }

  predicate StartsWith(s: string, prefix: string) {
    |prefix| <= |s| && s[..|prefix|] == prefix
  }

  /** Whether the text's last character is a line break, as after a final endl. */
  predicate EndsWithLineBreak(text: string) {
    |text| > 0 && text[|text| - 1] == '\n'
  }

  /** The text written by sending each line followed by endl: it ends in a line break unless nothing was written. */
  function Render(lines: seq<string>): (text: string)
    ensures EndsWithLineBreak(text) <==> lines != []
    ensures lines == [] ==> text == []
  {
    if lines == [] then "" else lines[0] + "\n" + Render(lines[1..])
  }

  /** Length of the first line of text: the position of the first '\n', or the whole text. */
  function LineEnd(text: string): (k: nat)
    ensures k <= |text|
    ensures NoLineBreak(text[..k])
    ensures k < |text| ==> text[k] == '\n'
  {
    if text == [] || text[0] == '\n' then 0
    else
      var k := 1 + LineEnd(text[1..]);
      assert text[..k] == [text[0]] + text[1..][..k - 1];
      k
  }

  /**
   * The lines that successive getline calls return before the first one fails:
   * a last line without a terminating '\n' is still returned, and a text that
   * ends in '\n' yields no empty last line.
   */
  function SplitLines(text: string): (lines: seq<string>)
    ensures forall i :: 0 <= i < |lines| ==> NoLineBreak(lines[i])
    decreases |text|
  {
    if text == [] then []
    else
      var k := LineEnd(text);
      if k == |text| then [text] else [text[..k]] + SplitLines(text[k + 1..])
  }

  lemma {:induction false} RenderAppend(a: seq<string>, b: seq<string>)
    ensures Render(a + b) == Render(a) + Render(b)
  {
    if a != [] {
      assert (a + b)[0] == a[0];
      assert (a + b)[1..] == a[1..] + b;
      RenderAppend(a[1..], b);
      assert Render(a + b) == a[0] + "\n" + (Render(a[1..]) + Render(b));
    } else {
      assert a + b == b;
    }
  }

  /** Writing one more line appends it and its line break to the text. */
  lemma RenderSnoc(lines: seq<string>, line: string)
    ensures Render(lines + [line]) == Render(lines) + line + "\n"
  {
    RenderAppend(lines, [line]);
    assert Render([line]) == line + "\n" + Render([]);
  }

  /** Writing four more lines appends each of them and its line break to the text. */
  lemma RenderSnoc4(lines: seq<string>, a: string, b: string, c: string, d: string)
    ensures Render(lines + [a, b, c, d]) == Render(lines) + a + "\n" + b + "\n" + c + "\n" + d + "\n"
  {
    assert lines + [a, b, c, d] == lines + [a] + [b] + [c] + [d];
    RenderSnoc(lines, a);
    RenderSnoc(lines + [a], b);
    RenderSnoc(lines + [a] + [b], c);
    RenderSnoc(lines + [a] + [b] + [c], d);
  }

  /** The first line of a rendered text is the first line written. */
  lemma LineEndOfRendered(line: string, rest: string)
    requires NoLineBreak(line)
    ensures LineEnd(line + "\n" + rest) == |line|
  {
    var text := line + "\n" + rest;
    assert text[|line|] == '\n';
    assert forall j :: 0 <= j < |line| ==> text[j] == line[j];
  }

  /** A text with no line break at all is one line, returned by the first getline. */
  lemma SplitSingleLine(text: string)
    requires text != [] && NoLineBreak(text)
    ensures SplitLines(text) == [text]
  {
  }

  /**
   * Writing back the lines getline returns restores the text, with a line
   * break added when its last line had none: the lines are exactly the text's
   * segments between line breaks.
   */
  lemma {:induction false} RenderSplit(text: string)
    ensures Render(SplitLines(text)) == if text == [] || EndsWithLineBreak(text) then text else text + "\n"
    decreases |text|
  {
    if text != [] {
      var k := LineEnd(text);
      if k == |text| {
        assert text[..k] == text;
        assert Render([text]) == text + "\n" + Render([]);
      } else {
        var rest := text[k + 1..];
        var tail := SplitLines(rest);
        assert SplitLines(text) == [text[..k]] + tail;
        assert ([text[..k]] + tail)[1..] == tail;
        RenderSplit(rest);
        FirstLineThenRest(text, k, Render(tail));
      }
    }
  }

  /**
   * One step of RenderSplit: a line, the line break at k and the rest of the
   * text written back (with a final line break added when it lacked one) give
   * the text, with a final line break added when it lacked one.
   */
  lemma FirstLineThenRest(text: string, k: nat, restText: string)
    requires k < |text| && text[k] == '\n'
    requires restText == if text[k + 1..] == [] || EndsWithLineBreak(text[k + 1..]) then text[k + 1..] else text[k + 1..] + "\n"
    ensures text[..k] + "\n" + restText == if EndsWithLineBreak(text) then text else text + "\n"
  {
    var first, rest := text[..k], text[k + 1..];
    assert text == first + "\n" + rest;
    if rest == [] {
      assert EndsWithLineBreak(text);
    } else if EndsWithLineBreak(rest) {
      assert text[|text| - 1] == rest[|rest| - 1];
    } else {
      assert text[|text| - 1] == rest[|rest| - 1];
      assert first + "\n" + (rest + "\n") == (first + "\n" + rest) + "\n";
    }
  }

  /** Reading back what was written gives the same lines, provided none holds a '\n'. */
  lemma {:induction false} SplitRender(lines: seq<string>)
    requires forall i :: 0 <= i < |lines| ==> NoLineBreak(lines[i])
    ensures SplitLines(Render(lines)) == lines
  {
    if lines != [] {
      var rest := Render(lines[1..]);
      var text := lines[0] + "\n" + rest;
      LineEndOfRendered(lines[0], rest);
      assert text[..|lines[0]|] == lines[0];
      assert text[|lines[0]| + 1..] == rest;
      SplitRender(lines[1..]);
      if rest == [] {
        assert lines[1..] == [];
      }
    }
  }
}
