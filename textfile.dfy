/**
 * The store file as Python's text-mode file API sees it: the file's text,
 * `readlines()` on it, and appending with `write` in mode 'a'.
 */
module TextFile {
  import opened Wrappers
  import opened PyStr

  /** The text of a list of lines, as `"".join(lines)`. */
  function Concat(lines: seq<string>): string {
    if lines == [] then [] else lines[0] + Concat(lines[1..])
  }

  /** A line as `readlines()` yields it: not empty, and a newline only as its last character. */
  predicate IsLine(l: string) {
    l != [] && forall k :: 0 <= k < |l| - 1 ==> l[k] != '\n'
  }

  predicate EndsWithNewline(l: string) {
    l != [] && l[|l| - 1] == '\n'
  }

  /** A text that can be appended to without joining its last line: empty, or ending in a newline. */
  predicate Terminated(text: string) {
    text == [] || EndsWithNewline(text)
  }

  /** The conditions that make `lines` a possible result of `readlines()`. */
  predicate WellFormedLines(lines: seq<string>) {
    && (forall k :: 0 <= k < |lines| ==> IsLine(lines[k]))
    && (forall k :: 0 <= k < |lines| - 1 ==> EndsWithNewline(lines[k]))
  }

  /**
   * Python's `file.readlines()` on a file holding `text`: the text cut after
   * every newline, each line keeping its newline; a last line without a
   * newline is kept when it is not empty.
   */
  function ReadLines(text: string): seq<string>
    decreases |text|
  {
    if text == [] then []
    else if '\n' !in text then [text]
    else
      var i := Find(text, '\n');
      [text[..i + 1]] + ReadLines(text[i + 1..])
  }

  /**
   * The lines `readlines()` returns are well formed and, put back together,
   * give the whole text: nothing is lost, added or reordered.
   */
  lemma ReadLinesSound(text: string)
    ensures Concat(ReadLines(text)) == text
    ensures WellFormedLines(ReadLines(text))
  {
    ReadLinesJoin(text);
    ReadLinesShape(text);
  }

  lemma {:induction false} ReadLinesJoin(text: string)
    ensures Concat(ReadLines(text)) == text
    decreases |text|
  {
    if text != [] && '\n' in text {
      var i := Find(text, '\n');
      var rest := ReadLines(text[i + 1..]);
      ReadLinesJoin(text[i + 1..]);
      assert ([text[..i + 1]] + rest)[1..] == rest;
      assert text == text[..i + 1] + text[i + 1..];
    } else if text != [] {
      ConcatOne(text);
    }
  }

  lemma {:induction false} ReadLinesShape(text: string)
    ensures WellFormedLines(ReadLines(text))
    decreases |text|
  {
    if text != [] && '\n' in text {
      var i := Find(text, '\n');
      var first := text[..i + 1];
      ReadLinesShape(text[i + 1..]);
      assert IsLine(first) && EndsWithNewline(first) by {
        assert forall k :: 0 <= k < i ==> first[k] == text[k];
      }
      WellFormedAppend([first], ReadLines(text[i + 1..]));
    }
  }

  lemma ConcatOne(line: string)
    ensures Concat([line]) == line
  {
    assert [line][1..] == [];
  }

  lemma {:induction false} ConcatAppend(a: seq<string>, b: seq<string>)
    ensures Concat(a + b) == Concat(a) + Concat(b)
  {
    if a == [] {
      assert a + b == b;
    } else {
      assert (a + b)[1..] == a[1..] + b;
      ConcatAppend(a[1..], b);
    }
  }

  /** `ReadLines` undoes `Concat` on every list of lines `readlines()` could produce. */
  lemma {:induction false} ReadLinesConcat(lines: seq<string>)
    requires WellFormedLines(lines)
    ensures ReadLines(Concat(lines)) == lines
  {
    if lines != [] {
      var l := lines[0];
      var text := Concat(lines);
      assert IsLine(l);
      assert text == l + Concat(lines[1..]);
      assert text[..|l|] == l;
      assert l == l[..|l| - 1] + [l[|l| - 1]];
      if '\n' in l {
        assert l[|l| - 1] == '\n';
        assert text[..|l| - 1] == l[..|l| - 1];
        FindFirst(text, '\n', |l| - 1);
        assert text[|l|..] == Concat(lines[1..]);
        ReadLinesConcat(lines[1..]);
        assert [l] + lines[1..] == lines;
      } else {
        assert |lines| == 1;
        assert Concat(lines[1..]) == [];
        assert text == l;
      }
    }
  }

  /** The last line of a terminated text ends with its newline. */
  lemma LastLineTerminated(text: string)
    requires Terminated(text)
    ensures ReadLines(text) == [] || EndsWithNewline(ReadLines(text)[|ReadLines(text)| - 1])
  {
    if text != [] {
      var front, last := SplitLastLine(text);
      assert text[|text| - 1] == last[|last| - 1];
    }
  }

  /** Reading a terminated text followed by more text reads the two parts one after the other. */
  lemma ReadLinesAppend(a: string, b: string)
    requires Terminated(a)
    ensures ReadLines(a + b) == ReadLines(a) + ReadLines(b)
  {
    var la, lb := ReadLines(a), ReadLines(b);
    ReadLinesSound(a);
    ReadLinesSound(b);
    assert Concat(la + lb) == a + b by {
      ConcatAppend(la, lb);
    }
    assert WellFormedLines(la + lb) by {
      LastLineTerminated(a);
      WellFormedAppend(la, lb);
    }
    ReadLinesConcat(la + lb);
  }

  /** Two lists of lines can be read one after the other when the first ends with a newline. */
  lemma WellFormedAppend(la: seq<string>, lb: seq<string>)
    requires WellFormedLines(la) && WellFormedLines(lb)
    requires la == [] || EndsWithNewline(la[|la| - 1])
    ensures WellFormedLines(la + lb)
  {
    forall k | 0 <= k < |la + lb| ensures IsLine((la + lb)[k]) {
      if k < |la| {
        assert (la + lb)[k] == la[k];
      } else {
        assert (la + lb)[k] == lb[k - |la|];
      }
    }
    forall k | 0 <= k < |la + lb| - 1 ensures EndsWithNewline((la + lb)[k]) {
      if k < |la| {
        assert (la + lb)[k] == la[k];
      } else {
        assert (la + lb)[k] == lb[k - |la|];
      }
    }
  }

  /** A single line reads back as itself. */
  lemma OneLine(line: string)
    requires IsLine(line)
    ensures ReadLines(line) == [line]
  {
    assert WellFormedLines([line]);
    ReadLinesConcat([line]);
    ConcatOne(line);
  }

  /** A non-empty text is a terminated front followed by its last line. */
  lemma SplitLastLine(text: string) returns (front: string, last: string)
    requires text != []
    ensures text == front + last && Terminated(front) && IsLine(last)
    ensures ReadLines(text) == ReadLines(front) + [last]
  {
    var lines := ReadLines(text);
    ReadLinesSound(text);
    assert lines != [] by {
      assert Concat([]) == [];
    }
    var n := |lines|;
    var frontLines := lines[..n - 1];
    last := lines[n - 1];
    front := Concat(frontLines);
    FrontAndLast(lines);
    assert text == front + last by {
      ConcatAppend(frontLines, [last]);
      ConcatOne(last);
    }
    WellFormedFront(lines);
    assert ReadLines(front) == frontLines by {
      ReadLinesConcat(frontLines);
    }
    assert Terminated(front) by {
      if frontLines != [] {
        LastLineTerminatedFront(frontLines);
      }
    }
  }

  /** A non-empty list is its front followed by its last element. */
  lemma FrontAndLast(lines: seq<string>)
    requires lines != []
    ensures lines == lines[..|lines| - 1] + [lines[|lines| - 1]]
  {
  }

  /** Dropping the last line keeps a list of lines well formed, and its new last line ends with a newline. */
  lemma WellFormedFront(lines: seq<string>)
    requires lines != [] && WellFormedLines(lines)
    ensures WellFormedLines(lines[..|lines| - 1])
    ensures |lines| >= 2 ==> EndsWithNewline(lines[|lines| - 2])
  {
    var front := lines[..|lines| - 1];
    assert forall k :: 0 <= k < |front| ==> front[k] == lines[k];
  }

  /** The text of well-formed lines whose last line ends with a newline is terminated. */
  lemma {:induction false} LastLineTerminatedFront(lines: seq<string>)
    requires lines != [] && WellFormedLines(lines) && EndsWithNewline(lines[|lines| - 1])
    ensures Terminated(Concat(lines))
  {
    var n := |lines|;
    FrontAndLast(lines);
    ConcatAppend(lines[..n - 1], [lines[n - 1]]);
    ConcatOne(lines[n - 1]);
  }

  /**
   * Appending a line to a text whose last line has no newline glues the two:
   * the text reads as its lines but the last, that last line joined with the
   * new one, then whatever follows.
   */
  lemma ReadLinesGlue(text: string, line: string, rest: string)
    requires text != [] && !EndsWithNewline(text)
    requires IsLine(line) && EndsWithNewline(line)
    ensures var lines := ReadLines(text);
      ReadLines(text + line + rest) ==
        lines[..|lines| - 1] + [lines[|lines| - 1] + line] + ReadLines(rest)
  {
    var front, last := SplitLastLine(text);
    GlueAfter(front, last, line, rest);
    ReplaceLast(ReadLines(front), last, line, ReadLines(rest));
  }

  /** A terminated front, an unterminated last line, a whole line and more text: the two lines are read as one. */
  lemma GlueAfter(front: string, last: string, line: string, rest: string)
    requires Terminated(front) && IsLine(last) && !EndsWithNewline(front + last)
    requires IsLine(line) && EndsWithNewline(line)
    ensures ReadLines(front + last + line + rest) == ReadLines(front) + [last + line] + ReadLines(rest)
  {
    GlueLine(front, last, line);
    GlueRead(front, last + line, rest);
    Regroup(front, last, line, rest);
  }

  lemma Regroup(a: string, b: string, c: string, d: string)
    ensures a + b + c + d == a + (b + c) + d
  {
  }

  /** Replacing the last element of `front + [last]` by `last + line`, followed by `after`. */
  lemma ReplaceLast(front: seq<string>, last: string, line: string, after: seq<string>)
    ensures var lines := front + [last];
      lines[..|lines| - 1] + [lines[|lines| - 1] + line] + after == front + [last + line] + after
  {
    var lines := front + [last];
    assert lines[..|lines| - 1] == front;
  }

  /** A terminated text, a whole line and more text read as the three parts in order. */
  lemma GlueRead(front: string, joined: string, rest: string)
    requires Terminated(front) && IsLine(joined) && EndsWithNewline(joined)
    ensures ReadLines(front + joined + rest) == ReadLines(front) + [joined] + ReadLines(rest)
  {
    assert front + joined + rest == front + (joined + rest);
    ReadLinesAppend(front, joined + rest);
    ReadLinesCons(joined, rest);
  }

  /** A text that starts with a whole line reads as that line, then the rest. */
  lemma ReadLinesCons(line: string, rest: string)
    requires IsLine(line) && EndsWithNewline(line)
    ensures ReadLines(line + rest) == [line] + ReadLines(rest)
  {
    OneLine(line);
    ReadLinesAppend(line, rest);
  }

  /** The unterminated last line of a text joined with a line is one line. */
  lemma GlueLine(front: string, last: string, line: string)
    requires IsLine(last) && !EndsWithNewline(front + last)
    requires IsLine(line) && EndsWithNewline(line)
    ensures IsLine(last + line) && EndsWithNewline(last + line)
  {
    var text := front + last;
    assert last[|last| - 1] == text[|text| - 1];
    assert last == last[..|last| - 1] + [last[|last| - 1]];
    assert (last + line)[..|last + line| - 1] == last + line[..|line| - 1];
  }

  /**
   * The file after `write(piece)` in mode 'a': a missing file is created,
   * an existing one keeps its text and gains `piece` at the end.
   */
  function AppendText(file: Option<string>, piece: string): (r: string)
    ensures StartsWith(r, file.GetOr([])) && r[|file.GetOr([])|..] == piece
  {
    file.GetOr([]) + piece
  }
}
