/**
 * The line format of the store file `id.txt`: `<label> | <link>[ | <link> ...]`,
 * how a line is taken apart (label, links, the channel and message id of a
 * link) and how the admin command writes one.
 */
module Records {
  import opened Wrappers
  import opened PyStr
  import opened TextFile

  /** Where a link points: the channel (or group) username and the message id, both as text. */
  datatype Target = Target(channel: string, messageId: string)

  /** The text of the `IndexError` raised by `link.split("/")[3]` on a link with fewer than four segments. */
  const IndexErrorText := "list index out of range"

  /** A line's label, `line.split("|")[0].strip()`. */
  function Label(line: string): string {
    Strip(Split(line, '|')[0])
  }

  /** A line's links, `[link.strip() for link in line.split("|")[1:]]`. */
  function LineLinks(line: string): seq<string> {
    var segments := Split(line, '|')[1..];
    seq(|segments|, k requires 0 <= k < |segments| => Strip(segments[k]))
  }

  /**
   * The target of a link: the channel is `link.split("/")[3]` and the message
   * id `link.split("/")[-1]`; indexing segment 3 fails when there are fewer
   * than four segments.
   */
  function ParseLink(link: string): Result<Target, string> {
    var parts := Split(link, '/');
    var messageId := parts[|parts| - 1];
    if |parts| < 4 then Err(IndexErrorText) else Ok(Target(parts[3], messageId))
  }

  /** The line the admin command writes for one link, `f"{price_range} | {link}\n"`. */
  function FormatLine(priceRange: string, link: string): string {
    priceRange + " | " + link + "\n"
  }

  /** The text the admin command appends for `links`, one formatted line per link in order. */
  function AppendedText(priceRange: string, links: seq<string>): string {
    if links == [] then []
    else AppendedText(priceRange, links[..|links| - 1]) + FormatLine(priceRange, links[|links| - 1])
  }

  /** The lines the admin command writes for `links`. */
  function FormattedLines(priceRange: string, links: seq<string>): (lines: seq<string>)
    ensures |lines| == |links|
  {
    seq(|links|, k requires 0 <= k < |links| => FormatLine(priceRange, links[k]))
  }

  /** A line with several links, as the file format allows: `<label> | <l1> | ... | <ln>` and a newline. */
  function RecordLine(priceRange: string, links: seq<string>): string
    requires |links| >= 1
  {
    Join(RecordPieces(priceRange, links), '|')
  }

  /**
   * A price range or link free of whitespace and of `|`. Command arguments
   * are split at whitespace, so they hold none; freedom from `|` is an
   * extra assumption, needed where a written line is read back field by field.
   */
  predicate Word(s: string) {
    NoSpace(s) && '|' !in s
  }

  /** Printable ASCII other than the space and `|` makes a word. */
  lemma VisibleWord(s: string)
    requires forall k :: 0 <= k < |s| ==> '!' <= s[k] <= '~' && s[k] != '|'
    ensures Word(s)
  {
  }

  /** Words hold no newline, since a newline is whitespace. */
  lemma WordsHaveNoNewline(words: seq<string>)
    requires forall k :: 0 <= k < |words| ==> Word(words[k])
    ensures forall k :: 0 <= k < |words| ==> '\n' !in words[k]
  {
  }

  /** A line whose first character is whitespace. */
  predicate Indented(line: string) {
    line != [] && IsSpace(line[0])
  }

  /** A line that does not start with whitespace starts with its own label. */
  lemma LabelIsPrefix(line: string)
    requires line != [] && !IsSpace(line[0])
    ensures StartsWith(line, Label(line))
  {
    var parts := Split(line, '|');
    var piece := parts[0];
    assert StartsWith(line, piece) by {
      if |parts| > 1 {
        assert line == piece + ([ '|' ] + Join(parts[1..], '|'));
      }
    }
    if piece != [] {
      assert piece[0] == line[0];
      assert LeadingSpace(piece) == 0;
    }
    assert StartsWith(piece, Label(line));
  }

  /** The one-link record line is the line the admin command writes. */
  lemma FormatLineIsRecordLine(priceRange: string, link: string)
    ensures FormatLine(priceRange, link) == RecordLine(priceRange, [link])
  {
    var tail := [" " + link + "\n"];
    var parts := RecordPieces(priceRange, [link]);
    assert parts == [priceRange + " "] + tail;
    assert parts[1..] == tail;
    assert Join(parts[1..], '|') == " " + link + "\n";
  }

  /** The `|`-separated pieces of a record line: the padded label, then each padded link. */
  function RecordPieces(priceRange: string, links: seq<string>): seq<string> {
    [priceRange + " "] + seq(|links|, k requires 0 <= k < |links| =>
      " " + links[k] + (if k == |links| - 1 then "\n" else " "))
  }

  /** Splitting a record line at `|` gives back its pieces. */
  lemma SplitRecordLine(priceRange: string, links: seq<string>)
    requires |links| >= 1 && '|' !in priceRange
    requires forall k :: 0 <= k < |links| ==> '|' !in links[k]
    ensures Split(RecordLine(priceRange, links), '|') == RecordPieces(priceRange, links)
  {
    var parts := RecordPieces(priceRange, links);
    forall k | 0 <= k < |parts| ensures '|' !in parts[k] {
      if k > 0 {
        assert '|' !in links[k - 1];
      }
    }
    SplitJoin(parts, '|');
  }

  /** Taking a record line apart gives back its label and its links, in order. */
  lemma RecordLineFields(priceRange: string, links: seq<string>)
    requires |links| >= 1 && Word(priceRange)
    requires forall k :: 0 <= k < |links| ==> Word(links[k])
    ensures Label(RecordLine(priceRange, links)) == priceRange
    ensures LineLinks(RecordLine(priceRange, links)) == links
  {
    var line := RecordLine(priceRange, links);
    var parts := RecordPieces(priceRange, links);
    SplitRecordLine(priceRange, links);
    assert Label(line) == priceRange by {
      StripPadded([], priceRange, " ");
      assert [] + priceRange + " " == priceRange + " ";
    }
    forall k | 0 <= k < |links| ensures LineLinks(line)[k] == links[k] {
      assert parts[1..][k] == parts[k + 1];
      StripLinkPiece(priceRange, links, k);
    }
  }

  /** The piece of a record line that holds a link strips down to that link. */
  lemma StripLinkPiece(priceRange: string, links: seq<string>, k: nat)
    requires k < |links| && NoSpace(links[k])
    ensures Strip(RecordPieces(priceRange, links)[k + 1]) == links[k]
  {
    var post := if k == |links| - 1 then "\n" else " ";
    assert RecordPieces(priceRange, links)[k + 1] == " " + links[k] + post;
    StripPadded(" ", links[k], post);
  }

  /** The line the admin command writes is read back with the label and the one link it was written with. */
  lemma FormatLineFields(priceRange: string, link: string)
    requires Word(priceRange) && Word(link)
    ensures Label(FormatLine(priceRange, link)) == priceRange
    ensures LineLinks(FormatLine(priceRange, link)) == [link]
    ensures IsLine(FormatLine(priceRange, link)) && EndsWithNewline(FormatLine(priceRange, link))
  {
    FormatLineIsRecordLine(priceRange, link);
    assert forall k :: 0 <= k < |[link]| ==> Word([link][k]);
    RecordLineFields(priceRange, [link]);
    FormatLineIsLine(priceRange, link);
  }

  /** The line the admin command writes is one line ending with its newline. */
  lemma FormatLineIsLine(priceRange: string, link: string)
    requires '\n' !in priceRange && '\n' !in link
    ensures IsLine(FormatLine(priceRange, link)) && EndsWithNewline(FormatLine(priceRange, link))
  {
    var l := FormatLine(priceRange, link);
    assert l[..|l| - 1] == priceRange + " | " + link;
    assert '\n' !in l[..|l| - 1];
    assert forall k :: 0 <= k < |l| - 1 ==> l[k] == l[..|l| - 1][k];
  }

  /** The line the admin command writes starts with its price range. */
  lemma FormatLineStartsWith(priceRange: string, link: string)
    ensures StartsWith(FormatLine(priceRange, link), priceRange)
  {
    assert FormatLine(priceRange, link)[..|priceRange|] == priceRange;
  }

  /** A file holding just the line written for one link reads back as that one line. */
  lemma OneLineFile(priceRange: string, link: string)
    requires Word(priceRange) && Word(link)
    ensures ReadLines(FormatLine(priceRange, link)) == [FormatLine(priceRange, link)]
    ensures LineLinks(FormatLine(priceRange, link)) == [link]
  {
    var line := FormatLine(priceRange, link);
    FormatLineFields(priceRange, link);
    OneLine(line);
  }

  /** The appended text is the concatenation of the formatted lines. */
  lemma {:induction false} AppendedTextConcat(priceRange: string, links: seq<string>)
    ensures Concat(FormattedLines(priceRange, links)) == AppendedText(priceRange, links)
  {
    if links != [] {
      var n := |links|;
      AppendedTextConcat(priceRange, links[..n - 1]);
      var lines := FormattedLines(priceRange, links);
      assert lines == FormattedLines(priceRange, links[..n - 1]) + [FormatLine(priceRange, links[n - 1])];
      ConcatAppend(FormattedLines(priceRange, links[..n - 1]), [FormatLine(priceRange, links[n - 1])]);
      assert Concat([FormatLine(priceRange, links[n - 1])]) == FormatLine(priceRange, links[n - 1]) + Concat([]);
    }
  }

  /** The appended text starts with the line for the first link, followed by the text for the others. */
  lemma AppendedTextFirst(priceRange: string, links: seq<string>)
    requires links != []
    ensures FormattedLines(priceRange, links) == [FormatLine(priceRange, links[0])] + FormattedLines(priceRange, links[1..])
    ensures AppendedText(priceRange, links) == FormatLine(priceRange, links[0]) + AppendedText(priceRange, links[1..])
  {
    var first := FormatLine(priceRange, links[0]);
    var others := FormattedLines(priceRange, links[1..]);
    assert FormattedLines(priceRange, links) == [first] + others;
    AppendedTextConcat(priceRange, links);
    AppendedTextConcat(priceRange, links[1..]);
    assert ([first] + others)[1..] == others;
  }

  /**
   * Appending to a terminated file and reading it back gives the old lines
   * followed by one formatted line per link, in order.
   */
  lemma ReadLinesAfterAppend(text: string, priceRange: string, links: seq<string>)
    requires Terminated(text) && '\n' !in priceRange
    requires forall k :: 0 <= k < |links| ==> '\n' !in links[k]
    ensures ReadLines(text + AppendedText(priceRange, links)) == ReadLines(text) + FormattedLines(priceRange, links)
  {
    var lines := FormattedLines(priceRange, links);
    forall k | 0 <= k < |lines| ensures IsLine(lines[k]) && EndsWithNewline(lines[k]) {
      FormatLineIsLine(priceRange, links[k]);
    }
    ReadLinesConcat(lines);
    AppendedTextConcat(priceRange, links);
    ReadLinesAppend(text, AppendedText(priceRange, links));
  }

  /** A link whose `/`-segments are `parts` points at segment 3 and the last segment, or fails with fewer than four. */
  lemma ParseLinkOfSegments(parts: seq<string>)
    requires |parts| >= 1
    requires forall k :: 0 <= k < |parts| ==> '/' !in parts[k]
    ensures ParseLink(Join(parts, '/')) ==
      if |parts| >= 4 then Ok(Target(parts[3], parts[|parts| - 1])) else Err(IndexErrorText)
  {
    var link := Join(parts, '/');
    SplitJoin(parts, '/');
    if |parts| >= 4 {
      assert ParseLink(link) == Ok(Target(parts[3], parts[|parts| - 1]));
    } else {
      assert ParseLink(link) == Err(IndexErrorText);
    }
  }

  /** A link `https://<host>/<channel>/<id>` points at message `id` of `channel`. */
  lemma ParseTelegramLink(host: string, channel: string, id: string)
    requires '/' !in host && '/' !in channel && '/' !in id
    ensures ParseLink("https://" + host + "/" + channel + "/" + id) == Ok(Target(channel, id))
  {
    var p3 := [channel] + [id];
    var p2 := [host] + p3;
    var p1 := [""] + p2;
    var parts := ["https:"] + p1;
    JoinCons(channel, [id], '/');
    JoinCons(host, p3, '/');
    JoinCons("", p2, '/');
    JoinCons("https:", p1, '/');
    assert "https:" + "/" + ("" + "/" + (host + "/" + (channel + "/" + id))) == "https://" + host + "/" + channel + "/" + id;
    ParseLinkOfSegments(parts);
  }

  /** A link in the format the usage text shows: `https://t.me/chan/999` gives `("chan", "999")`. */
  lemma ParseLinkExample(link: string)
    requires link == "https://t.me/chan/999"
    ensures ParseLink(link) == Ok(Target("chan", "999"))
  {
    var parts := ExampleSegments(link);
    ParseLinkOfSegments(parts);
  }

  /** The `/`-segments of the example link. */
  lemma ExampleSegments(link: string) returns (parts: seq<string>)
    requires link == "https://t.me/chan/999"
    ensures parts == ["https:", "", "t.me", "chan", "999"]
    ensures Join(parts, '/') == link
  {
    var p4 := ["999"];
    var p3 := ["chan"] + p4;
    var p2 := ["t.me"] + p3;
    var p1 := [""] + p2;
    parts := ["https:"] + p1;
    JoinCons("chan", p4, '/');
    JoinCons("t.me", p3, '/');
    JoinCons("", p2, '/');
    JoinCons("https:", p1, '/');
    assert "https:" + "/" + ("" + "/" + ("t.me" + "/" + ("chan" + "/" + "999"))) == link;
  }

  /** A link without the scheme has only three segments, so it has no channel segment. */
  lemma ParseLinkWithoutScheme(link: string)
    requires link == "t.me/chan/999"
    ensures ParseLink(link) == Err(IndexErrorText)
  {
    var parts := ["t.me", "chan", "999"];
    assert Join(parts[2..], '/') == "999";
    assert Join(parts[1..], '/') == "chan/999";
    assert Join(parts, '/') == link;
    ParseLinkOfSegments(parts);
  }
}
