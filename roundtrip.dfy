/**
 * How the three handlers fit together: what /add_id writes, /start shows
 * and a button press then finds.
 */
module RoundTrip {
  import opened Wrappers
  import opened PyStr
  import opened TextFile
  import opened Records
  import opened Menu
  import opened Relay
  import opened Admin

  /**
   * Adding links for a price range that no line of a terminated file
   * starts with, then pressing that price range, uses the first new line
   * only: just the first link is forwarded, whatever the number of links.
   */
  lemma AppendThenLookup(store: Option<string>, adminId: string, args: seq<string>, forward: Target -> Delivery)
    requires Accepted(adminId, adminId, args)
    requires Terminated(store.GetOr([]))
    requires Word(args[0]) && Word(args[1])
    requires forall k :: 0 <= k < |args| ==> '\n' !in args[k]
    requires forall k :: 0 <= k < |ReadLines(store.GetOr([]))| ==> !StartsWith(ReadLines(store.GetOr([]))[k], args[0])
    ensures Lookup(AddIdEffect(store, adminId, adminId, args).store, args[0], forward) ==
      RunOutcome(args[0], ForwardAll([args[1]], Step(forward)))
  {
    var text := AddIdEffect(store, adminId, adminId, args).store.value;
    var line := FormatLine(args[0], args[1]);
    var more := FormattedLines(args[0], args[1..]);
    AddIdLines(store, adminId, args);
    assert more[0] == line;
    assert LineLinks(line) == [args[1]] by {
      FormatLineFields(args[0], args[1]);
    }
    FormatLineStartsWith(args[0], args[1]);
    LookupAfterUnmatched(text, ReadLines(store.GetOr([])), more, args[0], forward);
  }

  /**
   * Adding links to a missing file and pressing the price range forwards
   * exactly the first link when the platform delivers it, and fails on the
   * first link otherwise; the other links are never attempted.
   */
  lemma AppendToMissingThenLookup(adminId: string, args: seq<string>, forward: Target -> Delivery)
    requires Accepted(adminId, adminId, args)
    requires Word(args[0]) && Word(args[1])
    requires forall k :: 0 <= k < |args| ==> '\n' !in args[k]
    ensures var o := Lookup(AddIdEffect(None, adminId, adminId, args).store, args[0], forward);
      match Attempt(args[1], forward)
      case Ok(t) => o == Success(args[0], [t])
      case Err(e) => o == ForwardFailed(args[1], e, [])
  {
    AppendThenLookup(None, adminId, args, forward);
    match Attempt(args[1], forward)
    case Ok(t) =>
      ForwardAllCompletes([args[1]], Step(forward), [t]);
    case Err(e) =>
      ForwardAllAborts([args[1]], Step(forward), [], 0, e);
  }

  /**
   * `/add_id 100-500 https://t.me/chan/999 https://t.me/chan/1000` on a
   * missing file stores two lines, yet pressing "100-500" forwards only the
   * message of the first link.
   */
  lemma TwoLinksForwardOne(adminId: string, args: seq<string>, priceRange: string, first: string, second: string, forward: Target -> Delivery)
    requires priceRange == "100-500" && first == "https://t.me/chan/999" && second == "https://t.me/chan/1000"
    requires args == [priceRange, first, second]
    requires forall t :: forward(t) == Delivered
    ensures |ReadLines(AddIdEffect(None, adminId, adminId, args).store.value)| == 2
    ensures Lookup(AddIdEffect(None, adminId, adminId, args).store, priceRange, forward) ==
      Success(priceRange, [Target("chan", "999")])
  {
    assert Word(priceRange) by { VisibleWord(priceRange); }
    assert Word(first) by { VisibleWord(first); }
    assert forall k :: 0 <= k < |args| ==> '\n' !in args[k] by {
      VisibleWord(second);
      WordsHaveNoNewline(args);
    }
    assert |ReadLines(AddIdEffect(None, adminId, adminId, args).store.value)| == 2 by {
      AddIdLines(None, adminId, args);
    }
    assert Attempt(first, forward) == Ok(Target("chan", "999")) by {
      ParseLinkExample(first);
    }
    AppendToMissingThenLookup(adminId, args, forward);
  }

  /** After an accepted /add_id on a terminated file, /start shows a button for the added price range. */
  lemma AddedPriceRangeInMenu(store: Option<string>, adminId: string, args: seq<string>, keyboard: seq<Button>)
    requires Accepted(adminId, adminId, args)
    requires Terminated(store.GetOr([]))
    requires Word(args[0]) && Word(args[1])
    requires forall k :: 0 <= k < |args| ==> '\n' !in args[k]
    requires IsMenuFor(AddIdEffect(store, adminId, adminId, args).store, keyboard)
    ensures Button(args[0], args[0]) in keyboard
  {
    var before := ReadLines(store.GetOr([]));
    var text := AddIdEffect(store, adminId, adminId, args).store.value;
    AddIdLines(store, adminId, args);
    var lines := ReadLines(text);
    var i := |before|;
    assert lines[i] == FormatLine(args[0], args[1]);
    assert Label(lines[i]) == args[0] by {
      FormatLineFields(args[0], args[1]);
    }
    LabelSetMembers(lines, args[0]);
    TextsMembers(keyboard, args[0]);
    var k :| 0 <= k < |keyboard| && keyboard[k].text == args[0];
    assert keyboard[k] == Button(args[0], args[0]);
  }

  /**
   * Pressing a button of the menu of a file none of whose lines starts with
   * whitespace always finds a line: each label is a prefix of its own line.
   */
  lemma MenuButtonFound(text: string, keyboard: seq<Button>, b: Button, forward: Target -> Delivery)
    requires ReadLines(text) != []
    requires forall k :: 0 <= k < |ReadLines(text)| ==> !Indented(ReadLines(text)[k])
    requires IsMenuFor(Some(text), keyboard) && b in keyboard
    ensures !Lookup(Some(text), b.callbackData, forward).NotFound?
  {
    var lines := ReadLines(text);
    ReadLinesSound(text);
    var j :| 0 <= j < |keyboard| && keyboard[j] == b;
    TextsMembers(keyboard, b.text);
    LabelSetMembers(lines, b.text);
    var k :| 0 <= k < |lines| && Label(lines[k]) == b.text;
    LabelIsPrefix(lines[k]);
    LookupNotFound(text, b.callbackData, forward);
  }

  /**
   * A file whose every line starts with whitespace finds nothing for a
   * price range that does not, though /start strips that whitespace and
   * shows the label as a button.
   */
  lemma IndentedLinesNeverFound(text: string, priceRange: string, forward: Target -> Delivery)
    requires forall k :: 0 <= k < |ReadLines(text)| ==> Indented(ReadLines(text)[k])
    requires priceRange != [] && !IsSpace(priceRange[0])
    ensures Lookup(Some(text), priceRange, forward) == NotFound(priceRange)
  {
    var lines := ReadLines(text);
    ReadLinesSound(text);
    forall k | 0 <= k < |lines| ensures !StartsWith(lines[k], priceRange) {
      FirstCharMismatch(lines[k], priceRange);
    }
    LookupNotFound(text, priceRange, forward);
  }

  /** A line written as the admin command writes it but indented by one space shows its price range as the only button. */
  lemma IndentedLineMenu(priceRange: string, link: string, keyboard: seq<Button>)
    requires Word(priceRange) && Word(link)
    requires IsMenuFor(Some(" " + FormatLine(priceRange, link)), keyboard)
    ensures keyboard == [Button(priceRange, priceRange)]
  {
    var text := " " + FormatLine(priceRange, link);
    IndentedLine(priceRange, link);
    OneLineMenu(text, text, keyboard);
  }

  /** Pressing the button of that indented line finds nothing. */
  lemma IndentedLineNotFound(priceRange: string, link: string, forward: Target -> Delivery)
    requires Word(priceRange) && Word(link) && priceRange != []
    ensures Lookup(Some(" " + FormatLine(priceRange, link)), priceRange, forward) == NotFound(priceRange)
  {
    var text := " " + FormatLine(priceRange, link);
    IndentedLine(priceRange, link);
    assert !IsSpace(priceRange[0]);
    assert forall k :: 0 <= k < |ReadLines(text)| ==> ReadLines(text)[k] == text;
    IndentedLinesNeverFound(text, priceRange, forward);
  }

  /** An indented formatted line is one indented line whose label is its price range. */
  lemma IndentedLine(priceRange: string, link: string)
    requires Word(priceRange) && Word(link)
    ensures var line := " " + FormatLine(priceRange, link);
      ReadLines(line) == [line] && Indented(line) && Label(line) == priceRange
  {
    var formatted := FormatLine(priceRange, link);
    var line := " " + formatted;
    assert IsLine(line) by {
      FormatLineFields(priceRange, link);
      forall k | 0 <= k < |line| - 1 ensures line[k] != '\n' {
        if k > 0 {
          assert line[k] == formatted[k - 1];
        }
      }
    }
    OneLine(line);
    IndentedLabel(priceRange, link);
  }

  /** The label of an indented formatted line is its price range. */
  lemma IndentedLabel(priceRange: string, link: string)
    requires Word(priceRange) && Word(link)
    ensures Label(" " + FormatLine(priceRange, link)) == priceRange
  {
    var piece, rest := " " + priceRange + " ", " " + link + "\n";
    assert " " + FormatLine(priceRange, link) == piece + ['|'] + rest;
    assert '|' !in piece by {
      assert forall k :: 0 <= k < |piece| ==> piece[k] == ' ' || piece[k] == priceRange[k - 1];
    }
    SplitAt(piece, rest, '|');
    StripPadded(" ", priceRange, " ");
  }

  /**
   * `/add_id` with one link on a file holding a single word without a newline
   * (`abc`, say) glues the new line onto that word: for `/add_id x y` the
   * file becomes the one line `abcx | y`, `/start` shows only `abcx`, and
   * pressing `x` finds nothing.
   */
  lemma UnterminatedFileHidesAddition(text: string, adminId: string, priceRange: string, link: string,
                                      keyboard: seq<Button>, forward: Target -> Delivery)
    requires text != [] && priceRange != [] && text[0] != priceRange[0]
    requires Word(text + priceRange) && Word(link)
    requires IsMenuFor(AddIdEffect(Some(text), adminId, adminId, [priceRange, link]).store, keyboard)
    ensures ReadLines(AddIdEffect(Some(text), adminId, adminId, [priceRange, link]).store.value) == [FormatLine(text + priceRange, link)]
    ensures keyboard == [Button(text + priceRange, text + priceRange)]
    ensures Lookup(AddIdEffect(Some(text), adminId, adminId, [priceRange, link]).store, priceRange, forward) == NotFound(priceRange)
  {
    var glued := text + priceRange;
    var line := FormatLine(glued, link);
    GluedStore(text, adminId, priceRange, link);
    assert ReadLines(line) == [line] && Label(line) == glued by {
      OneLineFile(glued, link);
      FormatLineFields(glued, link);
    }
    OneLineMenu(line, line, keyboard);
    assert !StartsWith(line, priceRange) by {
      assert line[0] == text[0];
      FirstCharMismatch(line, priceRange);
    }
    LookupNotFound(line, priceRange, forward);
  }

  /** The file after `/add_id` with one link on any existing file: the text followed by the one formatted line, which glues onto the last line when the text does not end in a newline. */
  lemma GluedStore(text: string, adminId: string, priceRange: string, link: string)
    requires priceRange != []
    ensures AddIdEffect(Some(text), adminId, adminId, [priceRange, link]).store == Some(FormatLine(text + priceRange, link))
  {
    var args := [priceRange, link];
    AcceptedText(text, adminId, args);
    assert args[1..][0] == link && args[1..][1..] == [];
    assert AppendedText(priceRange, []) == [];
    var sep := " | " + link + "\n";
    assert FormatLine(priceRange, link) == priceRange + sep;
    assert FormatLine(text + priceRange, link) == (text + priceRange) + sep;
    assert text + (priceRange + sep) + [] == (text + priceRange) + sep;
  }
}
