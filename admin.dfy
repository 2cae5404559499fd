/**
 * The /add_id admin command: after its three checks, append one line
 * `<price range> | <link>` per link to the store file.
 */
module Admin {
  import opened Wrappers
  import opened PyStr
  import opened TextFile
  import opened Records

  /** The reply of the command. */
  datatype AddReply = Unauthorized | MissingArguments | InvalidPriceRange | Added(priceRange: string)

  /** The reply together with the store file afterwards. */
  datatype AddResult = AddResult(reply: AddReply, store: Option<string>)

  /** The text the command replies with. */
  function AddReplyText(r: AddReply): string {
    match r
    case Unauthorized => "You are not authorized to use this command."
    case MissingArguments =>
      "Please provide the price range and the link. Example: /add_id 100-500 https://t.me/your_channel/12345"
    case InvalidPriceRange =>
      "Invalid price range. Please provide a valid range like \U{20B9}100-\U{20B9}500, \U{20B9}500-\U{20B9}15000."
    case Added(p) => "ID links for the \U{20B9}" + p + " range have been added successfully!"
  }

  /** The command is carried out: the admin called it with a non-empty price range and at least one link. */
  predicate Accepted(adminId: string, callerId: string, args: seq<string>) {
    callerId == adminId && |args| >= 2 && args[0] != []
  }

  /**
   * What the command does to the store for the caller `callerId` (the
   * caller's user id as text) and the arguments `args`. The checks come in
   * the order the source makes them; a rejected command leaves the file as
   * it was (missing stays missing); an accepted one keeps the old text and
   * adds to its end.
   */
  function AddIdEffect(store: Option<string>, adminId: string, callerId: string, args: seq<string>): (r: AddResult)
    ensures r.reply.Added? <==> Accepted(adminId, callerId, args)
    ensures callerId != adminId ==> r.reply == Unauthorized
    ensures callerId == adminId && |args| < 2 ==> r.reply == MissingArguments
    ensures callerId == adminId && |args| >= 2 && args[0] == [] ==> r.reply == InvalidPriceRange
    ensures !r.reply.Added? ==> r.store == store
    ensures r.reply.Added? ==>
      && r.reply.priceRange == args[0]
      && r.store.Some? && StartsWith(r.store.value, store.GetOr([]))
  {
    if callerId != adminId then AddResult(Unauthorized, store)
    else if |args| < 2 then AddResult(MissingArguments, store)
    else if args[0] == [] then AddResult(InvalidPriceRange, store)
    else AddResult(Added(args[0]), Some(AppendText(store, AppendedText(args[0], args[1..]))))
  }

  /** The handler: the three checks, then one write per link to the file opened for appending. */
  method AddId(store: Option<string>, adminId: string, callerId: string, args: seq<string>)
    returns (reply: AddReply, newStore: Option<string>)
    ensures AddResult(reply, newStore) == AddIdEffect(store, adminId, callerId, args)
  {
    if callerId != adminId {
      return Unauthorized, store;
    }
    if |args| < 2 {
      return MissingArguments, store;
    }
    var priceRange := args[0];
    var links := args[1..];
    if priceRange == [] {
      return InvalidPriceRange, store;
    }
    var text := store.GetOr([]);
    for i := 0 to |links|
      invariant text == store.GetOr([]) + AppendedText(priceRange, links[..i])
    {
      assert links[..i + 1][..i] == links[..i];
      text := text + FormatLine(priceRange, links[i]);
    }
    assert links[..|links|] == links;
    newStore := Some(text);
    reply := Added(priceRange);
  }

  /**
   * An accepted command on a terminated (or missing) file leaves the old
   * lines in place and adds one line per link, in the order given.
   */
  lemma AddIdLines(store: Option<string>, adminId: string, args: seq<string>)
    requires Accepted(adminId, adminId, args)
    requires Terminated(store.GetOr([]))
    requires forall k :: 0 <= k < |args| ==> '\n' !in args[k]
    ensures ReadLines(AddIdEffect(store, adminId, adminId, args).store.value) ==
      ReadLines(store.GetOr([])) + FormattedLines(args[0], args[1..])
  {
    assert forall k :: 0 <= k < |args| - 1 ==> args[1..][k] == args[k + 1];
    ReadLinesAfterAppend(store.GetOr([]), args[0], args[1..]);
  }

  /** An accepted command leaves the old text, the line for the first link, then the text for the other links. */
  lemma AcceptedText(text: string, adminId: string, args: seq<string>)
    requires Accepted(adminId, adminId, args)
    ensures AddIdEffect(Some(text), adminId, adminId, args).store ==
      Some(text + FormatLine(args[0], args[1..][0]) + AppendedText(args[0], args[1..][1..]))
  {
    var first, rest := FormatLine(args[0], args[1..][0]), AppendedText(args[0], args[1..][1..]);
    AppendedTextFirst(args[0], args[1..]);
    assert AppendText(Some(text), first + rest) == text + first + rest;
  }

  /**
   * On a file whose last line has no newline, the first appended line is
   * glued to that last line: the file then reads as the old lines but the
   * last, that line joined with the first formatted line, and the other
   * formatted lines.
   */
  lemma AddIdJoinsUnterminatedLine(text: string, adminId: string, args: seq<string>)
    requires Accepted(adminId, adminId, args)
    requires text != [] && !EndsWithNewline(text)
    requires forall k :: 0 <= k < |args| ==> '\n' !in args[k]
    ensures var before := ReadLines(text);
      var links := args[1..];
      ReadLines(AddIdEffect(Some(text), adminId, adminId, args).store.value) ==
        before[..|before| - 1] + [before[|before| - 1] + FormatLine(args[0], links[0])] + FormattedLines(args[0], links[1..])
  {
    var links := args[1..];
    var first := FormatLine(args[0], links[0]);
    var tail := AppendedText(args[0], links[1..]);
    assert '\n' !in args[0] && '\n' !in links[0] && forall k :: 0 <= k < |links[1..]| ==> '\n' !in links[1..][k] by {
      assert forall k :: 0 <= k < |links| ==> links[k] == args[k + 1];
    }
    assert IsLine(first) && EndsWithNewline(first) by {
      FormatLineIsLine(args[0], links[0]);
    }
    AcceptedText(text, adminId, args);
    ReadLinesGlue(text, first, tail);
    assert ReadLines(tail) == FormattedLines(args[0], links[1..]) by {
      ReadLinesAfterAppend([], args[0], links[1..]);
      assert [] + tail == tail;
    }
  }
}
