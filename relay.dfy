/**
 * The button-press handler: look the selected price range up in the store
 * and forward the messages its first matching line links to, stopping at
 * the first link that cannot be forwarded.
 */
module Relay {
  import opened Wrappers
  import opened PyStr
  import opened TextFile
  import opened Records

  /** What the messaging platform answers to one forward request. */
  datatype Delivery = Delivered | Refused(error: string)

  /** The reply of one button press. */
  datatype Outcome =
    | StoreMissing
    | NotFound(priceRange: string)
    | ForwardFailed(link: string, error: string, forwarded: seq<Target>)
    | Success(priceRange: string, forwarded: seq<Target>)

  /** The text the handler puts into the menu message for an outcome. */
  function ReplyText(o: Outcome): string {
    match o
    case StoreMissing => "The ID data file is missing. Please contact the admin."
    case NotFound(p) => "No IDs found for the range \U{20B9}" + p + "."
    case ForwardFailed(link, error, _) => "Failed to forward the message from " + link + ". Error: " + error
    case Success(p, _) => "Here is the information for the \U{20B9}" + p + " range."
  }

  /**
   * Forwarding one link: the link is parsed (which can fail), then the
   * platform is asked to forward the message (which can fail, with the
   * platform's error text).
   */
  function Attempt(link: string, forward: Target -> Delivery): Result<Target, string> {
    match ParseLink(link)
    case Err(e) => Err(e)
    case Ok(t) => if forward(t).Delivered? then Ok(t) else Err(forward(t).error)
  }

  /** `Attempt` with the platform fixed, as one step of the forwarding loop. */
  function Step(forward: Target -> Delivery): string -> Result<Target, string> {
    link => Attempt(link, forward)
  }

  /** The links before index `n` were all forwarded by `step`, to the targets `sent`, in order. */
  predicate ForwardedUpTo(links: seq<string>, step: string -> Result<Target, string>, sent: seq<Target>, n: nat) {
    && n <= |links|
    && |sent| == n
    && forall j :: 0 <= j < n ==> step(links[j]) == Ok(sent[j])
  }

  /** How forwarding a line's links ends: all forwarded, or aborted at one link. */
  datatype ForwardRun =
    | Completed(sent: seq<Target>)
    | Aborted(at: nat, link: string, error: string, sent: seq<Target>)

  /**
   * Forwarding the links in order, stopping at the first failure. A
   * completed run forwarded every link; an aborted run forwarded exactly the
   * links before the failing one and attempted nothing after it.
   */
  function ForwardAll(links: seq<string>, step: string -> Result<Target, string>): (r: ForwardRun)
    ensures r.Completed? ==> ForwardedUpTo(links, step, r.sent, |links|)
    ensures r.Aborted? ==>
      && r.at < |links| && r.link == links[r.at]
      && ForwardedUpTo(links, step, r.sent, r.at)
      && step(links[r.at]) == Err(r.error)
  {
    if links == [] then Completed([])
    else
      match step(links[0])
      case Err(e) => Aborted(0, links[0], e, [])
      case Ok(t) =>
        assert forall j :: 0 <= j < |links| - 1 ==> links[1..][j] == links[j + 1];
        match ForwardAll(links[1..], step)
        case Completed(s) => Completed([t] + s)
        case Aborted(k, l, e, s) => Aborted(k + 1, l, e, [t] + s)
  }

  /** If every link can be forwarded, the run completes with exactly those targets. */
  lemma ForwardAllCompletes(links: seq<string>, step: string -> Result<Target, string>, sent: seq<Target>)
    requires ForwardedUpTo(links, step, sent, |links|)
    ensures ForwardAll(links, step) == Completed(sent)
  {
    var r := ForwardAll(links, step);
    assert r.Completed?;
    assert forall j :: 0 <= j < |links| ==> r.sent[j] == sent[j];
    assert r.sent == sent;
  }

  /** If link `n` is the first that cannot be forwarded, the run aborts there, after forwarding the others before it. */
  lemma ForwardAllAborts(links: seq<string>, step: string -> Result<Target, string>, sent: seq<Target>, n: nat, error: string)
    requires n < |links| && ForwardedUpTo(links, step, sent, n)
    requires step(links[n]) == Err(error)
    ensures ForwardAll(links, step) == Aborted(n, links[n], error, sent)
  {
    var r := ForwardAll(links, step);
    assert r.Aborted? && r.at == n;
    assert forall j :: 0 <= j < n ==> r.sent[j] == sent[j];
    assert r.sent == sent;
  }

  /** The index of the first line that starts with the price range, if any. */
  function FirstMatch(lines: seq<string>, priceRange: string): (r: Option<nat>)
    ensures r.None? <==> forall k :: 0 <= k < |lines| ==> !StartsWith(lines[k], priceRange)
    ensures r.Some? ==>
      && r.value < |lines| && StartsWith(lines[r.value], priceRange)
      && forall k :: 0 <= k < r.value ==> !StartsWith(lines[k], priceRange)
  {
    if lines == [] then None
    else if StartsWith(lines[0], priceRange) then Some(0)
    else
      assert forall k :: 0 <= k < |lines| - 1 ==> lines[1..][k] == lines[k + 1];
      match FirstMatch(lines[1..], priceRange)
      case None => None
      case Some(i) => Some(i + 1)
  }

  /** The outcome of a run over the matched line's links. */
  function RunOutcome(priceRange: string, run: ForwardRun): Outcome {
    match run
    case Completed(sent) => Success(priceRange, sent)
    case Aborted(_, link, error, sent) => ForwardFailed(link, error, sent)
  }

  /**
   * The reply to pressing the button whose callback data is `priceRange`.
   * A missing file is reported as such; a file in which no line starts with
   * the price range gives NotFound; otherwise the first such line is used.
   */
  function Lookup(store: Option<string>, priceRange: string, forward: Target -> Delivery): (o: Outcome)
    ensures o.StoreMissing? <==> store.None?
    ensures o.NotFound? || o.Success? ==> o.priceRange == priceRange
  {
    match store
    case None => StoreMissing
    case Some(text) =>
      var lines := ReadLines(text);
      match FirstMatch(lines, priceRange)
      case None => NotFound(priceRange)
      case Some(i) =>
        var run := ForwardAll(LineLinks(lines[i]), Step(forward));
        assert run.Completed? || run.Aborted?;
        RunOutcome(priceRange, run)
  }

  /** The reply is NotFound exactly when the file exists and none of its lines starts with the price range. */
  lemma LookupNotFound(text: string, priceRange: string, forward: Target -> Delivery)
    ensures Lookup(Some(text), priceRange, forward).NotFound? <==>
      forall k :: 0 <= k < |ReadLines(text)| ==> !StartsWith(ReadLines(text)[k], priceRange)
  {
    var lines := ReadLines(text);
    var m := FirstMatch(lines, priceRange);
    if m.Some? {
      var run := ForwardAll(LineLinks(lines[m.value]), Step(forward));
      assert !RunOutcome(priceRange, run).NotFound? by {
        assert run.Completed? || run.Aborted?;
      }
      assert Lookup(Some(text), priceRange, forward) == RunOutcome(priceRange, run);
    } else {
      assert Lookup(Some(text), priceRange, forward) == NotFound(priceRange);
    }
  }

  /**
   * The first line that starts with the price range decides the reply:
   * its links are forwarded and no other line is looked at.
   */
  lemma LookupUsesFirstMatchingLine(text: string, priceRange: string, forward: Target -> Delivery, i: nat)
    requires i < |ReadLines(text)| && StartsWith(ReadLines(text)[i], priceRange)
    requires forall k :: 0 <= k < i ==> !StartsWith(ReadLines(text)[k], priceRange)
    ensures Lookup(Some(text), priceRange, forward) ==
      RunOutcome(priceRange, ForwardAll(LineLinks(ReadLines(text)[i]), Step(forward)))
  {
    var m := FirstMatch(ReadLines(text), priceRange);
    assert m.Some? && m.value == i;
  }

  /** Lines that do not match are passed over: the first matching line after them is used. */
  lemma LookupAfterUnmatched(text: string, before: seq<string>, more: seq<string>, priceRange: string, forward: Target -> Delivery)
    requires ReadLines(text) == before + more && more != []
    requires forall k :: 0 <= k < |before| ==> !StartsWith(before[k], priceRange)
    requires StartsWith(more[0], priceRange)
    ensures Lookup(Some(text), priceRange, forward) ==
      RunOutcome(priceRange, ForwardAll(LineLinks(more[0]), Step(forward)))
  {
    var lines := ReadLines(text);
    assert lines[|before|] == more[0];
    assert forall k :: 0 <= k < |before| ==> lines[k] == before[k];
    LookupUsesFirstMatchingLine(text, priceRange, forward, |before|);
  }

  /** Lines after a matching line change nothing: text appended to the file after it is never used. */
  lemma LaterLinesIgnored(a: string, b: string, priceRange: string, forward: Target -> Delivery)
    requires Terminated(a)
    requires exists k :: 0 <= k < |ReadLines(a)| && StartsWith(ReadLines(a)[k], priceRange)
    ensures Lookup(Some(a + b), priceRange, forward) == Lookup(Some(a), priceRange, forward)
  {
    var la := ReadLines(a);
    ReadLinesAppend(a, b);
    var m := FirstMatch(la, priceRange);
    var i := m.value;
    assert forall k :: 0 <= k <= i ==> ReadLines(a + b)[k] == la[k];
    LookupUsesFirstMatchingLine(a, priceRange, forward, i);
    LookupUsesFirstMatchingLine(a + b, priceRange, forward, i);
  }

  /** A matching line without `|` has no links: nothing is forwarded and the reply is the confirmation. */
  lemma LineWithoutLinks(text: string, priceRange: string, forward: Target -> Delivery, i: nat)
    requires i < |ReadLines(text)| && StartsWith(ReadLines(text)[i], priceRange)
    requires forall k :: 0 <= k < i ==> !StartsWith(ReadLines(text)[k], priceRange)
    requires '|' !in ReadLines(text)[i]
    ensures Lookup(Some(text), priceRange, forward) == Success(priceRange, [])
  {
    LookupUsesFirstMatchingLine(text, priceRange, forward, i);
    assert Split(ReadLines(text)[i], '|') == [ReadLines(text)[i]];
    assert LineLinks(ReadLines(text)[i]) == [];
  }

  /**
   * When the platform refuses every forward, a matched line with links fails
   * at its first link and nothing is forwarded.
   */
  lemma RefusingPlatform(text: string, priceRange: string, forward: Target -> Delivery, i: nat)
    requires forall t :: forward(t).Refused?
    requires i < |ReadLines(text)| && StartsWith(ReadLines(text)[i], priceRange)
    requires forall k :: 0 <= k < i ==> !StartsWith(ReadLines(text)[k], priceRange)
    requires LineLinks(ReadLines(text)[i]) != []
    ensures Lookup(Some(text), priceRange, forward).ForwardFailed?
    ensures Lookup(Some(text), priceRange, forward).link == LineLinks(ReadLines(text)[i])[0]
    ensures Lookup(Some(text), priceRange, forward).forwarded == []
  {
    var links := LineLinks(ReadLines(text)[i]);
    LookupUsesFirstMatchingLine(text, priceRange, forward, i);
    var e := Attempt(links[0], forward);
    assert e.Err?;
    ForwardAllAborts(links, Step(forward), [], 0, e.error);
  }

  /**
   * Matching is a prefix test, not equality: in a file holding one line
   * written for `name`, any prefix of `name` selects that line.
   */
  lemma PrefixSelectsLine(name: string, link: string, prefix: string, forward: Target -> Delivery)
    requires Word(name) && Word(link) && StartsWith(name, prefix)
    ensures Lookup(Some(FormatLine(name, link)), prefix, forward) ==
      RunOutcome(prefix, ForwardAll([link], Step(forward)))
  {
    var line := FormatLine(name, link);
    OneLineFile(name, link);
    assert line[..|prefix|] == name[..|prefix|];
    LookupUsesFirstMatchingLine(line, prefix, forward, 0);
  }

  /** The price range "100" selects a "100-500" line and forwards its link. */
  lemma PrefixMatchExample(name: string, link: string, prefix: string, forward: Target -> Delivery)
    requires name == "100-500" && link == "https://t.me/chan/999" && prefix == "100"
    requires forall t :: forward(t) == Delivered
    ensures Lookup(Some(FormatLine(name, link)), prefix, forward) == Success(prefix, [Target("chan", "999")])
  {
    assert Word(name) by { VisibleWord(name); }
    assert Word(link) by { VisibleWord(link); }
    assert name[..3] == prefix;
    PrefixSelectsLine(name, link, prefix, forward);
    ParseLinkExample(link);
    assert Step(forward)(link) == Ok(Target("chan", "999"));
    ForwardAllCompletes([link], Step(forward), [Target("chan", "999")]);
  }

  /**
   * The inner loop of the handler: forward the links one by one and give up
   * at the first link that cannot be parsed or forwarded.
   */
  method ForwardLinks(links: seq<string>, forward: Target -> Delivery) returns (run: ForwardRun)
    ensures run == ForwardAll(links, Step(forward))
  {
    var sent: seq<Target> := [];
    for j := 0 to |links|
      invariant ForwardedUpTo(links, Step(forward), sent, j)
    {
      var link := links[j];
      var parts := Split(link, '/');
      var messageId := parts[|parts| - 1];
      if |parts| < 4 {
        ForwardAllAborts(links, Step(forward), sent, j, IndexErrorText);
        return Aborted(j, link, IndexErrorText, sent);
      }
      var chatId := parts[3];
      var target := Target(chatId, messageId);
      var delivery := forward(target);
      if delivery.Refused? {
        ForwardAllAborts(links, Step(forward), sent, j, delivery.error);
        return Aborted(j, link, delivery.error, sent);
      }
      sent := sent + [target];
    }
    ForwardAllCompletes(links, Step(forward), sent);
    run := Completed(sent);
  }

  /**
   * The handler: scan the lines for the first one starting with the price
   * range, forward its links, and reply with the first failure, the
   * confirmation, or "not found".
   */
  method SendIds(store: Option<string>, priceRange: string, forward: Target -> Delivery) returns (o: Outcome)
    ensures o == Lookup(store, priceRange, forward)
  {
    if store.None? {
      return StoreMissing;
    }
    var lines := ReadLines(store.value);
    var found := false;
    var i := 0;
    while i < |lines|
      invariant 0 <= i <= |lines|
      invariant !found
      invariant forall k :: 0 <= k < i ==> !StartsWith(lines[k], priceRange)
    {
      var line := lines[i];
      if StartsWith(line, priceRange) {
        LookupUsesFirstMatchingLine(store.value, priceRange, forward, i);
        var run := ForwardLinks(LineLinks(line), forward);
        if run.Aborted? {
          return ForwardFailed(run.link, run.error, run.sent);
        }
        o := Success(priceRange, run.sent);
        found := true;
        break;
      }
      i := i + 1;
    }
    if !found {
      o := NotFound(priceRange);
    }
  }
}
