# A store bot for game-account listings, modelled in Dafny

The bot (`id.py`) sells game accounts grouped by price range. It has three
handlers. They share one text file, `id.txt`, with one record per line:
`<price range> | <link>[ | <link> ...]`. Each link is a message link
`https://t.me/<channel>/<message id>`.

- `/start` reads the file and shows one inline button per distinct price
  range. The price range of a line is its text before the first `|`, with
  whitespace stripped. When the file is missing or has no lines, it shows
  three fixed default buttons instead.
- A button press sends the price range back as callback data. The handler
  takes the first line that *starts with* that text and forwards the
  message of each of that line's links. It stops at the first link that
  cannot be parsed or forwarded, and then edits the menu message to report
  the outcome.
- `/add_id <price range> <link> [<link> ...]` may be used only by the
  admin. It appends one line `<price range> | <link>` per link to the file.

The model works on values:

- The store is `Option<string>`: `None` is a missing file, `Some(text)` is
  the file's whole text.
- The Python string and file operations the handlers rely on are written
  out exactly (module `PyStr`; module `TextFile`): `split`, `strip()` with
  Python's whitespace set, `startswith`, `readlines()` and appending in
  mode `'a'`.
- The line format is in module `Records`.
- Each handler is a method that mirrors the source's loops. `Relay.SendIds`
  and `Admin.AddId` are proved equal to the specification functions
  `Relay.Lookup` and `Admin.AddIdEffect`. `Menu.Start` is proved to satisfy
  the predicate `Menu.IsMenuFor`, which allows the buttons in any order.
  The properties are lemmas about these specifications.
- Module `RoundTrip` relates the handlers to each other: what `/add_id`
  writes, what `/start` then shows and what a button press then forwards.

The messaging platform is a parameter. `forward: Target -> Delivery` says
whether it delivers a given message. The admin's user id and the caller's
user id are parameters too.

## Model

| member | source | states |
|---|---|---|
| PyStr.IsSpace | id.py:28 | the characters Python's `str.isspace()` accepts, which `strip()` removes; `Strip` and `StripUnique` are stated in terms of it |
| PyStr.StartsWith | id.py:71 | `s.startswith(prefix)`: the prefix is no longer than `s` and equals its first characters; `FirstCharMismatch` and `Relay.PrefixSelectsLine` describe its use |
| PyStr.FirstCharMismatch | id.py:71 | `startswith` is false when the first characters of the string and the prefix differ |
| PyStr.Find | id.py:23 | the index returned holds the character and no earlier index does |
| PyStr.FindFirst | id.py:23 | an index holding the character with none before it is the one `Find` returns |
| PyStr.JoinCons | id.py:72 | joining two or more parts is the first part, the separator, then the rest joined |
| PyStr.Split | id.py:28 | `split(sep)` gives at least one piece, no piece contains the separator, and joining the pieces gives the string back |
| PyStr.SplitAt | id.py:28 | splitting where the first piece is free of the separator peels that piece off and splits the rest |
| PyStr.SplitJoin | id.py:72 | `split` undoes the join of any separator-free pieces (the inverse of `Split`'s contract) |
| PyStr.LeadingSpace | id.py:28 | the count covers only whitespace and stops at the first non-whitespace character |
| PyStr.TrailingSpace | id.py:73 | the count covers only trailing whitespace and stops at the last non-whitespace character |
| PyStr.Strip | id.py:28 | `strip()` returns a slice of the input, with only whitespace outside it, that neither starts nor ends with whitespace |
| PyStr.StripUnique | id.py:73 | any slice with those properties is the result of `Strip`, so `Strip`'s contract determines it |
| PyStr.SpacePrefixUnique | id.py:28 | a whitespace prefix that stops at a non-whitespace character or the end is unique |
| PyStr.SpaceSuffixUnique | id.py:28 | a whitespace suffix that follows a non-whitespace character is unique |
| PyStr.StripPadded | id.py:73 | stripping whitespace padding off a whitespace-free word returns the word |
| TextFile.ReadLines | id.py:23 | `file.readlines()`: the text cut after every newline, each line keeping it; `ReadLinesSound` and `ReadLinesConcat` make it the inverse of concatenation on well-formed lines |
| TextFile.ReadLinesSound | id.py:23 | `readlines()` loses and adds nothing: its lines concatenate to the text, each is a line and all but the last end with a newline |
| TextFile.ReadLinesJoin | id.py:23 | the lines concatenate back to the text |
| TextFile.ReadLinesShape | id.py:23 | every line is non-empty, holds a newline only at its end, and all but the last end with one |
| TextFile.ConcatOne | id.py:23 | the text of one line is that line |
| TextFile.ConcatAppend | id.py:23 | the text of two lists of lines is the two texts one after the other |
| TextFile.ReadLinesConcat | id.py:66 | `readlines()` on the text of a well-formed list of lines returns exactly that list (the inverse of `ReadLinesJoin`) |
| TextFile.LastLineTerminated | id.py:122-124 | the last line of a text ending in a newline ends in a newline |
| TextFile.ReadLinesAppend | id.py:122-124 | a text ending in a newline followed by more text reads as its own lines, then the lines of the addition |
| TextFile.WellFormedAppend | id.py:122-124 | two well-formed lists of lines stay well formed one after the other when the first ends in a newline |
| TextFile.OneLine | id.py:23 | a single line reads back as itself |
| TextFile.SplitLastLine | id.py:23 | a non-empty text is a terminated front and a last line, and reads as the front's lines then that line |
| TextFile.WellFormedFront | id.py:23 | dropping the last line keeps the lines well formed |
| TextFile.LastLineTerminatedFront | id.py:23 | well-formed lines whose last line ends in a newline make a text ending in a newline |
| TextFile.ReadLinesGlue | id.py:122-124 | appending a line to a text whose last line has no newline joins the two into one line and keeps the other lines |
| TextFile.GlueAfter | id.py:122-124 | an unterminated last line followed by a whole line is read as one line between the front's lines and the rest's |
| TextFile.ReplaceLast | id.py:122-124 | replacing the last element of `front + [last]` leaves `front` in place |
| TextFile.GlueRead | id.py:122-124 | a terminated text, a whole line and more text read as the three parts in order |
| TextFile.ReadLinesCons | id.py:66 | a text starting with a whole line reads as that line, then the rest |
| TextFile.GlueLine | id.py:122-124 | an unterminated last line joined with a whole line is one whole line |
| TextFile.AppendText | id.py:122-124 | writing in mode `'a'` keeps the old text (none for a missing file) as a prefix and adds exactly the written piece after it |
| Records.Label | id.py:28 | the stripped text before the first pipe character; `RecordLineFields`, `FormatLineFields` and `LabelIsPrefix` describe it |
| Records.LineLinks | id.py:72-73 | the stripped pieces after each pipe character, in order; `RecordLineFields` describes it |
| Records.ParseLink | id.py:78-82 | the channel is segment 3 and the message id the last `/`-segment, or the index error with fewer than four segments; `ParseLinkOfSegments` describes it |
| Records.FormatLine | id.py:124 | the line written for one link; `FormatLineFields` shows it reads back as its price range and link |
| Records.AppendedText | id.py:122-124 | the text written for all links, one line per link in order; `AppendedTextConcat` and `ReadLinesAfterAppend` describe it |
| Records.FormattedLines | id.py:123-124 | the command writes exactly one line per link |
| Records.LabelIsPrefix | id.py:28 | for a line that does not start with whitespace, the label `/start` shows is a prefix of the line, so pressing it matches that line |
| Records.FormatLineIsRecordLine | id.py:124 | a written line is a record line with one link |
| Records.SplitRecordLine | id.py:72 | splitting a record line at the pipe character gives the padded price range, then the padded links |
| Records.RecordLineFields | id.py:72-73 | a record line built from words has the price range as its label and exactly those links, in order |
| Records.StripLinkPiece | id.py:73 | stripping a padded link piece returns the link |
| Records.FormatLineFields | id.py:124 | a line written by `/add_id` has the price range as its label and the one link as its links, and is a whole line |
| Records.FormatLineIsLine | id.py:124 | the written line has one newline, at its end |
| Records.FormatLineStartsWith | id.py:124 | the written line starts with its price range |
| Records.OneLineFile | id.py:124 | a file holding one written line reads as that line and yields that link |
| Records.AppendedTextConcat | id.py:123-124 | the appended text is the concatenation of the written lines |
| Records.AppendedTextFirst | id.py:123-124 | the written lines and text are the line for the first link followed by those for the other links |
| Records.ReadLinesAfterAppend | id.py:122-124 | appending newline-free arguments to a text ending in a newline reads as the old lines followed by the written lines |
| Records.ParseLinkOfSegments | id.py:78-82 | parsing a link fails exactly when it has fewer than four `/`-segments; otherwise the channel is segment 3 and the message id the last segment |
| Records.ParseTelegramLink | id.py:77-82 | `https://<host>/<channel>/<id>` parses to that channel and message id |
| Records.ExampleSegments | id.py:78-82 | `https://t.me/chan/999` has the segments `https:`, empty, `t.me`, `chan`, `999` |
| Records.ParseLinkExample | id.py:78-82 | `https://t.me/chan/999` targets channel `chan`, message `999` |
| Records.ParseLinkWithoutScheme | id.py:82 | `t.me/chan/999` fails with the index error at segment 3 |
| Menu.DefaultKeyboard | id.py:37-49 | the three default buttons in order, whose callback data differ from their texts; `DefaultsIffNoLines` says when they are shown |
| Menu.LabelSet | id.py:26-29 | the set of labels of the lines; `LabelSetMembers` and `CollectPriceRanges` describe it |
| Menu.IsMenuFor | id.py:17-49 | what `/start` may show: the defaults for a missing file or one without lines, otherwise one button per distinct label, each sending its label back, in any order; `Start`, `MenuUpToOrder` and `DefaultsIffNoLines` are stated with it |
| Menu.ImageMembers | id.py:26-29 | the set built over the lines holds the value of the function on every line and nothing else |
| Menu.ImageOne | id.py:26-29 | over one line the set is that line's value |
| Menu.LabelSetMembers | id.py:26-29 | the set of price ranges is exactly the labels of the lines |
| Menu.LabelSetSnoc | id.py:27-29 | one more line adds its label to the set |
| Menu.TextsMembers | id.py:32-33 | the button texts are exactly the texts of the buttons |
| Menu.CollectPriceRanges | id.py:26-29 | the first loop collects exactly the set of labels of all lines |
| Menu.MakeButtons | id.py:32-33 | the second loop makes one button per price range, none twice, each sending back its own text |
| Menu.AddButton | id.py:32-33 | adding a button for a remaining price range keeps the loop's invariant |
| Menu.TextsSnoc | id.py:33 | one more button adds its text |
| Menu.Start | id.py:17-49 | `/start` shows the defaults for a missing file or one without lines, otherwise one button per distinct label |
| Menu.DistinctTextsCount | id.py:32-33 | buttons with different texts are as many as their texts |
| Menu.MenuUpToOrder | id.py:26-33 | any two menus `/start` may show for one file have the same buttons and length, in possibly different order |
| Menu.DefaultsIffNoLines | id.py:36-49 | the defaults are shown if and only if the file is missing or empty |
| Menu.OneLineMenu | id.py:26-33 | a file of one line shows exactly one button, holding that line's label |
| Menu.SingleButton | id.py:32-33 | the menu for a single price range is one button for it |
| Menu.BlankLineLabel | id.py:28 | a blank line is one line whose label is empty |
| Menu.BlankLineMenu | id.py:28-36 | a file holding one blank line shows one button with an empty label instead of the defaults |
| Relay.ReplyText | id.py:87-98 | the exact text the menu message is edited to for each outcome: the forward failure with link and error, the confirmation, not found, and the missing file |
| Relay.RunOutcome | id.py:86-91 | a completed run is the confirmation with the forwarded targets; an aborted run is the failure at its link with its error |
| Relay.Attempt | id.py:78-88 | one forward: parse the link, then ask the platform; fails with the parse error or the platform's error; `ForwardAll` and `RefusingPlatform` describe its use |
| Relay.ForwardAll | id.py:76-88 | a completed run forwarded every link in order; an aborted run forwarded exactly the links before the failing one and reports that link and its error |
| Relay.ForwardAllCompletes | id.py:76-90 | when every link is forwarded, the run completes with those targets |
| Relay.ForwardAllAborts | id.py:76-88 | when the first failure is at link `n`, the run aborts there, having forwarded the links before it |
| Relay.FirstMatch | id.py:69-71 | finds nothing exactly when no line starts with the price range; otherwise gives the first line that does |
| Relay.Lookup | id.py:58-98 | reports a missing file if and only if the file is missing, and the not-found and success replies name the pressed price range |
| Relay.LookupNotFound | id.py:69-95 | for an existing file, the reply is not-found if and only if no line starts with the price range |
| Relay.LookupUsesFirstMatchingLine | id.py:69-92 | the reply is decided by forwarding the links of the first line that starts with the price range |
| Relay.LookupAfterUnmatched | id.py:69-92 | lines before the first match that do not match play no part |
| Relay.LaterLinesIgnored | id.py:69-92 | on a file ending in a newline that already has a matching line, text appended after it does not change the reply |
| Relay.LineWithoutLinks | id.py:72-92 | a matching line without a pipe character succeeds and forwards nothing |
| Relay.RefusingPlatform | id.py:76-88 | when the platform refuses everything, the reply reports the line's first link and nothing is forwarded |
| Relay.PrefixSelectsLine | id.py:71 | in a file holding just one written line, any prefix of that line's price range selects it |
| Relay.PrefixMatchExample | id.py:71 | pressing `100` on the line written for `100-500` and `https://t.me/chan/999` forwards message 999 |
| Relay.ForwardLinks | id.py:76-88 | the inner loop, with its early return, gives the run `ForwardAll` describes |
| Relay.SendIds | id.py:58-98 | the handler, with its `break` and early return, gives the reply `Lookup` describes |
| Admin.Accepted | id.py:103-118 | the command goes ahead exactly when the caller is the admin, there are at least two arguments and the price range is non-empty; `AddIdEffect` is stated with it |
| Admin.AddReplyText | id.py:104-126 | the exact reply texts for the refusal, the usage hint, the invalid price range and the confirmation |
| Admin.AddIdEffect | id.py:101-124 | the checks in the source's order and their replies; a rejected command changes nothing; an accepted one creates or extends the file and keeps the old text as a prefix |
| Admin.AddId | id.py:101-126 | the handler's write loop gives the reply and file `AddIdEffect` describes |
| Admin.AddIdLines | id.py:112-124 | with newline-free arguments on a file ending in a newline, the old lines stay and one line per link follows, in order |
| Admin.AcceptedText | id.py:122-124 | an accepted command leaves the old text, the line for the first link, then the lines for the others |
| Admin.AddIdJoinsUnterminatedLine | id.py:122-124 | on a file whose last line lacks a newline, the first written line is joined onto that last line |
| RoundTrip.AppendThenLookup | id.py:69-124 | on a missing file or one ending in a newline (or empty), after adding links for a price range no old line starts with, pressing it forwards the first new link only |
| RoundTrip.AppendToMissingThenLookup | id.py:69-124 | after adding links to a missing file, pressing the price range forwards exactly the first link, or fails on it |
| RoundTrip.TwoLinksForwardOne | id.py:69-124 | adding two links to a missing file writes two lines, yet pressing the price range forwards one message |
| RoundTrip.AddedPriceRangeInMenu | id.py:26-124 | on a missing file or one ending in a newline (or empty), after an accepted `/add_id`, `/start` shows a button for the added price range |
| RoundTrip.MenuButtonFound | id.py:28-71 | on a non-empty file with no indented line, pressing any button of its menu finds a line |
| RoundTrip.UnterminatedFileHidesAddition | id.py:26-124 | on a file holding one word without a newline, `/add_id` with one link leaves a single glued line, `/start` shows only the glued label, and pressing the added price range finds nothing |
| RoundTrip.GluedStore | id.py:122-124 | appending one link's line to a text is the line written for the text glued to the price range |
| RoundTrip.IndentedLinesNeverFound | id.py:71 | on a file whose lines all start with whitespace, no price range that does not is ever found |
| RoundTrip.IndentedLine | id.py:23-28 | an indented written line is one line, indented, labelled with its price range |
| RoundTrip.IndentedLabel | id.py:28 | stripping removes the indentation from the label |
| RoundTrip.IndentedLineMenu | id.py:28-33 | a file holding one indented written line shows its price range as the only button |
| RoundTrip.IndentedLineNotFound | id.py:28-71 | pressing that button finds nothing |

## Left out

- Telegram calls: `reply_text`, `query.answer`, `edit_message_text` and
  `forward` (id.py:52-55, 60, 85-98, 104-129). A handler returns its reply
  (a `Button` list, an `Outcome` or an `AddReply`) instead of sending it.
  The platform's answer to a forward is the parameter `forward`.
- A button press carries no `update.message` in the source, so the forward
  call of id.py:85 raises, and the reply becomes a failure. The model does
  not hard-wire that failure. It is one possible `forward`, the refusing
  platform of `Relay.RefusingPlatform`.
- I/O errors other than a missing file are not modelled (id.py:128-129,
  and any read error in the other handlers). This covers an unwritable
  file or a full disk.
- Logging, the error handler, the token and `main` (id.py:5-8, 132-159)
  are not modelled. They carry no logic the handlers depend on.
- `ADMIN_ID` (id.py:11) is the parameter `adminId`. The caller's id enters
  as text, as `str(update.message.from_user.id)` gives it.
- How the platform splits a command into `context.args` is not modelled.
  Splitting at whitespace leaves no whitespace in an argument, so no
  newline. The line-level append lemmas (`Records.ReadLinesAfterAppend`,
  `Admin.AddIdLines`, `Admin.AddIdJoinsUnterminatedLine`) assume only that
  the arguments are newline-free.
- Some lemmas need more than splitting guarantees. `Records.RecordLineFields`,
  `Records.FormatLineFields`, `Records.OneLineFile` and the
  `RoundTrip.Indented*` lemmas need their price range and links free of
  `|` as well as of whitespace (the predicate `Records.Word`). So do
  `RoundTrip.AppendThenLookup`, `RoundTrip.AppendToMissingThenLookup` and
  `RoundTrip.AddedPriceRangeInMenu`, for the price range and the first
  link. For an argument such as `100|500`, the written line reads back
  with a different label and links, and these lemmas say nothing about it.
- Newline translation and text decoding by `open` are not modelled. The
  file's text is taken as Python sees it after decoding.
- Set iteration order (id.py:32) is not modelled. `MakeButtons` picks the
  price ranges in any order, and the menu is specified up to order
  (`Menu.MenuUpToOrder`).

Four consequences of the code that the lemmas make explicit:

- A button press selects the first line that *starts with* the price range
  (id.py:71), not one whose label equals it. So `100` selects the line
  `100-500 | …` (`Relay.PrefixMatchExample`).
- Adding two links writes two lines (id.py:123-124), and the lookup stops
  at the first matching line (id.py:92). So only the first link is
  forwarded (`RoundTrip.TwoLinksForwardOne`).
- Appending to a file whose last line has no newline glues the first
  written line onto it (id.py:122-124, `Admin.AddIdJoinsUnterminatedLine`).
  For example, `abc` followed by `/add_id x y` becomes the single line
  `abcx | y`, so `/start` shows no `x` button and pressing `x` finds
  nothing (`RoundTrip.UnterminatedFileHidesAddition`). This is why the round-trip lemmas require a missing file or one
  ending in a newline.
- A line that starts with whitespace still gets a button, because `/start`
  strips the label (id.py:28). Pressing that button never finds the line,
  because `startswith` does not strip (`RoundTrip.IndentedLineNotFound`).
