/**
 * The /start handler: the price-range menu built from the labels of the
 * store's lines, or the fixed default menu.
 */
module Menu {
  import opened Wrappers
  import opened PyStr
  import opened TextFile
  import opened Records

  /** An inline keyboard button: the text shown and the callback data sent back when it is pressed. */
  datatype Button = Button(text: string, callbackData: string)

  /** The menu shown when the store is missing or empty, in this order. */
  function DefaultKeyboard(): seq<Button> {
    [ Button("\U{20B9}100-\U{20B9}500", "100-500"),
      Button("\U{20B9}500-\U{20B9}1000", "500-1000"),
      Button("\U{20B9}1000-\U{20B9}5000", "1000-5000") ]
  }

  /** The set of the values of `f` on the lines, gathered from the first line to the last. */
  function Image(lines: seq<string>, f: string -> string): set<string> {
    if lines == [] then {} else Image(lines[..|lines| - 1], f) + {f(lines[|lines| - 1])}
  }

  /** `Image` holds the value of `f` on every line and nothing else. */
  lemma {:induction false} ImageMembers(lines: seq<string>, f: string -> string, x: string)
    ensures x in Image(lines, f) <==> exists k :: 0 <= k < |lines| && f(lines[k]) == x
  {
    if lines != [] {
      var n := |lines|;
      var front := lines[..n - 1];
      ImageMembers(front, f, x);
      assert forall k :: 0 <= k < n - 1 ==> front[k] == lines[k];
      if x in Image(front, f) {
        var k :| 0 <= k < n - 1 && f(front[k]) == x;
        assert f(lines[k]) == x;
      }
    }
  }

  lemma ImageOne(line: string, f: string -> string)
    ensures Image([line], f) == {f(line)}
  {
    assert [line][..0] == [];
  }

  /** The distinct labels of the lines. */
  function LabelSet(lines: seq<string>): set<string> {
    Image(lines, Label)
  }

  /** `LabelSet` holds the label of every line and nothing else. */
  lemma LabelSetMembers(lines: seq<string>, x: string)
    ensures x in LabelSet(lines) <==> exists k :: 0 <= k < |lines| && Label(lines[k]) == x
  {
    ImageMembers(lines, Label, x);
  }

  /** One more line adds its label. */
  lemma LabelSetSnoc(lines: seq<string>, i: nat)
    requires i < |lines|
    ensures LabelSet(lines[..i + 1]) == LabelSet(lines[..i]) + {Label(lines[i])}
  {
    assert lines[..i + 1][..i] == lines[..i];
  }

  /** The texts of the buttons. */
  function Texts(keyboard: seq<Button>): set<string> {
    if keyboard == [] then {} else Texts(keyboard[..|keyboard| - 1]) + {keyboard[|keyboard| - 1].text}
  }

  /** `Texts` holds the text of every button and nothing else. */
  lemma {:induction false} TextsMembers(keyboard: seq<Button>, x: string)
    ensures x in Texts(keyboard) <==> exists k :: 0 <= k < |keyboard| && keyboard[k].text == x
  {
    if keyboard != [] {
      var n := |keyboard|;
      TextsMembers(keyboard[..n - 1], x);
      if x in Texts(keyboard[..n - 1]) {
        var k :| 0 <= k < n - 1 && keyboard[..n - 1][k].text == x;
        assert keyboard[k].text == x;
      }
      if exists k :: 0 <= k < n && keyboard[k].text == x {
        var k :| 0 <= k < n && keyboard[k].text == x;
        if k < n - 1 {
          assert keyboard[..n - 1][k].text == x;
        }
      }
    }
  }

  /** One button per label, no label twice, each button sending its own text back. */
  predicate ButtonsFor(keyboard: seq<Button>, labels: set<string>) {
    && (forall k :: 0 <= k < |keyboard| ==> keyboard[k].callbackData == keyboard[k].text)
    && (forall i, j :: 0 <= i < j < |keyboard| ==> keyboard[i].text != keyboard[j].text)
    && Texts(keyboard) == labels
  }

  /**
   * What /start may show for a store: the defaults when the file is missing
   * or has no lines, otherwise one button per distinct label in some order
   * (the source iterates over a set).
   */
  predicate IsMenuFor(store: Option<string>, keyboard: seq<Button>) {
    match store
    case None => keyboard == DefaultKeyboard()
    case Some(text) =>
      var lines := ReadLines(text);
      if lines == [] then keyboard == DefaultKeyboard() else ButtonsFor(keyboard, LabelSet(lines))
  }

  /** The first loop of the handler: the set of the labels of all lines. */
  method CollectPriceRanges(lines: seq<string>) returns (priceRanges: set<string>)
    ensures priceRanges == LabelSet(lines)
  {
    priceRanges := {};
    for i := 0 to |lines|
      invariant priceRanges == LabelSet(lines[..i])
    {
      LabelSetSnoc(lines, i);
      priceRanges := priceRanges + {Label(lines[i])};
    }
    assert lines[..|lines|] == lines;
  }

  /** The second loop of the handler: one button per price range, taken from the set in any order. */
  method MakeButtons(priceRanges: set<string>) returns (keyboard: seq<Button>)
    ensures ButtonsFor(keyboard, priceRanges)
  {
    keyboard := [];
    var remaining := priceRanges;
    while remaining != {}
      invariant MenuProgress(keyboard, remaining, priceRanges)
      decreases |remaining|
    {
      var priceRange :| priceRange in remaining;
      AddButton(keyboard, remaining, priceRanges, priceRange);
      keyboard := keyboard + [Button(priceRange, priceRange)];
      remaining := remaining - {priceRange};
    }
  }

  /** Part way through the second loop: buttons for some labels, the others still to come. */
  predicate MenuProgress(keyboard: seq<Button>, remaining: set<string>, labels: set<string>) {
    && (forall k :: 0 <= k < |keyboard| ==> keyboard[k].callbackData == keyboard[k].text)
    && (forall i, j :: 0 <= i < j < |keyboard| ==> keyboard[i].text != keyboard[j].text)
    && Texts(keyboard) + remaining == labels
    && Texts(keyboard) !! remaining
  }

  /** Turning one remaining label into a button keeps the loop's progress. */
  lemma AddButton(keyboard: seq<Button>, remaining: set<string>, labels: set<string>, x: string)
    requires MenuProgress(keyboard, remaining, labels) && x in remaining
    ensures MenuProgress(keyboard + [Button(x, x)], remaining - {x}, labels)
  {
    var b := Button(x, x);
    var next := keyboard + [b];
    assert Texts(next) + (remaining - {x}) == labels && Texts(next) !! remaining - {x} by {
      TextsSnoc(keyboard, b);
    }
    assert forall k :: 0 <= k < |keyboard| ==> next[k] == keyboard[k];
    assert forall k :: 0 <= k < |keyboard| ==> keyboard[k].text != x by {
      TextsMembers(keyboard, x);
    }
    forall i, j | 0 <= i < j < |next| ensures next[i].text != next[j].text {
      if j == |keyboard| {
        assert next[j] == b;
      }
    }
  }

  /** One more button adds its text. */
  lemma TextsSnoc(keyboard: seq<Button>, b: Button)
    ensures Texts(keyboard + [b]) == Texts(keyboard) + {b.text}
  {
    assert (keyboard + [b])[..|keyboard|] == keyboard;
  }

  /** The handler: collect the labels, turn each into a button, fall back to the defaults. */
  method Start(store: Option<string>) returns (keyboard: seq<Button>)
    ensures IsMenuFor(store, keyboard)
  {
    if store.None? {
      return DefaultKeyboard();
    }
    var lines := ReadLines(store.value);
    var priceRanges := CollectPriceRanges(lines);
    keyboard := MakeButtons(priceRanges);
    if keyboard == [] {
      keyboard := DefaultKeyboard();
    }
  }

  /** A list of buttons with pairwise different texts has as many buttons as texts. */
  lemma {:induction false} DistinctTextsCount(keyboard: seq<Button>)
    requires forall i, j :: 0 <= i < j < |keyboard| ==> keyboard[i].text != keyboard[j].text
    ensures |Texts(keyboard)| == |keyboard|
  {
    if keyboard != [] {
      var n := |keyboard|;
      var front := keyboard[..n - 1];
      var t := keyboard[n - 1].text;
      assert forall k :: 0 <= k < n - 1 ==> front[k] == keyboard[k];
      DistinctTextsCount(front);
      assert t !in Texts(front) by {
        TextsMembers(front, t);
      }
      assert Texts(keyboard) == Texts(front) + {t};
    }
  }

  /** Every menu /start may show for a store holds the same buttons: they differ only in order. */
  lemma MenuUpToOrder(store: Option<string>, k1: seq<Button>, k2: seq<Button>)
    requires IsMenuFor(store, k1) && IsMenuFor(store, k2)
    ensures |k1| == |k2|
    ensures forall b :: b in k1 <==> b in k2
  {
    if store.Some? && ReadLines(store.value) != [] {
      DistinctTextsCount(k1);
      DistinctTextsCount(k2);
      forall b | b in k1 ensures b in k2 {
        var i :| 0 <= i < |k1| && k1[i] == b;
        TextsMembers(k1, b.text);
        TextsMembers(k2, b.text);
        var j :| 0 <= j < |k2| && k2[j].text == b.text;
        assert k2[j] == b;
      }
      forall b | b in k2 ensures b in k1 {
        var i :| 0 <= i < |k2| && k2[i] == b;
        TextsMembers(k2, b.text);
        TextsMembers(k1, b.text);
        var j :| 0 <= j < |k1| && k1[j].text == b.text;
        assert k1[j] == b;
      }
    }
  }

  /** The defaults are shown exactly when the file is missing or empty: any line, even a blank one, gives a button. */
  lemma DefaultsIffNoLines(store: Option<string>, keyboard: seq<Button>)
    requires IsMenuFor(store, keyboard)
    ensures keyboard == DefaultKeyboard() <==> store.None? || store.value == []
  {
    if store.Some? && store.value != [] {
      var lines := ReadLines(store.value);
      assert lines != [];
      var d := DefaultKeyboard();
      assert d[0].callbackData != d[0].text;
    }
  }

  /** A file of one line gives exactly one button, the label of that line. */
  lemma OneLineMenu(text: string, line: string, keyboard: seq<Button>)
    requires ReadLines(text) == [line]
    requires IsMenuFor(Some(text), keyboard)
    ensures keyboard == [Button(Label(line), Label(line))]
  {
    ImageOne(line, Label);
    SingleButton(keyboard, Label(line));
  }

  /** The only keyboard with one button per label of `{x}` is the one button `x`. */
  lemma SingleButton(keyboard: seq<Button>, x: string)
    requires ButtonsFor(keyboard, {x})
    ensures keyboard == [Button(x, x)]
  {
    DistinctTextsCount(keyboard);
    TextsMembers(keyboard, x);
    assert |keyboard| == 1;
    assert keyboard[0].text == x;
  }

  /** A blank line is one line whose label is empty. */
  lemma BlankLineLabel()
    ensures ReadLines("\n") == ["\n"] && Label("\n") == []
  {
    OneLine("\n");
    StripPadded([], [], "\n");
    assert Split("\n", '|') == ["\n"];
  }

  /** A file holding one blank line gives the single button with the empty label. */
  lemma BlankLineMenu(keyboard: seq<Button>)
    requires IsMenuFor(Some("\n"), keyboard)
    ensures keyboard == [Button([], [])]
  {
    BlankLineLabel();
    OneLineMenu("\n", "\n", keyboard);
  }
}
