/** What each key does to the URL bar, in terms of its text, cursor, selection and suggestions. */
module ChromeKeys {
  import opened Wrappers
  import opened Selections
  import opened CharEditor
  import opened ChromeBar

  /** The bar has this text, cursor and selection now, and is otherwise as it was. */
  ghost predicate Has(was: Chrome, now: Chrome, text: seq<char>, cursor: nat, selection: Option<(nat, nat)>) {
    now == was.(editor := Editor(text, cursor, selection))
  }

  /** Some characters are selected, from lo up to hi. */
  ghost predicate IsSelected(e: Editor, lo: nat, hi: nat) {
    lo < hi && (e.selection == Some((lo, hi)) || e.selection == Some((hi, lo)))
  }

  ghost predicate NothingSelected(e: Editor) {
    e.selection.None? || e.selection.value.0 == e.selection.value.1
  }

  // ---- Deleting ----

  /** Backspace and Delete with a selection remove exactly it, and put the cursor where it began. */
  lemma DeletingASelection(
    chrome: Chrome, key: Key, typed: Option<seq<char>>, ctrl: bool, shift: bool, lo: nat, hi: nat)
    requires chrome.editor.Ok() && (key.Backspace? || key.Delete?) && IsSelected(chrome.editor, lo, hi)
    ensures var text := chrome.editor.text;
            Has(chrome, Performed(chrome, Press(key, typed, ctrl, shift)), text[..lo] + text[hi..], lo, None)
  {
  }

  /** Without one, Backspace removes the character before the cursor, if there is one. */
  lemma BackspaceKey(chrome: Chrome, typed: Option<seq<char>>, ctrl: bool, shift: bool)
    requires chrome.editor.Ok() && NothingSelected(chrome.editor)
    ensures var text, c := chrome.editor.text, chrome.editor.cursor;
            var after := Performed(chrome, Press(Backspace, typed, ctrl, shift));
            if c == 0 then Has(chrome, after, text, 0, None)
                else Has(chrome, after, text[..c - 1] + text[c..], c - 1, None)
  {
  }

  /** And Delete the one after it. */
  lemma DeleteKey(chrome: Chrome, typed: Option<seq<char>>, ctrl: bool, shift: bool)
    requires chrome.editor.Ok() && NothingSelected(chrome.editor)
    ensures var text, c := chrome.editor.text, chrome.editor.cursor;
            var after := Performed(chrome, Press(Delete, typed, ctrl, shift));
            if c == |text| then Has(chrome, after, text, c, None)
                else Has(chrome, after, text[..c] + text[c + 1..], c, None)
  {
  }

  // ---- Moving ----

  /** Where the cursor goes when a key moves it by itself: one position, or to an end. */
  ghost function Destination(e: Editor, key: Key): nat
    requires e.Ok() && (key.ArrowLeft? || key.ArrowRight? || key.Home? || key.End?)
  {
    match key
    case ArrowLeft => if e.cursor == 0 then 0 else e.cursor - 1
    case ArrowRight => if e.cursor == |e.text| then e.cursor else e.cursor + 1
    case Home => 0
    case End => |e.text|
  }

  /** With Shift the cursor moves and the selection runs from where it was anchored to there. */
  lemma MovingWithShift(chrome: Chrome, key: Key, typed: Option<seq<char>>, ctrl: bool)
    requires chrome.editor.Ok() && (key.ArrowLeft? || key.ArrowRight? || key.Home? || key.End?)
    ensures var e := chrome.editor;
            var anchor := if e.selection.Some? then e.selection.value.0 else e.cursor;
            Has(chrome, Performed(chrome, Press(key, typed, ctrl, true)), e.text, Destination(e, key),
                Some((anchor, Destination(e, key))))
  {
  }

  /**
   * Without Shift the selection goes. An arrow takes the cursor to that end of it that the arrow points
   * to, or one position on when there was none; Home and End take it to the ends of the text.
   */
  lemma MovingWithoutShift(chrome: Chrome, key: Key, typed: Option<seq<char>>, ctrl: bool)
    requires chrome.editor.Ok() && (key.ArrowLeft? || key.ArrowRight? || key.Home? || key.End?)
    ensures var e, after := chrome.editor, Performed(chrome, Press(key, typed, ctrl, false));
            && Has(chrome, after, e.text, after.editor.cursor, None)
            && (e.selection.None? || key.Home? || key.End? ==> after.editor.cursor == Destination(e, key))
            && (e.selection.Some? && key.ArrowLeft? ==>
                  && after.editor.cursor in {e.selection.value.0, e.selection.value.1}
                  && after.editor.cursor <= e.selection.value.0 && after.editor.cursor <= e.selection.value.1)
            && (e.selection.Some? && key.ArrowRight? ==>
                  && after.editor.cursor in {e.selection.value.0, e.selection.value.1}
                  && after.editor.cursor >= e.selection.value.0 && after.editor.cursor >= e.selection.value.1)
  {
  }

  /** Left and then Right is no change, away from the start of the text, and the other way round away from its end. */
  lemma LeftAndRight(chrome: Chrome, typed: Option<seq<char>>, ctrl: bool)
    requires chrome.editor.Ok() && chrome.editor.selection.None?
    ensures chrome.editor.cursor > 0 ==>
      PerformedAll(chrome, [Press(ArrowLeft, typed, ctrl, false)] + [Press(ArrowRight, typed, ctrl, false)]) == chrome
    ensures chrome.editor.cursor < |chrome.editor.text| ==>
      PerformedAll(chrome, [Press(ArrowRight, typed, ctrl, false)] + [Press(ArrowLeft, typed, ctrl, false)]) == chrome
  {
    TwoCommands(chrome, Press(ArrowLeft, typed, ctrl, false), Press(ArrowRight, typed, ctrl, false));
    TwoCommands(chrome, Press(ArrowRight, typed, ctrl, false), Press(ArrowLeft, typed, ctrl, false));
  }

  lemma TwoCommands(chrome: Chrome, first: Command, second: Command)
    requires chrome.editor.Ok()
    ensures PerformedAll(chrome, [first] + [second]) == Performed(Performed(chrome, first), second)
  {
    assert ([first] + [second])[..1] == [first] && [first][..0] == [];
    assert PerformedAll(chrome, [first]) == Performed(chrome, first);
  }

  // ---- Typing ----

  /** What may be typed: neither a control of category Cc, nor a bidi embedding, override or isolate. */
  ghost predicate IsTypeable(c: char) {
    var u := c as int;
    !(u < 0x20 || 0x7F <= u <= 0x9F) && !(0x202A <= u <= 0x202E || 0x2066 <= u <= 0x2069)
  }

  /** Every character of a text that passes, in order, and no other. */
  ghost predicate Passes(text: seq<char>, passed: seq<char>, passes: char -> bool) {
    Selects(text, passed, passes, (c: char, d: char) => c == d)
  }

  lemma {:induction false} ControlsJoin(a: seq<char>, b: seq<char>)
    ensures WithoutControls(a + b) == WithoutControls(a) + WithoutControls(b)
  {
    if a == [] {
      assert a + b == b;
    } else {
      var rest, tail := WithoutControls(a[1..]), WithoutControls(b);
      assert (a + b)[0] == a[0] && (a + b)[1..] == a[1..] + b;
      assert [a[0]] + (rest + tail) == ([a[0]] + rest) + tail;
      ControlsJoin(a[1..], b);
    }
  }

  lemma {:induction false} StrippingIsExact(text: seq<char>)
    ensures Passes(text, StripBidiOverrides(text), c => !(0x202A <= c as int <= 0x202E || 0x2066 <= c as int <= 0x2069))
  {
    if text != [] {
      var init, last := text[..|text| - 1], text[|text| - 1];
      assert text == init + [last];
      StrippingIsExact(init);
      StripJoins(init, [last]);
      var passes := (c: char) => !(0x202A <= c as int <= 0x202E || 0x2066 <= c as int <= 0x2069);
      var same := (c: char, d: char) => c == d;
      if passes(last) {
        assert StripBidiOverrides([last]) == [last];
        OneKept(init, StripBidiOverrides(init), passes, same, last, last);
      } else {
        assert StripBidiOverrides([last]) == [];
        assert StripBidiOverrides(init) + [] == StripBidiOverrides(init);
        OneDropped(init, StripBidiOverrides(init), passes, same, last);
      }
    }
  }

  /** What a key's text leaves to insert. */
  function Typed(text: seq<char>): seq<char> {
    StripBidiOverrides(WithoutControls(text))
  }

  lemma {:induction false} TypingIsExact(text: seq<char>)
    ensures Passes(text, Typed(text), c => IsTypeable(c))
  {
    if text != [] {
      var init, last := text[..|text| - 1], text[|text| - 1];
      assert text == init + [last];
      TypingIsExact(init);
      ControlsJoin(init, [last]);
      StripJoins(WithoutControls(init), WithoutControls([last]));
      OneTyped(last);
      if IsTypeable(last) {
        OneKept(init, Typed(init), c => IsTypeable(c), (c: char, d: char) => c == d, last, last);
      } else {
        assert Typed(init) + [] == Typed(init);
        OneDropped(init, Typed(init), c => IsTypeable(c), (c: char, d: char) => c == d, last);
      }
    }
  }

  lemma OneTyped(c: char)
    ensures Typed([c]) == if IsTypeable(c) then [c] else []
  {
    assert WithoutControls([c]) == if IsControl(c) then [] else [c];
    assert StripBidiOverrides([c]) == if IsBidiOverrideOrIsolate(c) then [] else [c];
    assert StripBidiOverrides([]) == [];
  }

  /**
   * A key with text, other than one with a meaning of its own: the characters that may be typed take
   * the place of the selection, with the cursor after them; nothing happens if the text is all controls.
   */
  lemma TypingKey(chrome: Chrome, key: Key, typed: seq<char>, ctrl: bool, shift: bool, lo: nat, hi: nat)
    requires chrome.editor.Ok() && (key.OtherNamed? || (key.Character? && !ctrl))
    requires IsSelected(chrome.editor, lo, hi) || (NothingSelected(chrome.editor) && lo == hi == chrome.editor.cursor)
    ensures var text, (after, action) := chrome.editor.text, HandleKey(chrome, key, Some(typed), ctrl, shift);
            if AllControls(typed) then after == chrome && action == Ignored
            else
              && Has(chrome, after, text[..lo] + Typed(typed) + text[hi..], lo + |Typed(typed)|, None)
              && action == Handled
  {
    ControlsOnly(typed);
    Inserting(chrome.editor, WithoutControls(typed), lo, hi);
  }

  /** Insertion puts the stripped text in the place of the selection, with the cursor after it. */
  lemma Inserting(e: Editor, text: seq<char>, lo: nat, hi: nat)
    requires e.Ok() && (IsSelected(e, lo, hi) || (NothingSelected(e) && lo == hi == e.cursor))
    ensures var chars := StripBidiOverrides(text);
            e.Insert(text) == Editor(e.text[..lo] + chars + e.text[hi..], lo + |chars|, None)
  {
    if lo < hi {
      assert e.Dropped().text[..lo] == e.text[..lo] && e.Dropped().text[lo..] == e.text[hi..];
    }
  }

  /** Nothing but controls of category Cc. */
  ghost predicate AllControls(text: seq<char>) {
    forall k | 0 <= k < |text| :: text[k] as int < 0x20 || 0x7F <= text[k] as int <= 0x9F
  }

  lemma {:induction false} ControlsOnly(text: seq<char>)
    ensures WithoutControls(text) == [] <==> AllControls(text)
  {
    if text != [] {
      ControlsOnly(text[1..]);
      assert forall k | 1 <= k < |text| :: text[k] == text[1..][k - 1];
      assert AllControls(text) ==> AllControls(text[1..]);
      if IsControl(text[0]) && AllControls(text[1..]) {
        assert AllControls(text);
      }
    }
  }

  /** Typing a character and then Backspace is no change, but for the selection it replaced. */
  lemma TypingAndBackspace(chrome: Chrome, c: char, ctrl: bool, shift: bool)
    requires chrome.editor.Ok() && NothingSelected(chrome.editor) && IsTypeable(c)
    ensures var e := chrome.editor;
            Has(chrome, PerformedAll(chrome,
                [Press(Character([c]), Some([c]), false, shift)] + [Press(Backspace, None, ctrl, shift)]),
                e.text, e.cursor, None)
  {
    TwoCommands(chrome, Press(Character([c]), Some([c]), false, shift), Press(Backspace, None, ctrl, shift));
    OneTyped(c);
    assert WithoutControls([c]) == [c];
    TypeThenBackspace(chrome.editor, c);
    assert Performed(chrome, Press(Character([c]), Some([c]), false, shift)) ==
        chrome.(editor := chrome.editor.Insert([c]));
  }

  // ---- The other keys ----

  /** With Control: A selects everything, C, X and V ask for the clipboard, and the rest do nothing. */
  lemma ControlKeys(chrome: Chrome, ch: seq<char>, typed: Option<seq<char>>, shift: bool)
    requires chrome.editor.Ok()
    ensures var e, (after, action) := chrome.editor, HandleKey(chrome, Character(ch), typed, true, shift);
            if ch == "a" || ch == "A" then Has(chrome, after, e.text, |e.text|, Some((0, |e.text|))) &&
                action == Handled
            else
              && after == chrome
              && (action == Copy <==> ch == "c" || ch == "C") && (action == Cut <==> ch == "x" || ch == "X")
              && (action == Paste <==> ch == "v" || ch == "V") && (action in {Copy, Cut, Paste} || action == Ignored)
  {
  }

  /** Escape leaves the text and gives everything else up. */
  lemma EscapeKey(chrome: Chrome, typed: Option<seq<char>>, ctrl: bool, shift: bool)
    requires chrome.editor.Ok()
    ensures HandleKey(chrome, Escape, typed, ctrl, shift) ==
      (Chrome(Editor(chrome.editor.text, chrome.editor.cursor, None), false, [], None, None), Handled)
  {
  }

  /** Down goes from no suggestion to the first, from each to the next, and from the last to none. */
  lemma DownKey(chrome: Chrome, typed: Option<seq<char>>, ctrl: bool, shift: bool)
    requires chrome.editor.Ok()
    ensures var n, (after, action) := |chrome.suggestions|, HandleKey(chrome, ArrowDown, typed, ctrl, shift);
            && after == chrome.(selectedSuggestion := after.selectedSuggestion)
            && (action == Handled <==> n > 0) && (n == 0 ==> after == chrome && action == Ignored)
            && (n > 0 && chrome.selectedSuggestion == None ==> after.selectedSuggestion == Some(0))
            && (forall k | chrome.selectedSuggestion == Some(k) && n > 0 ::
                  after.selectedSuggestion == if k + 1 < n then Some(k + 1) else None)
  {
  }

  /** Up undoes Down and Down undoes Up, wherever in the list of suggestions one is. */
  lemma UpAndDown(chrome: Chrome, typed: Option<seq<char>>, ctrl: bool, shift: bool, down: bool)
    requires chrome.editor.Ok() &&
      (chrome.selectedSuggestion.Some? ==> chrome.selectedSuggestion.value < |chrome.suggestions|)
    ensures var there, back := if down then ArrowDown else ArrowUp, if down then ArrowUp else ArrowDown;
            PerformedAll(chrome, [Press(there, typed, ctrl, shift)] + [Press(back, typed, ctrl, shift)]) == chrome
  {
    var there, back := if down then ArrowDown else ArrowUp, if down then ArrowUp else ArrowDown;
    TwoCommands(chrome, Press(there, typed, ctrl, shift), Press(back, typed, ctrl, shift));
    CyclesBack(chrome, down);
    if chrome.suggestions != [] {
      assert Performed(chrome, Press(there, typed, ctrl, shift)) == chrome.Cycled(down);
    }
  }

  lemma CyclesBack(chrome: Chrome, down: bool)
    requires chrome.selectedSuggestion.Some? ==> chrome.selectedSuggestion.value < |chrome.suggestions|
    ensures chrome.suggestions != [] ==> chrome.Cycled(down).Cycled(!down) == chrome
  {
  }

  // ---- Enter ----

  /** White space of Unicode, by code point. */
  ghost predicate IsBlank(c: char) {
    var u := c as int;
    || 0x09 <= u <= 0x0D || u == 0x20 || u == 0x85 || u == 0xA0 || u == 0x1680 || 0x2000 <= u <= 0x200A
    || 0x2028 <= u <= 0x2029 || u == 0x202F || u == 0x205F || u == 0x3000
  }

  /** The text from i up to j is what is left when blanks are taken off both ends. */
  ghost predicate TrimsTo(text: seq<char>, i: nat, j: nat) {
    && i <= j <= |text|
    && (forall k | 0 <= k < i :: IsBlank(text[k])) && (forall k | j <= k < |text| :: IsBlank(text[k]))
    && (i < j ==> !IsBlank(text[i]) && !IsBlank(text[j - 1]))
  }

  lemma BlankIsWhitespace(c: char)
    ensures IsBlank(c) <==> IsWhitespace(c)
  {
  }

  lemma {:induction false} TrimIsExact(text: seq<char>) returns (i: nat, j: nat)
    ensures TrimsTo(text, i, j) && Trim(text) == text[i..j]
  {
    if text == [] {
      i, j := 0, 0;
    } else if IsWhitespace(text[0]) {
      BlankIsWhitespace(text[0]);
      i, j := TrimIsExact(text[1..]);
      TrimsAtTheFront(text, i, j);
      i, j := i + 1, j + 1;
    } else if IsWhitespace(text[|text| - 1]) {
      BlankIsWhitespace(text[|text| - 1]);
      i, j := TrimIsExact(text[..|text| - 1]);
      TrimsAtTheBack(text, i, j);
    } else {
      i, j := 0, |text|;
      NothingToTrim(text);
    }
  }

  lemma NothingToTrim(text: seq<char>)
    requires text != [] && !IsWhitespace(text[0]) && !IsWhitespace(text[|text| - 1])
    ensures TrimsTo(text, 0, |text|) && Trim(text) == text[0..|text|]
  {
    BlankIsWhitespace(text[0]);
    BlankIsWhitespace(text[|text| - 1]);
  }

  lemma TrimsAtTheFront(text: seq<char>, i: nat, j: nat)
    requires text != [] && IsBlank(text[0]) && TrimsTo(text[1..], i, j)
    ensures TrimsTo(text, i + 1, j + 1) && text[1..][i..j] == text[i + 1..j + 1]
  {
    assert forall k | 1 <= k < |text| :: text[k] == text[1..][k - 1];
  }

  lemma TrimsAtTheBack(text: seq<char>, i: nat, j: nat)
    requires text != [] && IsBlank(text[|text| - 1]) && TrimsTo(text[..|text| - 1], i, j)
    ensures TrimsTo(text, i, j) && text[..|text| - 1][i..j] == text[i..j]
  {
    assert forall k | 0 <= k < |text| - 1 :: text[k] == text[..|text| - 1][k];
  }

  /** A part occurs in a text. */
  ghost predicate Occurs(text: seq<char>, part: seq<char>) {
    exists i :: 0 <= i <= |text| && part <= text[i..]
  }

  lemma {:induction false} ContainsIsExact(text: seq<char>, part: seq<char>)
    ensures Contains(text, part) <==> Occurs(text, part)
  {
    assert text[0..] == text;
    if text != [] {
      ContainsIsExact(text[1..], part);
      if i :| 0 <= i <= |text[1..]| && part <= text[1..][i..] {
        assert text[i + 1..] == text[1..][i..];
      }
      if i :| 0 <= i <= |text| && part <= text[i..] && i > 0 {
        assert text[i..] == text[1..][i - 1..];
      }
    }
  }

  /** What Enter takes as typed: the suggestion chosen, the text completed, or the text without blanks around it. */
  ghost predicate IsTarget(chrome: Chrome, target: seq<char>) {
    var text, chosen := chrome.editor.text, chrome.selectedSuggestion;
    if chosen.Some? && chosen.value < |chrome.suggestions| then target == chrome.suggestions[chosen.value]
    else if chosen.None? && chrome.inlineCompletion.Some? then target == text + chrome.inlineCompletion.value
    else exists i: nat, j: nat :: TrimsTo(text, i, j) && target == text[i..j]
  }

  /** It has a scheme, or is an internal page. */
  ghost predicate HasScheme(target: seq<char>) {
    Occurs(target, "://") || "about:" <= target
  }

  /** Enter navigates there, with the default scheme only where there is none, and shows it in a closed bar. */
  lemma EnterKey(chrome: Chrome, typed: Option<seq<char>>, ctrl: bool, shift: bool) returns (target: seq<char>)
    requires chrome.editor.Ok()
    ensures IsTarget(chrome, target)
    ensures var url := if target == [] || HasScheme(target) then target else "mizu://" + target;
            HandleKey(chrome, Enter, typed, ctrl, shift) ==
              (Chrome(Editor(url, |url|, None), false, [], None, None), Navigate(url))
  {
    var i, j := TrimIsExact(chrome.editor.text);
    target := match (chrome.selectedSuggestion, chrome.inlineCompletion)
      case (Some(k), _) => if k < |chrome.suggestions| then chrome.suggestions[k] else Trim(chrome.editor.text)
      case (None, Some(suffix)) => chrome.editor.text + suffix
      case (None, None) => Trim(chrome.editor.text);
    ContainsIsExact(target, "://");
  }

  // ---- Selecting a word ----

  /** The characters that end a word. */
  ghost predicate EndsWord(c: char) {
    c in {' ', '/', '.', ':', '?', '&', '=', '-'}
  }

  /**
   * A word selection: the longest run without a separator around the cursor, or the separator under it
   * when there is no such run, and the cursor goes to its end.
   */
  lemma WordSelection(chrome: Chrome)
    requires chrome.editor.Ok() && chrome.editor.text != []
    ensures var e, after := chrome.editor, Performed(chrome, SelectWord);
            var text, c := e.text, e.cursor;
            && after.editor.selection.Some?
            && var (lo, hi) := after.editor.selection.value;
               && Has(chrome, after, text, hi, Some((lo, hi))) && lo <= c <= hi <= |text|
               && (lo < hi && !EndsWord(text[lo]) ==>
                     && (forall k | lo <= k < hi :: !EndsWord(text[k]))
                     && (lo == 0 || EndsWord(text[lo - 1])) && (hi == |text| || EndsWord(text[hi])))
               && (lo < hi && EndsWord(text[lo]) ==> lo == c && hi == c + 1 && (c == 0 || EndsWord(text[c - 1])))
               && (lo == hi ==> c == |text| && EndsWord(text[c - 1]))
  {
  }

  // ---- Commands other than keys ----

  /** Keys that edit or move are handled, always. */
  lemma EditingKeysAreHandled(chrome: Chrome, key: Key, typed: Option<seq<char>>, ctrl: bool, shift: bool)
    requires chrome.editor.Ok()
    requires key.Backspace? || key.Delete? || key.ArrowLeft? || key.ArrowRight? || key.Home? || key.End?
    ensures HandleKey(chrome, key, typed, ctrl, shift).1 == Handled
  {
  }

  /** Cutting takes out the selection and does nothing without one. */
  lemma Cutting(chrome: Chrome, lo: nat, hi: nat)
    requires chrome.editor.Ok() && (IsSelected(chrome.editor, lo, hi) || NothingSelected(chrome.editor))
    ensures var text := chrome.editor.text;
            if NothingSelected(chrome.editor) then Performed(chrome, CutSelection) == chrome
            else Has(chrome, Performed(chrome, CutSelection), text[..lo] + text[hi..], lo, None)
  {
  }

  /** Pasting puts the stripped text in the place of the selection, with the cursor after it. */
  lemma Pasting(chrome: Chrome, pasted: seq<char>, lo: nat, hi: nat)
    requires chrome.editor.Ok()
    requires IsSelected(chrome.editor, lo, hi) || (NothingSelected(chrome.editor) && lo == hi == chrome.editor.cursor)
    ensures var text, chars := chrome.editor.text, StripBidiOverrides(pasted);
            Has(chrome, Performed(chrome, PasteClipboard(pasted)), text[..lo] + chars + text[hi..], lo + |chars|, None)
  {
    var e := chrome.editor;
    if lo < hi {
      assert e.Dropped().text[..lo] == e.text[..lo] && e.Dropped().text[lo..] == e.text[hi..];
    }
  }

  /**
   * Displaying replaces the text and forgets the completion; pointing moves the cursor, with or
   * without the selection.
   */
  lemma DisplayingAndPointing(chrome: Chrome, text: seq<char>, i: nat, extend: bool)
    requires chrome.editor.Ok() && i <= |chrome.editor.text|
    ensures Performed(chrome, Display(text)) == chrome.(editor := Editor(text, |text|, None), inlineCompletion := None)
    ensures var e := chrome.editor;
            var anchor := if e.selection.Some? then e.selection.value.0 else e.cursor;
            Has(chrome, Performed(chrome, Point(i, extend)), e.text, i, if extend then Some((anchor, i)) else None)
  {
  }

  /** What is copied or cut is exactly what is selected, if anything is. */
  lemma Copying(e: Editor, lo: nat, hi: nat)
    requires e.Ok()
    ensures IsSelected(e, lo, hi) ==> e.Selected() == Some(e.text[lo..hi])
    ensures NothingSelected(e) ==> e.Selected() == None
  {
  }
}
