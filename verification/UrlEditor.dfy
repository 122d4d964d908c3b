/** The URL bar as a user sees it: an editor over a list of characters with an index cursor. */
module CharEditor {
  import opened Wrappers

  datatype Editor = Editor(text: seq<char>, cursor: nat, selection: Option<(nat, nat)>) {
    /** The cursor and both ends of the selection lie within the text. */
    predicate Ok() {
      cursor <= |text| && (selection.Some? ==> selection.value.0 <= |text| && selection.value.1 <= |text|)
    }

    /** The ends of the selection in order; both the cursor when there is none. */
    function Range(): (nat, nat) {
      match selection
      case None => (cursor, cursor)
      case Some((a, b)) => if a <= b then (a, b) else (b, a)
    }

    /** The fixed end when a selection is extended. */
    function Anchor(): nat {
      if selection.Some? then selection.value.0 else cursor
    }

    /** Without the selected characters, if any. */
    function Dropped(): (e: Editor)
      requires Ok()
      ensures e.Ok()
    {
      var (lo, hi) := Range();
      if lo < hi then Editor(text[..lo] + text[hi..], lo, None) else this
    }

    function Insert(typed: seq<char>): (e: Editor)
      requires Ok()
      ensures e.Ok()
    {
      var chars := StripBidiOverrides(typed);
      var e := Dropped();
      Editor(e.text[..e.cursor] + chars + e.text[e.cursor..], e.cursor + |chars|, None)
    }

    function DeleteBackward(): (e: Editor)
      requires Ok()
      ensures e.Ok()
    {
      var (lo, hi) := Range();
      if lo < hi then Dropped()
      else if cursor == 0 then this.(selection := None)
      else Editor(text[..cursor - 1] + text[cursor..], cursor - 1, None)
    }

    function DeleteForward(): (e: Editor)
      requires Ok()
      ensures e.Ok()
    {
      var (lo, hi) := Range();
      if lo < hi then Dropped()
      else if cursor == |text| then this.(selection := None)
      else Editor(text[..cursor] + text[cursor + 1..], cursor, None)
    }

    /** Puts the cursor at i, dragging the selection along when extending it. */
    function MoveTo(i: nat, extend: bool): Editor {
      Editor(text, i, if extend then Some((Anchor(), i)) else None)
    }

    function MoveLeft(extend: bool): (e: Editor)
      requires Ok()
      ensures e.Ok()
    {
      if !extend && selection.Some? then MoveTo(Range().0, false)
      else MoveTo(if cursor == 0 then 0 else cursor - 1, extend)
    }

    function MoveRight(extend: bool): (e: Editor)
      requires Ok()
      ensures e.Ok()
    {
      if !extend && selection.Some? then MoveTo(Range().1, false)
      else MoveTo(if cursor == |text| then |text| else cursor + 1, extend)
    }

    function SelectAll(): (e: Editor)
      ensures e.Ok()
    {
      Editor(text, |text|, Some((0, |text|)))
    }

    function SelectWord(): (e: Editor)
      requires Ok()
      ensures e.Ok()
    {
      if text == [] then this else
      var (lo, hi) := (WordStart(text, cursor), WordEnd(text, cursor));
      if lo == hi && cursor < |text| then Editor(text, cursor + 1, Some((cursor, cursor + 1)))
      else Editor(text, hi, Some((lo, hi)))
    }

    /** The selected characters, if any. */
    function Selected(): Option<seq<char>>
      requires Ok()
    {
      var (lo, hi) := Range();
      if selection.None? || lo == hi then None else Some(text[lo..hi])
    }
  }

  /** Bidi embedding and override controls, and isolates. */
  predicate IsBidiOverrideOrIsolate(c: char) {
    0x202A <= c as int <= 0x202E || 0x2066 <= c as int <= 0x2069
  }

  /** The text holds none of them. */
  predicate IsPlain(text: seq<char>) {
    forall c <- text :: !IsBidiOverrideOrIsolate(c)
  }

  function StripBidiOverrides(text: seq<char>): (r: seq<char>)
    ensures IsPlain(r)
    ensures IsPlain(text) ==> r == text
  {
    if text == [] then []
    else if IsBidiOverrideOrIsolate(text[0]) then StripBidiOverrides(text[1..])
    else [text[0]] + StripBidiOverrides(text[1..])
  }

  predicate IsSeparator(c: char) {
    c in " /.:?&=-"
  }

  /** The start of the run of non-separators that ends at i. */
  function WordStart(text: seq<char>, i: nat): (lo: nat)
    requires i <= |text|
    ensures lo <= i && (lo == 0 || IsSeparator(text[lo - 1])) && forall k | lo <= k < i :: !IsSeparator(text[k])
  {
    if i == 0 || IsSeparator(text[i - 1]) then i else WordStart(text, i - 1)
  }

  /** The end of the run of non-separators that starts at i. */
  function WordEnd(text: seq<char>, i: nat): (hi: nat)
    requires i <= |text|
    ensures i <= hi <= |text| && (hi == |text| || IsSeparator(text[hi])) &&
      forall k | i <= k < hi :: !IsSeparator(text[k])
    decreases |text| - i
  {
    if i == |text| || IsSeparator(text[i]) then i else WordEnd(text, i + 1)
  }

  /** Unicode's White_Space property. */
  predicate IsWhitespace(c: char) {
    var u := c as int;
    9 <= u <= 13 || u == 0x20 || u == 0x85 || u == 0xA0 || u == 0x1680 || 0x2000 <= u <= 0x200A ||
    u == 0x2028 || u == 0x2029 || u == 0x202F || u == 0x205F || u == 0x3000
  }

  function Trim(text: seq<char>): (r: seq<char>)
    ensures r != [] ==> !IsWhitespace(r[0]) && !IsWhitespace(r[|r| - 1])
  {
    if text == [] then []
    else if IsWhitespace(text[0]) then Trim(text[1..])
    else if IsWhitespace(text[|text| - 1]) then Trim(text[..|text| - 1])
    else text
  }

  /** Category Cc. */
  predicate IsControl(c: char) {
    c as int < 0x20 || 0x7F <= c as int < 0xA0
  }

  function WithoutControls(text: seq<char>): (r: seq<char>)
    ensures forall c <- r :: !IsControl(c)
  {
    if text == [] then []
    else if IsControl(text[0]) then WithoutControls(text[1..])
    else [text[0]] + WithoutControls(text[1..])
  }

  predicate Contains(text: seq<char>, part: seq<char>) {
    part <= text || (text != [] && Contains(text[1..], part))
  }

  // ---- The bar around the editor ----

  datatype Chrome = Chrome(editor: Editor, focused: bool, suggestions: seq<seq<char>>, selectedSuggestion: Option<nat>,
                           inlineCompletion: Option<seq<char>>)
  {
    /** What Enter navigates to. */
    function Target(): seq<char> {
      var typed :=
        match (selectedSuggestion, inlineCompletion)
        case (Some(k), _) => if k < |suggestions| then suggestions[k] else Trim(editor.text)
        case (None, Some(suffix)) => editor.text + suffix
        case (None, None) => Trim(editor.text);
      if typed != [] && !Contains(typed, "://") && !("about:" <= typed) then "mizu://" + typed else typed
    }

    function Closed(): Chrome {
      this.(focused := false, suggestions := [], selectedSuggestion := None, inlineCompletion := None)
    }

    /** The suggestion after (or before) the selected one, going through "none" at the ends. */
    function Cycled(down: bool): Chrome {
      var n := |suggestions|;
      this.(selectedSuggestion :=
              match selectedSuggestion
              case None => Some(if down || n == 0 then 0 else n - 1)
              case Some(k) => if down then (if k + 1 < n then Some(k + 1) else None)
                              else (if k > 0 then Some(k - 1) else None))
    }
  }

  datatype Key = Enter | Escape | ArrowUp | ArrowDown | Backspace | Delete | ArrowLeft | ArrowRight | Home | End
               | Character(ch: seq<char>) | OtherNamed

  datatype KeyAction = Navigate(url: seq<char>) | Copy | Cut | Paste | Handled | Ignored

  function Edited(chrome: Chrome, editor: Editor): (Chrome, KeyAction) {
    (chrome.(editor := editor), Handled)
  }

  /** A printable key: its text without control characters. */
  function TypeText(chrome: Chrome, typed: Option<seq<char>>): (r: (Chrome, KeyAction))
    requires chrome.editor.Ok()
    ensures r.0.editor.Ok()
  {
    if typed.Some? && WithoutControls(typed.value) != []
    then Edited(chrome, chrome.editor.Insert(WithoutControls(typed.value)))
    else (chrome, Ignored)
  }

  /** What a key does to the bar. */
  function HandleKey(
    chrome: Chrome, key: Key, typed: Option<seq<char>>, ctrl: bool, shift: bool): (r: (Chrome, KeyAction))
    requires chrome.editor.Ok()
    ensures r.0.editor.Ok()
  {
    var e := chrome.editor;
    match key
    case Enter =>
      var url := chrome.Target();
      (chrome.(editor := Editor(url, |url|, None)).Closed(), Navigate(url))
    case Escape => (chrome.(editor := e.(selection := None)).Closed(), Handled)
    case ArrowUp => if chrome.suggestions == [] then (chrome, Ignored) else (chrome.Cycled(false), Handled)
    case ArrowDown => if chrome.suggestions == [] then (chrome, Ignored) else (chrome.Cycled(true), Handled)
    case Backspace => Edited(chrome, e.DeleteBackward())
    case Delete => Edited(chrome, e.DeleteForward())
    case ArrowLeft => Edited(chrome, e.MoveLeft(shift))
    case ArrowRight => Edited(chrome, e.MoveRight(shift))
    case Home => Edited(chrome, e.MoveTo(0, shift))
    case End => Edited(chrome, e.MoveTo(|e.text|, shift))
    case OtherNamed => TypeText(chrome, typed)
    case Character(ch) =>
      if !ctrl then TypeText(chrome, typed)
      else if ch in ["a", "A"] then Edited(chrome, e.SelectAll())
      else (chrome, if ch in ["c", "C"] then Copy else if ch in ["x", "X"] then Cut
          else if ch in ["v", "V"] then Paste else Ignored)
  }

  // ---- Laws of the editor ----

  lemma BackspaceAfter(text: seq<char>, i: nat, c: char)
    requires i <= |text|
    ensures Editor(text[..i] + [c] + text[i..], i + 1, None).DeleteBackward() == Editor(text, i, None)
  {
    var typed := text[..i] + [c] + text[i..];
    assert typed[..i] == text[..i] && typed[i + 1..] == text[i..];
    assert text == text[..i] + text[i..];
  }

  /** Stripping keeps every other character, in order: it goes through a text character by character. */
  lemma {:induction false} StripJoins(a: seq<char>, b: seq<char>)
    ensures StripBidiOverrides(a + b) == StripBidiOverrides(a) + StripBidiOverrides(b)
  {
    if a == [] {
      assert a + b == b;
    } else {
      var rest, tail := StripBidiOverrides(a[1..]), StripBidiOverrides(b);
      assert (a + b)[0] == a[0] && (a + b)[1..] == a[1..] + b;
      assert [a[0]] + (rest + tail) == ([a[0]] + rest) + tail;
      StripJoins(a[1..], b);
    }
  }

  /** It shortens every text that is not plain. */
  lemma {:induction false} StripShortens(text: seq<char>)
    ensures |StripBidiOverrides(text)| <= |text|
    ensures |StripBidiOverrides(text)| == |text| <==> IsPlain(text)
  {
    if text != [] {
      StripShortens(text[1..]);
      assert IsPlain(text) <==> !IsBidiOverrideOrIsolate(text[0]) && IsPlain(text[1..]);
    }
  }

  /**
   * Typing one character and deleting it backwards is no change but for the selection it replaced;
   * a control that is not let in leaves the deletion to the character before.
   */
  lemma TypeThenBackspace(e: Editor, c: char)
    requires e.Ok()
    ensures var d := e.Dropped().(selection := None);
            e.Insert([c]).DeleteBackward() == if IsBidiOverrideOrIsolate(c) then d.DeleteBackward() else d
  {
    var d := e.Dropped();
    if IsBidiOverrideOrIsolate(c) {
      assert StripBidiOverrides([c]) == [];
      assert d.text[..d.cursor] + [] + d.text[d.cursor..] == d.text;
    } else {
      assert StripBidiOverrides([c]) == [c];
      BackspaceAfter(d.text, d.cursor, c);
    }
  }

  /** Cutting and pasting back strips what was selected, so it restores the text exactly when that was plain. */
  lemma CutThenPaste(e: Editor)
    requires e.Ok() && e.Selected().Some?
    ensures var (lo, hi) := e.Range();
            var pasted := e.DeleteBackward().Insert(e.Selected().value);
            && pasted.text == e.text[..lo] + StripBidiOverrides(e.text[lo..hi]) + e.text[hi..]
            && (pasted.text == e.text <==> IsPlain(e.text[lo..hi]))
  {
    var (lo, hi) := e.Range();
    var cut, chars := e.DeleteBackward(), StripBidiOverrides(e.text[lo..hi]);
    assert cut == Editor(e.text[..lo] + e.text[hi..], lo, None);
    assert cut.text[..lo] == e.text[..lo] && cut.text[lo..] == e.text[hi..];
    assert e.text == e.text[..lo] + e.text[lo..hi] + e.text[hi..];
    StripShortens(e.text[lo..hi]);
    var pasted := e.DeleteBackward().Insert(e.Selected().value);
    assert |pasted.text| == |e.text| - (hi - lo) + |chars|;
  }
}
