/** The URL bar as it is built: byte offsets into UTF-8 text. */
module ChromeBar {
  import opened Wrappers
  import opened Utf8
  import opened CharEditor

  // ---- String operations; each panics off a character boundary, so each requires one ----

  /** `replace_range` with an empty replacement, the only way the bar calls it. */
  function DeleteRange(s: seq<Byte>, lo: nat, hi: nat): seq<Byte>
    requires lo <= hi <= |s| && IsCharBoundary(s, lo) && IsCharBoundary(s, hi)
  {
    s[..lo] + s[hi..]
  }

  function InsertStr(s: seq<Byte>, at: nat, text: seq<Byte>): seq<Byte>
    requires at <= |s| && IsCharBoundary(s, at)
  {
    s[..at] + text + s[at..]
  }

  /** Removes the character that starts at an offset. */
  function RemoveChar(s: seq<Byte>, at: nat): seq<Byte>
    requires at < |s| && IsCharBoundary(s, at) && DecodeFirst(s[at..]).Some?
    requires at + |EncodeChar(DecodeFirst(s[at..]).value)| <= |s|
  {
    s[..at] + s[at + |EncodeChar(DecodeFirst(s[at..]).value)|..]
  }

  /** Deleting between character offsets is deleting those characters. */
  lemma DeleteRefines(text: seq<char>, i: nat, j: nat)
    requires i <= j <= |text|
    ensures OffsetOf(text, i) <= OffsetOf(text, j) <= |Encode(text)|
    ensures IsCharBoundary(Encode(text), OffsetOf(text, i)) && IsCharBoundary(Encode(text), OffsetOf(text, j))
    ensures DeleteRange(Encode(text), OffsetOf(text, i), OffsetOf(text, j)) == Encode(text[..i] + text[j..])
    ensures OffsetOf(text[..i] + text[j..], i) == OffsetOf(text, i)
  {
    OffsetIsBoundary(text, i);
    OffsetIsBoundary(text, j);
    OffsetSplits(text, i);
    OffsetSplits(text, j);
    if i < j {
      OffsetMonotone(text, i, j);
    }
    EncodeConcat(text[..i], text[j..]);
    assert (text[..i] + text[j..])[..i] == text[..i];
  }

  /** Inserting at a character offset is inserting characters there. */
  lemma InsertRefines(text: seq<char>, i: nat, chars: seq<char>)
    requires i <= |text|
    ensures OffsetOf(text, i) <= |Encode(text)| && IsCharBoundary(Encode(text), OffsetOf(text, i))
    ensures InsertStr(Encode(text), OffsetOf(text, i), Encode(chars)) == Encode(text[..i] + chars + text[i..])
    ensures OffsetOf(text[..i] + chars + text[i..], i + |chars|) == OffsetOf(text, i) + |Encode(chars)|
  {
    OffsetIsBoundary(text, i);
    OffsetSplits(text, i);
    EncodeConcat(text[..i] + chars, text[i..]);
    EncodeConcat(text[..i], chars);
    assert (text[..i] + chars + text[i..])[..i + |chars|] == text[..i] + chars;
  }

  /** Only the first character is at offset 0, and only the end is at the last one. */
  lemma EndOffsets(text: seq<char>, i: nat)
    requires i <= |text|
    ensures OffsetOf(text, i) == 0 <==> i == 0
    ensures OffsetOf(text, i) == |Encode(text)| <==> i == |text|
  {
    OffsetEnds(text);
    if 0 < i {
      OffsetMonotone(text, 0, i);
    }
    if i < |text| {
      OffsetMonotone(text, i, |text|);
    }
  }

  /** A selection in bytes stands for one in characters. */
  ghost predicate SelectionRefines(bytes: Option<(nat, nat)>, text: seq<char>, chars: Option<(nat, nat)>) {
    match (bytes, chars)
    case (None, None) => true
    case (Some((a, b)), Some((i, j))) => i <= |text| && j <= |text| && a == OffsetOf(text, i) && b == OffsetOf(text, j)
    case _ => false
  }

  /** Everything that can be done to the bar; `Point` is a mouse click or drag to a character. */
  datatype Command =
    | Press(key: Key, typed: Option<seq<char>>, ctrl: bool, shift: bool)
    | Display(text: seq<char>)
    | SelectWord
    | CutSelection
    | PasteClipboard(text: seq<char>)
    | Point(i: nat, extend: bool)
    | Suggest(list: seq<seq<char>>, completion: Option<seq<char>>)

  /** What a command does to the character-level bar. */
  function Performed(chrome: Chrome, command: Command): (r: Chrome)
    requires chrome.editor.Ok()
    ensures r.editor.Ok()
  {
    var e := chrome.editor;
    match command
    case Press(key, typed, ctrl, shift) => CharEditor.HandleKey(chrome, key, typed, ctrl, shift).0
    case Display(text) => chrome.(editor := Editor(text, |text|, None), inlineCompletion := None)
    case SelectWord => chrome.(editor := e.SelectWord())
    case CutSelection => if e.Selected().None? then chrome else chrome.(editor := e.DeleteBackward())
    case PasteClipboard(text) => chrome.(editor := e.Insert(text))
    case Point(i, extend) => chrome.(editor := e.MoveTo(if i <= |e.text| then i else |e.text|, extend))
    case Suggest(list, completion) => chrome.(suggestions := list, selectedSuggestion := None,
        inlineCompletion := completion)
  }

  function PerformedAll(chrome: Chrome, commands: seq<Command>): (r: Chrome)
    requires chrome.editor.Ok()
    ensures r.editor.Ok()
  {
    if commands == [] then chrome
    else Performed(PerformedAll(chrome, commands[..|commands| - 1]), commands[|commands| - 1])
  }

  class ChromeState {
    var url: seq<Byte>
    var cursor: nat
    var selection: Option<(nat, nat)>
    var focused: bool
    var suggestions: seq<seq<char>>
    var selectedSuggestion: Option<nat>
    var inlineCompletion: Option<seq<char>>

    /** The character-level bar that this one behaves as. */
    ghost var model: Chrome

    /** The text is the encoding of the model's, and every offset is that of a character. */
    ghost predicate Valid()
      reads this
    {
      && model.editor.Ok()
      && url == Encode(model.editor.text)
      && cursor == OffsetOf(model.editor.text, model.editor.cursor)
      && SelectionRefines(selection, model.editor.text, model.editor.selection)
      && focused == model.focused && suggestions == model.suggestions
      && selectedSuggestion == model.selectedSuggestion && inlineCompletion == model.inlineCompletion
    }

    /** No slice or replacement at the cursor or at an end of the selection can fail. */
    lemma OffsetsAreBoundaries()
      requires Valid()
      ensures cursor <= |url| && IsCharBoundary(url, cursor)
      ensures selection.Some? ==>
        && selection.value.0 <= |url| && IsCharBoundary(url, selection.value.0)
        && selection.value.1 <= |url| && IsCharBoundary(url, selection.value.1)
    {
      OffsetIsBoundary(model.editor.text, model.editor.cursor);
      if selection.Some? {
        OffsetIsBoundary(model.editor.text, model.editor.selection.value.0);
        OffsetIsBoundary(model.editor.text, model.editor.selection.value.1);
      }
    }

    constructor ()
      ensures Valid() && model == Chrome(Editor([], 0, None), false, [], None, None)
    {
      url, cursor, selection := [], 0, None;
      focused, suggestions, selectedSuggestion, inlineCompletion := false, [], None, None;
      model := Chrome(Editor([], 0, None), false, [], None, None);
    }

    method SetDisplayedUrl(text: seq<char>)
      requires Valid()
      modifies this
      ensures Valid()
      ensures model == old(model).(editor := Editor(text, |text|, None), inlineCompletion := None)
    {
      url := Encode(text);
      cursor := |url|;
      selection := None;
      inlineCompletion := None;
      model := model.(editor := Editor(text, |text|, None), inlineCompletion := None);
      OffsetEnds(text);
    }

    /** The ends of the selection in order. */
    method SelectionRange() returns (range: Option<(nat, nat)>)
      requires Valid()
      ensures range.Some? <==> model.editor.selection.Some?
      ensures range.Some? ==>
        var (i, j) := model.editor.Range();
        i <= j <= |model.editor.text| && range.value == (OffsetOf(model.editor.text, i), OffsetOf(model.editor.text, j))
      ensures range.Some? ==> (range.value.0 < range.value.1 <==> model.editor.Range().0 < model.editor.Range().1)
    {
      range := None;
      if selection.Some? {
        var (a, b) := selection.value;
        range := Some(if a <= b then (a, b) else (b, a));
        ghost var (i, j) := model.editor.selection.value;
        if i < j {
          OffsetMonotone(model.editor.text, i, j);
        } else if j < i {
          OffsetMonotone(model.editor.text, j, i);
        }
      }
    }

    method SelectedText() returns (text: Option<seq<Byte>>)
      requires Valid()
      ensures match model.editor.Selected()
              case None => text == None
              case Some(chars) => text == Some(Encode(chars))
    {
      var range := SelectionRange();
      if range.None? || range.value.0 == range.value.1 {
        return None;
      }
      var (lo, hi) := range.value;
      ghost var (i, j) := model.editor.Range();
      OffsetSplits(model.editor.text, i);
      OffsetSplits(model.editor.text, j);
      OffsetIsBoundary(model.editor.text, i);
      OffsetIsBoundary(model.editor.text, j);
      OffsetSplits(model.editor.text[..j], i);
      assert model.editor.text[..j][..i] == model.editor.text[..i];
      assert model.editor.text[..j][i..] == model.editor.text[i..j];
      assert url[lo..hi] == url[..hi][lo..];
      text := if IsCharBoundary(url, lo) && IsCharBoundary(url, hi) then Some(url[lo..hi]) else None;
    }

    /** The offset of the character before the cursor's. */
    method PrevCharBoundary(from: nat, ghost i: nat) returns (o: nat)
      requires Valid() && i <= |model.editor.text| && from == OffsetOf(model.editor.text, i)
      ensures o == OffsetOf(model.editor.text, if i == 0 then 0 else i - 1)
    {
      ghost var text := model.editor.text;
      EndOffsets(text, i);
      if from == 0 {
        return 0;
      }
      OffsetIsBoundary(text, i);
      OffsetIsBoundary(text, i - 1);
      EncodeAround(text, i - 1);
      o := from - 1;
      while o > 0 && !IsCharBoundary(url, o)
        invariant OffsetOf(text, i - 1) <= o < from
      {
        o := o - 1;
      }
      OnlyBoundaryBetween(text, i - 1, o);
    }

    /** The offset of the character after the cursor's. */
    method NextCharBoundary(from: nat, ghost i: nat) returns (o: nat)
      requires Valid() && i <= |model.editor.text| && from == OffsetOf(model.editor.text, i)
      ensures o == OffsetOf(model.editor.text, if i == |model.editor.text| then i else i + 1)
    {
      ghost var text := model.editor.text;
      EndOffsets(text, i);
      OffsetIsBoundary(text, i);
      if from >= |url| {
        return |url|;
      }
      EncodeAround(text, i);
      OffsetIsBoundary(text, i + 1);
      o := from + 1;
      while o < |url| && !IsCharBoundary(url, o)
        invariant from < o <= OffsetOf(text, i + 1)
      {
        o := o + 1;
      }
      if o < OffsetOf(text, i + 1) {
        OnlyBoundaryBetween(text, i, o);
      }
    }

    // ---- Editing ----

    /** Deletes the selected text, if any. */
    method DeleteSelection() returns (deleted: bool)
      requires Valid()
      modifies this
      ensures Valid()
      ensures deleted == (old(model).editor.Range().0 < old(model).editor.Range().1)
      ensures model == old(model).(editor := old(model).editor.Dropped())
    {
      var range := SelectionRange();
      deleted := range.Some? && range.value.0 < range.value.1;
      if deleted {
        var (lo, hi) := range.value;
        ghost var (i, j) := model.editor.Range();
        DeleteRefines(model.editor.text, i, j);
        url := DeleteRange(url, lo, hi);
        cursor := lo;
        selection := None;
        model := model.(editor := model.editor.Dropped());
      }
    }

    /** Inserts at the cursor. */
    method InsertHere(text: seq<char>)
      requires Valid()
      modifies this
      ensures Valid()
      ensures var e := old(model).editor;
              model == old(model).(editor := Editor(e.text[..e.cursor] + text + e.text[e.cursor..], e.cursor + |text|,
                  None))
    {
      ghost var (chars, c) := (model.editor.text, model.editor.cursor);
      ghost var longer := chars[..c] + text + chars[c..];
      InsertRefines(chars, c, text);
      var at := if cursor <= |url| then cursor else |url|;
      url := InsertStr(url, at, Encode(text));
      cursor := at + |Encode(text)|;
      assert url == Encode(longer) && cursor == OffsetOf(longer, c + |text|);
      selection := None;
      model := model.(editor := Editor(longer, c + |text|, None));
    }

    method InsertText(typed: seq<char>)
      requires Valid()
      modifies this
      ensures Valid() && model == old(model).(editor := old(model).editor.Insert(typed))
    {
      var text := StripBidiOverrides(typed);
      var _ := DeleteSelection();
      InsertHere(text);
    }

    /** The model's selection is gone, and so is the bar's. */
    method ClearSelection()
      requires Valid()
      modifies this
      ensures Valid() && model == old(model).(editor := old(model).editor.(selection := None))
      ensures url == old(url) && cursor == old(cursor)
    {
      selection := None;
      model := model.(editor := model.editor.(selection := None));
    }

    method DeleteBackward()
      requires Valid()
      modifies this
      ensures Valid() && model == old(model).(editor := old(model).editor.DeleteBackward())
    {
      var deleted := DeleteSelection();
      if deleted {
        return;
      }
      ClearSelection();
      CursorEnds();
      if cursor != 0 {
        RemoveBefore();
      }
    }

    /** The cursor is at an end of the text exactly when its offset is. */
    lemma CursorEnds()
      requires Valid()
      ensures cursor == 0 <==> model.editor.cursor == 0
      ensures cursor < |url| <==> model.editor.cursor < |model.editor.text|
    {
      OffsetIsBoundary(model.editor.text, model.editor.cursor);
      EndOffsets(model.editor.text, model.editor.cursor);
    }

    method RemoveBefore()
      requires Valid() && cursor != 0 && selection == None
      modifies this
      ensures Valid()
      ensures var e := old(model).editor;
              && e.cursor > 0
              && model == old(model).(editor := Editor(e.text[..e.cursor - 1] + e.text[e.cursor..], e.cursor - 1, None))
    {
      ghost var (text, c) := (model.editor.text, model.editor.cursor);
      EndOffsets(text, c);
      var prev := PrevCharBoundary(cursor, c);
      CharRemoved(text, c - 1);
      url := RemoveChar(url, prev);
      cursor := prev;
      model := model.(editor := Editor(text[..c - 1] + text[c..], c - 1, None));
    }

    method DeleteForward()
      requires Valid()
      modifies this
      ensures Valid() && model == old(model).(editor := old(model).editor.DeleteForward())
    {
      var deleted := DeleteSelection();
      if deleted {
        return;
      }
      ClearSelection();
      CursorEnds();
      if cursor < |url| {
        RemoveAfter();
      }
    }

    method RemoveAfter()
      requires Valid() && cursor < |url| && selection == None
      modifies this
      ensures Valid()
      ensures var e := old(model).editor;
              && e.cursor < |e.text|
              && model == old(model).(editor := Editor(e.text[..e.cursor] + e.text[e.cursor + 1..], e.cursor, None))
    {
      ghost var (text, c) := (model.editor.text, model.editor.cursor);
      EndOffsets(text, c);
      var next := NextCharBoundary(cursor, c);
      DeleteRefines(text, c, c + 1);
      url := DeleteRange(url, cursor, next);
      model := model.(editor := Editor(text[..c] + text[c + 1..], c, None));
    }

    // ---- Moving and selecting ----

    /** Puts the cursor at the offset of character i. */
    method PlaceAt(offset: nat, extend: bool, ghost i: nat)
      requires Valid() && i <= |model.editor.text| && offset == OffsetOf(model.editor.text, i)
      modifies this
      ensures Valid() && model == old(model).(editor := old(model).editor.MoveTo(i, extend))
    {
      var anchor := if selection.Some? then selection.value.0 else cursor;
      cursor := offset;
      selection := if extend then Some((anchor, offset)) else None;
      model := model.(editor := model.editor.MoveTo(i, extend));
    }

    method MoveLeft(extend: bool)
      requires Valid()
      modifies this
      ensures Valid() && model == old(model).(editor := old(model).editor.MoveLeft(extend))
    {
      var range := SelectionRange();
      if !extend && range.Some? {
        PlaceAt(range.value.0, false, model.editor.Range().0);
      } else {
        var o := PrevCharBoundary(cursor, model.editor.cursor);
        PlaceAt(o, extend, if model.editor.cursor == 0 then 0 else model.editor.cursor - 1);
      }
    }

    method MoveRight(extend: bool)
      requires Valid()
      modifies this
      ensures Valid() && model == old(model).(editor := old(model).editor.MoveRight(extend))
    {
      var range := SelectionRange();
      if !extend && range.Some? {
        PlaceAt(range.value.1, false, model.editor.Range().1);
      } else {
        var o := NextCharBoundary(cursor, model.editor.cursor);
        PlaceAt(o, extend, if model.editor.cursor == |model.editor.text| then |model.editor.text|
            else model.editor.cursor + 1);
      }
    }

    method MoveToStart(extend: bool)
      requires Valid()
      modifies this
      ensures Valid() && model == old(model).(editor := old(model).editor.MoveTo(0, extend))
    {
      OffsetEnds(model.editor.text);
      PlaceAt(0, extend, 0);
    }

    method MoveToEnd(extend: bool)
      requires Valid()
      modifies this
      ensures Valid() && model == old(model).(editor := old(model).editor.MoveTo(|old(model).editor.text|, extend))
    {
      OffsetEnds(model.editor.text);
      PlaceAt(|url|, extend, |model.editor.text|);
    }

    method SelectAll()
      requires Valid()
      modifies this
      ensures Valid() && model == old(model).(editor := old(model).editor.SelectAll())
    {
      OffsetEnds(model.editor.text);
      selection := Some((0, |url|));
      cursor := |url|;
      model := model.(editor := model.editor.SelectAll());
    }

    /** The characters with their offsets. */
    method CharIndices() returns (chars: seq<(nat, char)>)
      requires Valid()
      ensures |chars| == |model.editor.text|
      ensures forall k | 0 <= k < |chars| :: chars[k] == (OffsetOf(model.editor.text, k), model.editor.text[k])
    {
      ghost var text := model.editor.text;
      chars := [];
      var o := 0;
      OffsetEnds(text);
      while o < |url|
        invariant |chars| <= |text| && o == OffsetOf(text, |chars|) <= |url|
        invariant forall k | 0 <= k < |chars| :: chars[k] == (OffsetOf(text, k), text[k])
      {
        EndOffsets(text, |chars|);
        CharRemovable(text, |chars|);
        var c := DecodeFirst(url[o..]).value;
        chars := chars + [(o, c)];
        o := o + |EncodeChar(c)|;
      }
      EndOffsets(text, |chars|);
    }

    /** The number of the character at the cursor: the first whose offset is not below it. */
    method CursorIndex(chars: seq<(nat, char)>) returns (at: nat)
      requires Valid() && |chars| == |model.editor.text|
      requires forall k | 0 <= k < |chars| :: chars[k] == (OffsetOf(model.editor.text, k), model.editor.text[k])
      ensures at == model.editor.cursor
    {
      at := 0;
      while at < |chars| && chars[at].0 < cursor
        invariant at <= model.editor.cursor
      {
        at := at + 1;
      }
      if at < model.editor.cursor {
        OffsetMonotone(model.editor.text, at, model.editor.cursor);
      }
    }

    /** The run of non-separators around a character. */
    method WordAround(chars: seq<(nat, char)>, at: nat) returns (i: nat, j: nat)
      requires at <= |chars| == |model.editor.text|
      requires forall k | 0 <= k < |chars| :: chars[k].1 == model.editor.text[k]
      ensures i == WordStart(model.editor.text, at) && j == WordEnd(model.editor.text, at)
    {
      i := at;
      while i > 0 && !IsSeparator(chars[i - 1].1)
        invariant i <= at && WordStart(model.editor.text, i) == WordStart(model.editor.text, at)
      {
        i := i - 1;
      }
      j := at;
      while j < |chars| && !IsSeparator(chars[j].1)
        invariant at <= j <= |chars| && WordEnd(model.editor.text, j) == WordEnd(model.editor.text, at)
      {
        j := j + 1;
      }
    }

    /** The offsets of a run of characters. */
    method OffsetsOfRun(chars: seq<(nat, char)>, i: nat, j: nat) returns (start: nat, end: nat)
      requires Valid() && i <= j <= |chars| == |model.editor.text|
      requires forall k | 0 <= k < |chars| :: chars[k] == (OffsetOf(model.editor.text, k), model.editor.text[k])
      ensures start == OffsetOf(model.editor.text, i) && end == OffsetOf(model.editor.text, j)
      ensures start == end <==> i == j
    {
      start := if i < |chars| then chars[i].0 else |url|;
      end := if j < |chars| then chars[j].0 else |url|;
      OffsetEnds(model.editor.text);
      if i < j {
        OffsetMonotone(model.editor.text, i, j);
      }
    }

    /** The offsets that a word selection takes: the run around the cursor, or the separator at it. */
    method WordBounds() returns (start: nat, end: nat, ghost i: nat, ghost j: nat)
      requires Valid() && url != []
      ensures i <= |model.editor.text| && j <= |model.editor.text|
      ensures start == OffsetOf(model.editor.text, i) && end == OffsetOf(model.editor.text, j)
      ensures model.editor.SelectWord() == Editor(model.editor.text, j, Some((i, j)))
    {
      var chars := CharIndices();
      var at := CursorIndex(chars);
      var lo, hi := WordAround(chars, at);
      start, end := OffsetsOfRun(chars, lo, hi);
      i, j := lo, hi;
      if start == end && at < |chars| {
        CharRemovable(model.editor.text, at);
        start, end := chars[at].0, chars[at].0 + |EncodeChar(chars[at].1)|;
        i, j := at, at + 1;
      }
    }

    method SelectWordAtCursor()
      requires Valid()
      modifies this
      ensures Valid() && model == old(model).(editor := old(model).editor.SelectWord())
    {
      EndOffsets(model.editor.text, |model.editor.text|);
      if url == [] {
        return;
      }
      ghost var i, j;
      var start, end;
      start, end, i, j := WordBounds();
      SelectRun(start, end, i, j);
    }

    /** Selects from one character to another, with the cursor at the end. */
    method SelectRun(start: nat, end: nat, ghost i: nat, ghost j: nat)
      requires Valid() && i <= |model.editor.text| && j <= |model.editor.text|
      requires start == OffsetOf(model.editor.text, i) && end == OffsetOf(model.editor.text, j)
      modifies this
      ensures Valid() && model == old(model).(editor := Editor(old(model).editor.text, j, Some((i, j))))
    {
      selection := Some((start, end));
      cursor := end;
      model := model.(editor := Editor(model.editor.text, j, Some((i, j))));
    }

    // ---- Clipboard ----

    method CutText() returns (text: Option<seq<Byte>>)
      requires Valid()
      modifies this
      ensures Valid()
      ensures match old(model).editor.Selected()
              case None => text == None && model == old(model)
              case Some(chars) =>
                text == Some(Encode(chars)) && model == old(model).(editor := old(model).editor.DeleteBackward())
    {
      text := SelectedText();
      if text.Some? {
        DeleteBackward();
      }
    }

    method PasteText(text: seq<char>)
      requires Valid()
      modifies this
      ensures Valid() && model == old(model).(editor := old(model).editor.Insert(text))
    {
      InsertText(text);
    }

    // ---- Keyboard ----

    /** The text of the bar, decoded. */
    method Text() returns (text: seq<char>)
      requires Valid()
      ensures text == model.editor.text
    {
      var chars := CharIndices();
      text := seq(|chars|, k requires 0 <= k < |chars| => chars[k].1);
    }

    /** What Enter navigates to. */
    method EnterTarget() returns (target: seq<char>)
      requires Valid()
      ensures target == model.Target()
    {
      var text := Text();
      if selectedSuggestion.Some? {
        target := if selectedSuggestion.value < |suggestions| then suggestions[selectedSuggestion.value]
            else Trim(text);
      } else if inlineCompletion.Some? {
        target := text + inlineCompletion.value;
      } else {
        target := Trim(text);
      }
      if target != [] && !Contains(target, "://") && !("about:" <= target) {
        target := "mizu://" + target;
      }
    }

    /** Leaves the bar: no focus, no suggestions, no completion. */
    method Close()
      requires Valid()
      modifies this
      ensures Valid() && model == old(model).Closed()
    {
      focused, suggestions, selectedSuggestion, inlineCompletion := false, [], None, None;
      model := model.Closed();
    }

    /** Moves through the suggestions. */
    method Cycle(down: bool)
      requires Valid() && suggestions != []
      modifies this
      ensures Valid() && model == old(model).Cycled(down)
    {
      if selectedSuggestion.Some? {
        var k := selectedSuggestion.value;
        if down {
          selectedSuggestion := if k + 1 < |suggestions| then Some(k + 1) else None;
        } else {
          selectedSuggestion := if k > 0 then Some(k - 1) else None;
        }
      } else {
        selectedSuggestion := Some(if down then 0 else |suggestions| - 1);
      }
      model := model.Cycled(down);
    }

    method TypeText(typed: Option<seq<char>>) returns (action: KeyAction)
      requires Valid()
      modifies this
      ensures Valid() && (model, action) == CharEditor.TypeText(old(model), typed)
    {
      if typed.Some? {
        var chars := WithoutControls(typed.value);
        if chars != [] {
          InsertText(chars);
          return Handled;
        }
      }
      return Ignored;
    }

    method HandleKey(key: Key, typed: Option<seq<char>>, ctrl: bool, shift: bool) returns (action: KeyAction)
      requires Valid()
      modifies this
      ensures Valid() && (model, action) == CharEditor.HandleKey(old(model), key, typed, ctrl, shift)
    {
      action := Handled;
      match key
      case Enter =>
        var target := EnterTarget();
        SetDisplayedUrl(target);
        Close();
        action := Navigate(target);
      case Escape =>
        ClearSelection();
        Close();
      case ArrowUp => if suggestions != [] { Cycle(false); } else { action := Ignored; }
      case ArrowDown => if suggestions != [] { Cycle(true); } else { action := Ignored; }
      case Backspace => DeleteBackward();
      case Delete => DeleteForward();
      case ArrowLeft => MoveLeft(shift);
      case ArrowRight => MoveRight(shift);
      case Home => MoveToStart(shift);
      case End => MoveToEnd(shift);
      case OtherNamed => action := TypeText(typed);
      case Character(ch) =>
        if !ctrl {
          action := TypeText(typed);
        } else if ch == "a" || ch == "A" {
          SelectAll();
        } else {
          action := if ch == "c" || ch == "C" then Copy else if ch == "x" || ch == "X" then Cut
                    else if ch == "v" || ch == "V" then Paste else Ignored;
        }
    }

    // ---- Any sequence of operations ----

    method Perform(command: Command)
      requires Valid()
      modifies this
      ensures Valid() && model == Performed(old(model), command)
    {
      match command
      case Press(key, typed, ctrl, shift) => var _ := HandleKey(key, typed, ctrl, shift);
      case Display(text) => SetDisplayedUrl(text);
      case SelectWord => SelectWordAtCursor();
      case CutSelection => var _ := CutText();
      case PasteClipboard(text) => PasteText(text);
      case Point(i, extend) =>
        ghost var c := if i <= |model.editor.text| then i else |model.editor.text|;
        var offset := OffsetNumber(i);
        PlaceAt(offset, extend, c);
      case Suggest(list, completion) =>
        suggestions, selectedSuggestion, inlineCompletion := list, None, completion;
        model := model.(suggestions := list, selectedSuggestion := None, inlineCompletion := completion);
    }

    /** The offset of character i, or of the end; stands for where a click lands. */
    method OffsetNumber(i: nat) returns (offset: nat)
      requires Valid()
      ensures offset == OffsetOf(model.editor.text, if i <= |model.editor.text| then i else |model.editor.text|)
    {
      var chars := CharIndices();
      OffsetEnds(model.editor.text);
      offset := if i < |chars| then chars[i].0 else |url|;
    }

    /**
     * The refinement: whatever is done to the bar, in whatever order, its bytes are the encoding of
     * what the character editor holds after the same operations, and its offsets those of characters.
     */
    method PerformAll(commands: seq<Command>)
      requires Valid()
      modifies this
      ensures Valid() && model == PerformedAll(old(model), commands)
    {
      for k := 0 to |commands|
        invariant Valid() && model == PerformedAll(old(model), commands[..k])
      {
        assert commands[..k + 1][..k] == commands[..k];
        Perform(commands[k]);
      }
      assert commands[..|commands|] == commands;
    }
  }

  /** The character that starts at an offset can be removed. */
  lemma CharRemovable(text: seq<char>, i: nat)
    requires i < |text|
    ensures OffsetOf(text, i) < OffsetOf(text, i + 1) <= |Encode(text)|
    ensures IsCharBoundary(Encode(text), OffsetOf(text, i))
    ensures DecodeFirst(Encode(text)[OffsetOf(text, i)..]) == Some(text[i])
    ensures OffsetOf(text, i + 1) == OffsetOf(text, i) + |EncodeChar(text[i])|
  {
    OffsetIsBoundary(text, i);
    OffsetIsBoundary(text, i + 1);
    DecodeAtOffset(text, i);
    EncodeAround(text, i);
  }

  lemma CharRemoved(text: seq<char>, i: nat)
    requires i < |text|
    ensures OffsetOf(text, i) < OffsetOf(text, i + 1) <= |Encode(text)|
    ensures IsCharBoundary(Encode(text), OffsetOf(text, i))
    ensures DecodeFirst(Encode(text)[OffsetOf(text, i)..]) == Some(text[i])
    ensures OffsetOf(text, i + 1) == OffsetOf(text, i) + |EncodeChar(text[i])|
    ensures RemoveChar(Encode(text), OffsetOf(text, i)) == Encode(text[..i] + text[i + 1..])
    ensures OffsetOf(text[..i] + text[i + 1..], i) == OffsetOf(text, i)
  {
    CharRemovable(text, i);
    DeleteRefines(text, i, i + 1);
  }

  /** Between the offsets of two neighbouring characters lies no other. */
  lemma OnlyCharBetween(text: seq<char>, i: nat, k: nat)
    requires i < |text| && k <= |text|
    requires OffsetOf(text, i) <= OffsetOf(text, k) < OffsetOf(text, i + 1)
    ensures k == i
  {
    if k < i {
      OffsetMonotone(text, k, i);
    } else if i + 1 < k {
      OffsetMonotone(text, i + 1, k);
    }
  }

  /** From the start of a character to its end, only the start is a boundary. */
  lemma OnlyBoundaryBetween(text: seq<char>, i: nat, o: nat)
    requires i < |text| && OffsetOf(text, i) <= o < OffsetOf(text, i + 1) <= |Encode(text)|
    requires o == 0 || IsCharBoundary(Encode(text), o)
    ensures o == OffsetOf(text, i)
  {
    if o > 0 {
      var k := BoundaryIsOffset(text, o);
      OnlyCharBetween(text, i, k);
    }
  }
}
