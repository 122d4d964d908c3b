/** What keeps bidi override controls out of the URL bar, and what lets them in. */
module ChromeOverrides {
  import opened Wrappers
  import opened CharEditor
  import opened ChromeBar

  /** The text a command brings into the bar other than through insertion, in the state it is given in. */
  function Intake(chrome: Chrome, command: Command): Option<seq<char>> {
    match command
    case Display(text) => Some(text)
    case Press(Enter, _, _, _) =>
      (match (chrome.selectedSuggestion, chrome.inlineCompletion)
       case (Some(k), _) => if k < |chrome.suggestions| then Some(chrome.suggestions[k]) else None
       case (None, completion) => completion)
    case _ => None
  }

  lemma PlainJoins(a: seq<char>, b: seq<char>)
    ensures IsPlain(a + b) <==> IsPlain(a) && IsPlain(b)
  {
    if IsPlain(a + b) {
      assert forall c <- a :: c in a + b;
      assert forall c <- b :: c in a + b;
    }
  }

  lemma PlainParts(text: seq<char>, i: nat, j: nat)
    requires i <= j <= |text| && IsPlain(text)
    ensures IsPlain(text[..i]) && IsPlain(text[j..]) && IsPlain(text[..i] + text[j..])
  {
    PlainJoins(text[..i], text[j..]);
  }

  lemma {:induction false} TrimmedIsPlain(text: seq<char>)
    requires IsPlain(text)
    ensures IsPlain(Trim(text))
  {
    if text != [] {
      PlainParts(text, 0, 1);
      PlainParts(text, |text| - 1, |text|);
      if IsWhitespace(text[0]) {
        TrimmedIsPlain(text[1..]);
      } else if IsWhitespace(text[|text| - 1]) {
        TrimmedIsPlain(text[..|text| - 1]);
      }
    }
  }

  lemma InsertIsPlain(e: Editor, typed: seq<char>)
    requires e.Ok() && IsPlain(e.text)
    ensures IsPlain(e.Dropped().text) && IsPlain(e.Insert(typed).text)
  {
    var (lo, hi) := e.Range();
    PlainParts(e.text, lo, hi);
    var d, chars := e.Dropped(), StripBidiOverrides(typed);
    PlainParts(d.text, d.cursor, d.cursor);
    PlainJoins(d.text[..d.cursor], chars);
    PlainJoins(d.text[..d.cursor] + chars, d.text[d.cursor..]);
  }

  lemma DeletionIsPlain(e: Editor)
    requires e.Ok() && IsPlain(e.text)
    ensures IsPlain(e.DeleteBackward().text) && IsPlain(e.DeleteForward().text)
  {
    InsertIsPlain(e, []);
    if e.cursor > 0 {
      PlainParts(e.text, e.cursor - 1, e.cursor);
    }
    if e.cursor < |e.text| {
      PlainParts(e.text, e.cursor, e.cursor + 1);
    }
  }

  /** What Enter makes of a plain text is plain unless what it takes in is not. */
  lemma TargetIsPlain(chrome: Chrome, typed: Option<seq<char>>, ctrl: bool, shift: bool)
    requires IsPlain(chrome.editor.text)
    ensures var intake := Intake(chrome, Press(Enter, typed, ctrl, shift));
            IsPlain(chrome.Target()) <==> intake.None? || IsPlain(intake.value)
  {
    TrimmedIsPlain(chrome.editor.text);
    var chosen := match (chrome.selectedSuggestion, chrome.inlineCompletion)
      case (Some(k), _) => if k < |chrome.suggestions| then chrome.suggestions[k] else Trim(chrome.editor.text)
      case (None, Some(suffix)) => chrome.editor.text + suffix
      case (None, None) => Trim(chrome.editor.text);
    if chrome.inlineCompletion.Some? {
      PlainJoins(chrome.editor.text, chrome.inlineCompletion.value);
    }
    PlainJoins("mizu://", chosen);
  }

  lemma KeyKeepsPlain(chrome: Chrome, key: Key, typed: Option<seq<char>>, ctrl: bool, shift: bool)
    requires chrome.editor.Ok() && IsPlain(chrome.editor.text) && !key.Enter?
    ensures IsPlain(HandleKey(chrome, key, typed, ctrl, shift).0.editor.text)
  {
    DeletionIsPlain(chrome.editor);
    if typed.Some? {
      InsertIsPlain(chrome.editor, WithoutControls(typed.value));
    }
  }

  /** A plain text stays plain in one command exactly when what the command takes in is plain. */
  lemma CommandKeepsPlain(chrome: Chrome, command: Command)
    requires chrome.editor.Ok() && IsPlain(chrome.editor.text)
    ensures var intake := Intake(chrome, command);
            IsPlain(Performed(chrome, command).editor.text) <==> intake.None? || IsPlain(intake.value)
  {
    match command
    case Press(key, typed, ctrl, shift) =>
      if key.Enter? {
        TargetIsPlain(chrome, typed, ctrl, shift);
      } else {
        KeyKeepsPlain(chrome, key, typed, ctrl, shift);
      }
    case CutSelection => DeletionIsPlain(chrome.editor);
    case PasteClipboard(text) => InsertIsPlain(chrome.editor, text);
    case _ =>
  }

  /** The bar after the first k commands. */
  function After(chrome: Chrome, commands: seq<Command>, k: nat): (r: Chrome)
    requires chrome.editor.Ok() && k <= |commands|
    ensures r.editor.Ok()
  {
    PerformedAll(chrome, commands[..k])
  }

  ghost predicate TakesPlain(chrome: Chrome, command: Command) {
    var intake := Intake(chrome, command);
    intake.None? || IsPlain(intake.value)
  }

  lemma OneMoreCommand(chrome: Chrome, commands: seq<Command>, k: nat)
    requires chrome.editor.Ok() && k < |commands|
    ensures After(chrome, commands, k + 1) == Performed(After(chrome, commands, k), commands[k])
  {
    assert commands[..k + 1][..k] == commands[..k];
  }

  /**
   * The choke point: whatever is typed, pasted, moved, selected or deleted, in whatever order, the
   * bar's text is free of override controls all along if and only if every text displayed, every
   * suggestion chosen and every completion accepted was.
   */
  lemma {:induction false} OverridesStayOut(chrome: Chrome, commands: seq<Command>, n: nat)
    requires chrome.editor.Ok() && IsPlain(chrome.editor.text) && n <= |commands|
    ensures (forall k | 0 <= k <= n :: IsPlain(After(chrome, commands, k).editor.text)) <==>
            (forall k | 0 <= k < n :: TakesPlain(After(chrome, commands, k), commands[k]))
  {
    if n > 0 {
      OverridesStayOut(chrome, commands, n - 1);
      OneMoreCommand(chrome, commands, n - 1);
      if IsPlain(After(chrome, commands, n - 1).editor.text) {
        CommandKeepsPlain(After(chrome, commands, n - 1), commands[n - 1]);
      }
    }
  }
}
