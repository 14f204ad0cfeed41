/** The interactive loop's per-key step (myshell_process_input_char) over the
    shell's three pieces of state: the input line, the history and the
    builtin table. Keys other than Enter on a non-empty line are described by
    the function Key over a history Snapshot; Enter on a non-empty line logs
    the line, runs it as Dispatch decides and starts a fresh line. */
module Shell {
  import opened Common
  import opened Tokenizer
  import opened LineEditor
  import opened History
  import opened Registry
  import opened Dispatcher
  import ExternalCommands

  const ESC: char := 27 as char
  const TAB: char := 9 as char
  const DEL: char := 127 as char
  const BS: char := 8 as char

  /** Enter on a line that is not empty: the one key that runs a command. */
  predicate Submits(c: char, line: EditLine) {
    (c == '\n' || c == '\r') && |line.text| > 0
  }

  /** Any key but ESC ends browsing first. */
  function LeaveBrowsing(s: Snapshot, c: char): (r: Snapshot)
    requires Good(s)
    ensures Good(r)
  {
    if c != ESC && s.index != -1 then Reset(s) else s
  }

  /** What a key does once browsing has been left: Backspace is DEL or BS;
      ESC reads two more bytes and only `[D`, `[C`, `[A` and `[B` (left,
      right, up, down) do anything; Tab and NUL are ignored, as is a byte
      outside 32..126; a printable byte is typed. Enter on an empty line only
      shows the prompt again. */
  function Act(s: Snapshot, c: char, seq1: char, seq2: char): (r: Snapshot)
    requires Good(s)
    ensures Good(r) && r.slots == s.slots && r.count == s.count
  {
    if c == '\n' || c == '\r' then s
    else if c == DEL || c == BS then s.(line := Backspace(s.line))
    else if c == ESC then
      if seq1 != '[' then s
      else if seq2 == 'D' then s.(line := MoveLeft(s.line))
      else if seq2 == 'C' then s.(line := MoveRight(s.line))
      else if seq2 == 'A' then Up(s)
      else if seq2 == 'B' then Down(s)
      else s
    else if c == TAB || c == NUL then s
    else if IsPrintable(c) then s.(line := TypeChar(s.line, c))
    else s
  }

  /** Every key but a submitting Enter: leave browsing unless the key is ESC,
      then act on the key. */
  function Key(s: Snapshot, c: char, seq1: char, seq2: char): (r: Snapshot)
    requires Good(s)
    ensures Good(r) && r.slots == s.slots && r.count == s.count
  {
    Act(LeaveBrowsing(s, c), c, seq1, seq2)
  }

  /** A key other than ESC always ends browsing and drops the draft. */
  lemma TypingEndsBrowsing(s: Snapshot, c: char, seq1: char, seq2: char)
    requires Good(s) && c != ESC && s.index != -1
    ensures Key(s, c, seq1, seq2).index == -1 && Key(s, c, seq1, seq2).draft.None?
  {
  }

  /** Only an arrow sequence changes anything after ESC; in particular ESC does
      not end browsing. */
  lemma OtherEscapesIgnored(s: Snapshot, seq1: char, seq2: char)
    requires Good(s)
    requires seq1 != '[' || (seq2 != 'A' && seq2 != 'B' && seq2 != 'C' && seq2 != 'D')
    ensures Key(s, ESC, seq1, seq2) == s
  {
  }

  /** Up then Down from a line being edited (with history present) gives the
      same text back, the cursor at its end, and leaves browsing. */
  lemma ArrowUpThenDown(s: Snapshot)
    requires Good(s) && s.index == -1 && s.count > 0
    ensures var t := Key(Key(s, ESC, '[', 'A'), ESC, '[', 'B');
      t.line.text == s.line.text && t.line.cursor == |s.line.text| && t.index == -1 && t.draft.None?
  {
    var u := Key(s, ESC, '[', 'A');
    assert u == Up(s);
    UpThenDownRestoresDraft(s);
  }

  /** Typing a printable key and then Backspace restores the line when the
      line had room and nothing was being browsed. */
  lemma TypeThenBackspace(s: Snapshot, c: char)
    requires Good(s) && s.index == -1 && IsPrintable(c) && |s.line.text| < MAX_LINE_LENGTH
    ensures Key(Key(s, c, NUL, NUL), DEL, NUL, NUL) == s
  {
    BackspaceUndoesTypeChar(s.line, c);
  }

  /** The shell's state: `myshell_term_input`, `myshell_history` and the
      builtin table pointer. */
  class Session {
    const input: InputLine
    const history: CommandHistory
    const commands: CommandTable

    /** Between keys a line is being edited, no tokens are held, the history is
        consistent and the table pointer is NULL or points at a 128-slot table. */
    ghost predicate Valid()
      reads this, input, input.buffer, input.tokens, history, history.entries, commands, commands.table
    {
      input.Editing() && input.TokensCleared() && history.Valid() && commands.Valid()
    }

    /** The builtin table's contents, or None when the pointer is NULL. */
    ghost function Table(): Option<Slots>
      reads this, commands, commands.table
      reads if commands.table != null then {commands.table.entries} else {}
      requires commands.Valid()
    {
      if commands.table == null then None else Some(commands.table.Contents())
    }

    /** myshell_init_term_input: a cleared line, an empty history into which the
        history file's chunks are loaded when HOME is set, and the registered
        builtins. */
    constructor (historySize: nat, historyFile: Option<seq<string>>)
      requires historySize > 0
      requires historyFile.Some? ==> forall i :: 0 <= i < |historyFile.value| ==> NoNul(historyFile.value[i])
      ensures Valid() && input.State() == EMPTY_LINE
      ensures history.currentIndex == -1 && history.tempBuffer.None?
      ensures history.capacity == historySize
      ensures history.log == if historyFile.Some? then Loaded(historyFile.value) else []
      ensures Table() == Some(RegisteredSlots())
    {
      input := new InputLine();
      history := new CommandHistory(historySize);
      commands := new CommandTable();
      new;
      if historyFile.Some? {
        history.LoadLines(historyFile.value);
      }
      var aborted := commands.RegisterBuiltinCommands();
    }

    /** myshell_process_buffer: tokenize the line, then act as Dispatch
        decides. The line is left tokenized; the caller clears it. */
    method ProcessBuffer(world: World) returns (outcome: Outcome)
      requires Valid()
      modifies input, input.buffer, input.tokens
      ensures input.buffer == old(input.buffer) && input.tokens == old(input.tokens)
      ensures input.length == old(input.length) && input.cursorPos == old(input.cursorPos)
      ensures input.Valid() && input.HoldsLine(ParseLine(old(input.Line())))
      ensures input.tokenCount < MAX_TOKENS ==> input.tokens[input.tokenCount].None?
      ensures outcome == Dispatch(ParseLine(old(input.Line())), Table(), world)
    {
      ghost var line := ParseLine(input.Line());
      input.ExtractTokens();
      var name: Option<string> := None;
      if input.tokens[0].Some? {
        name := Some(CString(input.buffer[..], input.tokens[0].value));
      }
      assert name == CommandName(line);
      if input.redirectFile.Some? && !world.redirectOk {
        return RedirectFailed;
      }
      var builtin := commands.Lookup(name);
      if builtin.Some? {
        return RanBuiltin(builtin.value);
      }
      var result := ExternalCommands.ExecuteExternal(name, world.fs, world.run);
      if result < 0 {
        return UnknownCommand(name);
      }
      return RanExternal(result);
    }

    /** Enter on a non-empty line: log it, stop browsing, run it, and start an
        empty line. */
    method Submit(world: World) returns (outcome: Outcome)
      requires Valid() && input.length > 0
      modifies input, input.buffer, input.tokens, history, history.entries
      ensures Valid()
      ensures outcome == Dispatch(ParseLine(old(input.Line())), Table(), world)
      ensures history.log == if Skipped(old(history.log), Some(old(input.Line()))) then old(history.log)
                             else old(history.log) + [old(input.Line())]
      ensures history.currentIndex == -1 && history.tempBuffer.None?
      ensures input.State() == EMPTY_LINE
    {
      LogLine();
      outcome := RunLine(world);
    }

    /** The history half of Enter: the line is added, and browsing ends. */
    method LogLine()
      requires Valid() && input.length > 0
      modifies history, history.entries
      ensures Valid()
      ensures history.log == if Skipped(old(history.log), Some(input.Line())) then old(history.log)
                             else old(history.log) + [input.Line()]
      ensures history.currentIndex == -1 && history.tempBuffer.None?
    {
      history.Add(Some(input.buffer[..input.length]));
      history.ResetNavigation();
    }

    /** The command half of Enter: the line is processed, then cleared. */
    method RunLine(world: World) returns (outcome: Outcome)
      requires Valid()
      modifies input, input.buffer, input.tokens
      ensures Valid()
      ensures outcome == Dispatch(ParseLine(old(input.Line())), Table(), world)
      ensures input.State() == EMPTY_LINE
    {
      outcome := ProcessBuffer(world);
      input.Clear();
    }

    /** The arrow keys, read after ESC. */
    method Escape(seq1: char, seq2: char)
      requires Valid()
      modifies input, input.buffer, history
      ensures Valid() && history.log == old(history.log)
      ensures history.View(input) == Act(old(history.View(input)), ESC, seq1, seq2)
    {
      if seq1 == '[' {
        if seq2 == 'D' {
          input.CursorLeft();
        } else if seq2 == 'C' {
          input.CursorRight();
        } else if seq2 == 'A' {
          history.NavigateUp(input);
        } else if seq2 == 'B' {
          history.NavigateDown(input);
        }
      }
    }

    /** The keys other than Enter, after browsing has been left. */
    method EditKey(c: char, seq1: char, seq2: char)
      requires Valid() && c != '\n' && c != '\r'
      modifies input, input.buffer, history
      ensures Valid() && history.log == old(history.log)
      ensures history.View(input) == Act(old(history.View(input)), c, seq1, seq2)
    {
      if c == DEL || c == BS {
        input.DeleteBeforeCursor();
      } else if c == ESC {
        Escape(seq1, seq2);
      } else if c == TAB || c == NUL {
      } else if IsPrintable(c) {
        input.InsertChar(c);
      }
    }

    /** myshell_process_input_char: one byte of input, with the two bytes that
        follow an ESC. The result is what running the line led to, when the
        key was a submitting Enter. */
    method ProcessInputChar(c: char, seq1: char, seq2: char, world: World) returns (outcome: Option<Outcome>)
      requires Valid()
      modifies input, input.buffer, input.tokens, history, history.entries
      ensures Valid()
      ensures Submits(c, old(input.State())) ==>
        outcome == Some(Dispatch(ParseLine(old(input.Line())), Table(), world))
        && history.log == (if Skipped(old(history.log), Some(old(input.Line()))) then old(history.log)
                           else old(history.log) + [old(input.Line())])
        && history.currentIndex == -1 && history.tempBuffer.None? && input.State() == EMPTY_LINE
      ensures !Submits(c, old(input.State())) ==>
        outcome.None? && history.log == old(history.log)
        && history.View(input) == Key(old(history.View(input)), c, seq1, seq2)
    {
      ghost var before := history.View(input);
      if c != ESC && history.currentIndex != -1 {
        history.ResetNavigation();
      }
      assert history.View(input) == LeaveBrowsing(before, c);
      outcome := None;
      if c == '\n' || c == '\r' {
        if input.length == 0 {
          return;
        }
        var result := Submit(world);
        outcome := Some(result);
      } else {
        EditKey(c, seq1, seq2);
      }
    }
  }
}
