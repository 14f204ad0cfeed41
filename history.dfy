/** The command history (myshell_history): a ring of `capacity` slots indexed by
    a count of the lines ever stored, the index being browsed with the arrow
    keys (-1 when not browsing), and the draft line saved when browsing starts.

    Snapshot and the functions Up, Down and Reset describe browsing as values;
    the CommandHistory class holds the ring itself, and its methods are proved
    to act as those functions say. The history file is modelled by the text
    that saving writes and the chunks that `fgets` reads back. */
module History {
  import opened Common
  import opened LineEditor

  /** The oldest logical index still held in a ring of `n` slots after `count` stores. */
  function Oldest(count: nat, n: nat): (r: nat)
    ensures r <= count && count - r <= n
    ensures count >= n ==> r == count - n
    ensures count < n ==> r == 0
  {
    if count >= n then count - n else 0
  }

  // ---------------------------------------------------------------------------
  // Browsing, as values

  /** What browsing reads and writes: the ring slots, the count, the browsed
      index, the saved draft and the input line. */
  datatype Snapshot = Snapshot(slots: seq<Option<string>>, count: nat, index: int, draft: Option<string>, line: EditLine)

  /** A non-empty ring of C strings, an index that is -1 or below the count,
      and a line being edited. */
  predicate Good(s: Snapshot) {
    |s.slots| > 0 && -1 <= s.index < s.count
    && (forall j :: 0 <= j < |s.slots| && s.slots[j].Some? ==> NoNul(s.slots[j].value))
    && (s.draft.Some? ==> NoNul(s.draft.value))
    && WellFormed(s.line)
  }

  /** The entry at the browsed index is put into the line, if its slot is not NULL. */
  function Select(s: Snapshot): (r: Snapshot)
    requires Good(s) && 0 <= s.index
    ensures Good(r) && r.(line := s.line) == s
    ensures s.slots[s.index % |s.slots|].Some? ==> r.line == Restore(s.slots[s.index % |s.slots|].value)
    ensures s.slots[s.index % |s.slots|].None? ==> r == s
  {
    var slot := s.slots[s.index % |s.slots|];
    if slot.Some? then s.(line := Restore(slot.value)) else s
  }

  /** Up arrow (myshell_history_navigate_up): nothing without history; the
      first press saves the line as the draft and selects the newest entry;
      later presses select the next older entry, but never one older than the
      ring still holds. */
  function Up(s: Snapshot): (r: Snapshot)
    requires Good(s)
    ensures Good(r) && r.slots == s.slots && r.count == s.count
  {
    if s.count == 0 then s
    else if s.index == -1 then Select(s.(draft := Some(s.line.text), index := s.count - 1))
    else if s.index > Oldest(s.count, |s.slots|) then Select(s.(index := s.index - 1))
    else s
  }

  /** Down arrow (myshell_history_navigate_down): nothing when not browsing;
      otherwise the next newer entry is selected, and stepping past the newest
      ends browsing, putting the draft back (or an empty line) and dropping it. */
  function Down(s: Snapshot): (r: Snapshot)
    requires Good(s)
    ensures Good(r) && r.slots == s.slots && r.count == s.count
  {
    if s.index == -1 then s
    else if s.index + 1 >= s.count then
      s.(index := -1, draft := None, line := if s.draft.Some? then Restore(s.draft.value) else EMPTY_LINE)
    else Select(s.(index := s.index + 1))
  }

  /** myshell_history_reset_navigation: browsing ends and the draft is dropped. */
  function Reset(s: Snapshot): (r: Snapshot)
    requires Good(s)
    ensures Good(r) && r.index == -1 && r.draft.None?
    ensures r.slots == s.slots && r.count == s.count && r.line == s.line
  {
    s.(index := -1, draft := None)
  }

  /** `k` presses of the up arrow. */
  function UpTimes(s: Snapshot, k: nat): (r: Snapshot)
    requires Good(s)
    ensures Good(r) && r.slots == s.slots && r.count == s.count
  {
    if k == 0 then s else Up(UpTimes(s, k - 1))
  }

  /** Without history the arrows do nothing, and Down does nothing when not browsing. */
  lemma ArrowsWithoutHistory(s: Snapshot)
    requires Good(s)
    ensures s.count == 0 ==> Up(s) == s && Down(s) == s
    ensures s.index == -1 ==> Down(s) == s
  {
  }

  /** The first Up saves the line as the draft and shows the newest entry. */
  lemma FirstUpShowsNewest(s: Snapshot)
    requires Good(s) && s.index == -1 && s.count > 0
    requires s.slots[(s.count - 1) % |s.slots|].Some?
    ensures Up(s).index == s.count - 1 && Up(s).draft == Some(s.line.text)
    ensures Up(s).line == Restore(s.slots[(s.count - 1) % |s.slots|].value)
  {
  }

  /** At the oldest entry the ring holds, Up does nothing. */
  lemma UpStopsAtOldest(s: Snapshot)
    requires Good(s) && s.index == Oldest(s.count, |s.slots|) && s.count > 0
    ensures Up(s) == s
  {
  }

  /** After `k` presses from the line being edited, the browsed index is
      `count - k`, clamped at the oldest entry the ring holds: with three
      entries the fourth press changes nothing. */
  lemma {:induction false} UpClamps(s: Snapshot, k: nat)
    requires Good(s) && s.index == -1 && s.count > 0 && k >= 1
    ensures UpTimes(s, k).index == Max(Oldest(s.count, |s.slots|), s.count - k)
  {
    if k > 1 {
      UpClamps(s, k - 1);
    }
  }

  /** Up then Down from the line being edited gives back the line's text, with
      the cursor at its end, and leaves browsing with no draft. */
  lemma UpThenDownRestoresDraft(s: Snapshot)
    requires Good(s) && s.index == -1 && s.count > 0
    ensures Down(Up(s)) == s.(draft := None, line := EditLine(s.line.text, |s.line.text|))
  {
    var browsing := s.(draft := Some(s.line.text), index := s.count - 1);
    var u := Up(s);
    assert u == Select(browsing) && u.(line := browsing.line) == browsing;
    assert u.index + 1 >= u.count && u.draft == Some(s.line.text);
    assert Down(u) == u.(index := -1, draft := None, line := Restore(s.line.text));
    assert Restore(s.line.text) == EditLine(s.line.text, |s.line.text|);
  }

  /** Reset ends browsing: Down then does nothing, and the next Up starts from
      the line as it is. */
  lemma ResetEndsBrowsing(s: Snapshot)
    requires Good(s)
    ensures Reset(s).index == -1 && Reset(s).draft.None?
    ensures Down(Reset(s)) == Reset(s)
    ensures s.count > 0 ==> Up(Reset(s)).draft == Some(s.line.text)
  {
  }

  // ---------------------------------------------------------------------------
  // The history file

  /** What saving writes: each line followed by a newline. */
  function SaveText(lines: seq<string>): (r: string)
    ensures |r| >= |lines|
  {
    if lines == [] then [] else lines[0] + "\n" + SaveText(lines[1..])
  }

  /** Where the first `fgets(line, 1024, file)` of `f` stops, scanning from `i`:
      after a newline, at the end of the file, or after 1023 characters. */
  function ChunkEnd(f: string, i: nat): (r: nat)
    requires i <= |f|
    ensures i <= r <= |f|
    ensures i < |f| && i < MAX_LINE_LENGTH ==> i < r <= MAX_LINE_LENGTH
    decreases |f| - i
  {
    if i == |f| || i >= MAX_LINE_LENGTH then i
    else if f[i] == '\n' then i + 1
    else ChunkEnd(f, i + 1)
  }

  /** The strings successive `fgets` calls read from the file text `f`. */
  function Fgets(f: string): (r: seq<string>)
    decreases |f|
  {
    if f == [] then []
    else var n := ChunkEnd(f, 0); [f[..n]] + Fgets(f[n..])
  }

  /** A trailing newline removed. */
  function StripNewline(c: string): (r: string)
    ensures |r| <= |c| && r == c[..|r|]
    ensures NoNul(c) ==> NoNul(r)
  {
    if |c| > 0 && c[|c| - 1] == '\n' then c[..|c| - 1] else c
  }

  /** The entries loading stores from the strings `fgets` read: each without
      its newline, and the empty ones skipped. */
  function Loaded(chunks: seq<string>): (r: seq<string>)
    ensures |r| <= |chunks|
  {
    if chunks == [] then []
    else
      var line := StripNewline(chunks[|chunks| - 1]);
      Loaded(chunks[..|chunks| - 1]) + if line != [] then [line] else []
  }

  /** Loading one more chunk. */
  lemma LoadedStep(chunks: seq<string>, i: nat)
    requires i < |chunks|
    ensures var line := StripNewline(chunks[i]);
      Loaded(chunks[..i + 1]) == Loaded(chunks[..i]) + if line != [] then [line] else []
  {
    assert chunks[..i + 1][..i] == chunks[..i];
  }

  /** The first chunk of `f` from `i` ends after the newline at `m`, or at 1023. */
  lemma {:induction false} ChunkEndAt(f: string, i: nat, m: nat)
    requires i <= m < |f| && m <= MAX_LINE_LENGTH
    requires forall j :: i <= j < m ==> f[j] != '\n'
    requires m == MAX_LINE_LENGTH || f[m] == '\n'
    ensures ChunkEnd(f, i) == if m == MAX_LINE_LENGTH then m else m + 1
    decreases m - i
  {
    if i < m {
      ChunkEndAt(f, i + 1, m);
    }
  }

  /** Loading appends to what the earlier chunks loaded. */
  lemma {:induction false} LoadedAppend(a: seq<string>, b: seq<string>)
    ensures Loaded(a + b) == Loaded(a) + Loaded(b)
    decreases |b|
  {
    if b == [] {
      assert a + b == a;
    } else {
      var b' := b[..|b| - 1];
      assert (a + b)[..|a + b| - 1] == a + b';
      assert (a + b)[|a + b| - 1] == b[|b| - 1];
      LoadedAppend(a, b');
    }
  }

  /** One saved line of fewer than 1023 characters is read back whole. */
  lemma ReadShortLine(e: string, rest: string)
    requires 0 < |e| < MAX_LINE_LENGTH && forall j :: 0 <= j < |e| ==> e[j] != '\n'
    ensures Fgets(e + "\n" + rest) == [e + "\n"] + Fgets(rest)
  {
    var f := e + "\n" + rest;
    ChunkEndAt(f, 0, |e|);
    assert f[..|e| + 1] == e + "\n" && f[|e| + 1..] == rest;
  }

  /** A saved line of exactly 1023 characters fills the buffer of `fgets`: the
      newline after it is read as a chunk of its own. */
  lemma ReadFullLine(e: string, rest: string)
    requires |e| == MAX_LINE_LENGTH && forall j :: 0 <= j < |e| ==> e[j] != '\n'
    ensures Fgets(e + "\n" + rest) == [e, "\n"] + Fgets(rest)
  {
    var f := e + "\n" + rest;
    ChunkEndAt(f, 0, |e|);
    assert f[..|e|] == e && f[|e|..] == "\n" + rest;
    var g := "\n" + rest;
    ChunkEndAt(g, 0, 0);
    assert g[..1] == "\n" && g[1..] == rest;
  }

  /** A saved line is loaded back as itself, whatever its length up to 1023. */
  lemma LoadOneLine(e: string, rest: string)
    requires 0 < |e| <= MAX_LINE_LENGTH && forall j :: 0 <= j < |e| ==> e[j] != '\n'
    ensures Loaded(Fgets(e + "\n" + rest)) == [e] + Loaded(Fgets(rest))
  {
    if |e| < MAX_LINE_LENGTH {
      ReadShortLine(e, rest);
      LoadedAppend([e + "\n"], Fgets(rest));
      assert StripNewline(e + "\n") == e;
      assert Loaded([e + "\n"]) == [e];
    } else {
      ReadFullLine(e, rest);
      LoadedAppend([e, "\n"], Fgets(rest));
      LoadedFullLine(e);
    }
  }

  /** The two chunks of a 1023-character line load as the line alone. */
  lemma LoadedFullLine(e: string)
    requires 0 < |e| && e[|e| - 1] != '\n'
    ensures Loaded([e, "\n"]) == [e]
  {
    assert [e, "\n"][..1] == [e];
    assert StripNewline("\n") == [];
    assert Loaded([e]) == Loaded([]) + [e];
  }

  /** Round trip of the history file: loading what saving wrote gives back the
      saved lines, when each is non-empty, has no newline and fits the
      1023 characters of the input line. */
  lemma {:induction false} LoadSavedText(lines: seq<string>)
    requires forall i :: 0 <= i < |lines| ==> 0 < |lines[i]| <= MAX_LINE_LENGTH
    requires forall i, j :: 0 <= i < |lines| && 0 <= j < |lines[i]| ==> lines[i][j] != '\n'
    ensures Loaded(Fgets(SaveText(lines))) == lines
    decreases |lines|
  {
    if lines != [] {
      var e, rest := lines[0], lines[1..];
      assert SaveText(lines) == e + "\n" + SaveText(rest);
      LoadOneLine(e, SaveText(rest));
      LoadSavedText(rest);
      assert lines == [e] + rest;
    }
  }

  /** Two logical indexes less than `n` apart use different slots. */
  lemma DistinctSlots(i: nat, j: nat, n: nat)
    requires 0 < n && i < j < i + n
    ensures i % n != j % n
  {
    var qi, qj := i / n, j / n;
    var d := qj - qi;
    assert j - i == d * n + (j % n - i % n) by {
      assert i == qi * n + i % n && j == qj * n + j % n;
      assert qj * n - qi * n == d * n;
    }
    if d <= 0 {
      assert d * n <= 0;
    } else {
      assert d * n >= n;
    }
  }

  // ---------------------------------------------------------------------------
  // The ring

  /** The lines myshell_history_add does not store: NULL, the empty line, and
      a repeat of the newest line. */
  predicate Skipped(log: seq<string>, command: Option<string>) {
    command.None? || command.value == [] || (|log| > 0 && log[|log| - 1] == command.value)
  }

  class CommandHistory {
    /** MYSHELL_HISTORY_SIZE, which the headers leave undefined: any positive size. */
    const capacity: nat
    var entries: array<Option<string>>
    /** The number of lines ever stored; the newest is at slot `(count - 1) % capacity`. */
    var count: nat
    var currentIndex: int
    var tempBuffer: Option<string>
    /** Every line ever stored, oldest first. */
    ghost var log: seq<string>

    /** The slots hold the last `capacity` lines of the log, each a non-empty C
        string, and the browsed index is -1 or below the count. */
    ghost predicate Valid()
      reads this, entries
    {
      capacity > 0 && entries.Length == capacity
      && count == |log| && -1 <= currentIndex < count
      && (forall i :: Oldest(count, capacity) <= i < count ==> entries[i % capacity] == Some(log[i]))
      && (forall j :: 0 <= j < capacity && entries[j].Some? ==> NoNul(entries[j].value))
      && (forall i :: 0 <= i < |log| ==> log[i] != [] && NoNul(log[i]))
      && (tempBuffer.Some? ==> NoNul(tempBuffer.value))
    }

    /** The lines saving writes: the last `capacity` of the log. */
    ghost function Saved(): seq<string>
      reads this
      requires count == |log|
    {
      log[Oldest(count, capacity)..]
    }

    ghost function View(line: InputLine): Snapshot
      reads this, entries, line, line.buffer
      requires line.Valid()
    {
      Snapshot(entries[..], count, currentIndex, tempBuffer, line.State())
    }

    /** The history object with its ring allocated, then initialised. */
    constructor (size: nat)
      requires size > 0
      ensures Valid() && log == [] && currentIndex == -1 && tempBuffer.None?
      ensures fresh(entries) && capacity == size
      ensures forall j :: 0 <= j < entries.Length ==> entries[j].None?
    {
      capacity := size;
      entries := new Option<string>[size](_ => None);
      count := 0;
      currentIndex := -1;
      tempBuffer := None;
      log := [];
      new;
      Init();
    }

    /** myshell_history_init: no entries, not browsing, no draft. */
    method Init()
      requires capacity > 0 && entries.Length == capacity
      modifies this, entries
      ensures entries == old(entries)
      ensures Valid() && log == [] && currentIndex == -1 && tempBuffer.None?
      ensures forall j :: 0 <= j < entries.Length ==> entries[j].None?
    {
      count := 0;
      currentIndex := -1;
      tempBuffer := None;
      log := [];
      var i := 0;
      while i < capacity
        invariant 0 <= i <= capacity
        invariant forall j :: 0 <= j < i ==> entries[j].None?
        modifies entries
      {
        entries[i] := None;
        i := i + 1;
      }
    }

    /** The slot write shared by adding and loading: the line goes to slot
        `count % capacity`, replacing what was there, and the count grows. */
    method Store(line: string)
      requires Valid() && line != [] && NoNul(line)
      modifies this, entries
      ensures entries == old(entries) && currentIndex == old(currentIndex) && tempBuffer == old(tempBuffer)
      ensures Valid() && log == old(log) + [line]
      ensures entries[..] == old(entries[..])[old(count) % capacity := Some(line)]
    {
      var idx := count % capacity;
      entries[idx] := Some(line);
      forall i | Oldest(count + 1, capacity) <= i < count
        ensures entries[i % capacity] == old(entries[i % capacity])
      {
        DistinctSlots(i, count, capacity);
      }
      count := count + 1;
      log := log + [line];
    }

    /** myshell_history_add: NULL, an empty line and a repeat of the newest
        entry are not stored; any other line is. */
    method Add(command: Option<string>)
      requires Valid() && (command.Some? ==> NoNul(command.value))
      modifies this, entries
      ensures entries == old(entries) && currentIndex == old(currentIndex) && tempBuffer == old(tempBuffer)
      ensures Valid()
      ensures var skip := Skipped(old(log), command);
        log == (if skip then old(log) else old(log) + [command.value])
        && entries[..] == if skip then old(entries[..]) else old(entries[..])[old(count) % capacity := command]
    {
      if command.None? || |command.value| == 0 {
        return;
      }
      if count > 0 {
        var lastIdx := (count - 1) % capacity;
        assert entries[lastIdx] == Some(log[count - 1]);
        if entries[lastIdx].Some? && entries[lastIdx].value == command.value {
          return;
        }
      }
      Store(command.value);
    }

    /** myshell_save_current_line: the buffer, read as a C string, becomes the draft. */
    method SaveCurrentLine(line: InputLine)
      requires Valid() && line.Editing()
      modifies this
      ensures entries == old(entries) && count == old(count) && currentIndex == old(currentIndex) && log == old(log)
      ensures Valid() && tempBuffer == Some(line.Line())
    {
      CStringUpTo(line.buffer[..], 0, line.length);
      assert line.buffer[..][0..line.length] == line.buffer[..line.length];
      tempBuffer := Some(CString(line.buffer[..], 0));
    }

    /** myshell_history_navigate_up, acting as Up; a move shows the logged
        entry at the new index. */
    method NavigateUp(line: InputLine)
      requires Valid() && line.Editing()
      modifies this, line, line.buffer
      ensures entries == old(entries) && log == old(log)
      ensures line.buffer == old(line.buffer) && line.tokens == old(line.tokens)
      ensures line.tokenCount == old(line.tokenCount) && line.redirectFile == old(line.redirectFile)
      ensures line.redirectAppend == old(line.redirectAppend)
      ensures Valid() && line.Editing()
      ensures View(line) == Up(old(View(line)))
      ensures currentIndex != old(currentIndex) ==> line.State() == Restore(log[currentIndex])
    {
      if count == 0 {
        return;
      }
      var moved := StepUp(line);
      if moved {
        ShowSelected(line);
      }
    }

    /** The index and draft updates of navigate_up on a non-empty history: the
        first press saves the draft and selects the newest entry, later ones
        select the next older entry the ring holds; `moved` is false when the
        oldest one is already selected. */
    method StepUp(line: InputLine) returns (moved: bool)
      requires Valid() && line.Editing() && count > 0
      modifies this
      ensures entries == old(entries) && count == old(count) && log == old(log)
      ensures Valid()
      ensures moved <==> currentIndex != old(currentIndex)
      ensures moved ==> Oldest(count, capacity) <= currentIndex && Up(old(View(line))) == Select(View(line))
      ensures !moved ==> tempBuffer == old(tempBuffer) && Up(old(View(line))) == View(line)
    {
      ghost var before := View(line);
      if currentIndex == -1 {
        SaveCurrentLine(line);
        currentIndex := count - 1;
        assert View(line) == before.(draft := Some(before.line.text), index := count - 1);
        return true;
      }
      var oldest := if count >= capacity then count - capacity else 0;
      if currentIndex > oldest {
        currentIndex := currentIndex - 1;
        return true;
      }
      return false;
    }

    /** The common tail of both arrows: the entry at the browsed index, if its
        slot is not NULL, replaces the line. */
    method ShowSelected(line: InputLine)
      requires Valid() && line.Editing() && 0 <= currentIndex
      modifies line, line.buffer
      ensures line.buffer == old(line.buffer) && line.tokens == old(line.tokens)
      ensures line.tokenCount == old(line.tokenCount) && line.redirectFile == old(line.redirectFile)
      ensures line.redirectAppend == old(line.redirectAppend)
      ensures line.Editing()
      ensures View(line) == Select(old(View(line)))
      ensures Oldest(count, capacity) <= currentIndex ==> line.State() == Restore(log[currentIndex])
    {
      var idx := currentIndex % capacity;
      if entries[idx].Some? {
        line.RestoreLine(entries[idx].value);
      }
    }

    /** myshell_history_navigate_down, acting as Down. */
    method NavigateDown(line: InputLine)
      requires Valid() && line.Editing()
      modifies this, line, line.buffer
      ensures entries == old(entries) && log == old(log)
      ensures line.buffer == old(line.buffer) && line.tokens == old(line.tokens)
      ensures line.tokenCount == old(line.tokenCount) && line.redirectFile == old(line.redirectFile)
      ensures line.redirectAppend == old(line.redirectAppend)
      ensures Valid() && line.Editing()
      ensures View(line) == Down(old(View(line)))
    {
      ghost var before := View(line);
      if currentIndex == -1 {
        return;
      }
      currentIndex := currentIndex + 1;
      if currentIndex >= count {
        if tempBuffer.Some? {
          line.RestoreLine(tempBuffer.value);
          tempBuffer := None;
        } else {
          line.EraseLine();
        }
        currentIndex := -1;
        assert View(line) == Down(before);
      } else {
        assert Down(before) == Select(View(line));
        ShowSelected(line);
      }
    }

    /** myshell_history_reset_navigation. */
    method ResetNavigation()
      requires Valid()
      modifies this
      ensures entries == old(entries) && count == old(count) && log == old(log)
      ensures Valid() && currentIndex == -1 && tempBuffer.None?
    {
      currentIndex := -1;
      if tempBuffer.Some? {
        tempBuffer := None;
      }
    }

    /** The lines myshell_history_save_to_file writes, oldest first: the last
        `min(count, capacity)` entries. */
    method SaveLines() returns (lines: seq<string>)
      requires Valid()
      ensures lines == Saved() && |lines| == Min(count, capacity)
    {
      var start := 0;
      var num := count;
      if num > capacity {
        start := count - capacity;
        num := capacity;
      }
      lines := [];
      var i := 0;
      while i < num
        invariant 0 <= i <= num && start + num == count && start == Oldest(count, capacity)
        invariant lines == log[start..start + i]
      {
        var idx := (start + i) % capacity;
        if entries[idx].Some? {
          lines := lines + [entries[idx].value];
        }
        i := i + 1;
      }
    }

    /** myshell_history_load_from_file over the strings `fgets` returned:
        each loses its trailing newline and, unless empty, is stored without
        the repeat check of Add. */
    method LoadLines(chunks: seq<string>)
      requires Valid() && forall i :: 0 <= i < |chunks| ==> NoNul(chunks[i])
      modifies this, entries
      ensures entries == old(entries) && currentIndex == old(currentIndex) && tempBuffer == old(tempBuffer)
      ensures Valid() && log == old(log) + Loaded(chunks)
    {
      var i := 0;
      while i < |chunks|
        invariant 0 <= i <= |chunks| && entries == old(entries)
        invariant currentIndex == old(currentIndex) && tempBuffer == old(tempBuffer)
        invariant Valid() && log == old(log) + Loaded(chunks[..i])
      {
        LoadedStep(chunks, i);
        LoadChunk(chunks[i]);
        i := i + 1;
      }
      assert chunks[..i] == chunks;
    }

    /** One string read by `fgets`: stored without its newline unless that
        leaves it empty. */
    method LoadChunk(chunk: string)
      requires Valid() && NoNul(chunk)
      modifies this, entries
      ensures entries == old(entries) && currentIndex == old(currentIndex) && tempBuffer == old(tempBuffer)
      ensures Valid()
      ensures var line := StripNewline(chunk); log == old(log) + if line != [] then [line] else []
    {
      var line := StripNewline(chunk);
      if |line| > 0 {
        Store(line);
      }
    }
  }
}
