/** The input line of the shell (myshell_term_input): a 1024-byte buffer that
    holds the line as a C string, the length and cursor position, and the
    token pointers and redirection that tokenizing the line fills in.

    EditLine is the line as a value (text and cursor) with one function per
    keystroke; the InputLine class holds the buffer itself, and each of its
    methods is proved to change the buffer as the corresponding function says. */
module LineEditor {
  import opened Common
  import opened Tokenizer

  /** MYSHELL_MAX_INPUT_BUFFER_SIZE. */
  const INPUT_BUFFER_SIZE: nat := 1024

  /** The longest line: one byte of the buffer is kept for the terminating NUL. */
  const MAX_LINE_LENGTH: nat := INPUT_BUFFER_SIZE - 1

  // ---------------------------------------------------------------------------
  // The line as a value

  datatype EditLine = EditLine(text: string, cursor: nat)

  /** `0 <= cursor_pos <= length <= 1023`, and the text is a C string. */
  predicate WellFormed(l: EditLine) {
    l.cursor <= |l.text| <= MAX_LINE_LENGTH && NoNul(l.text)
  }

  const EMPTY_LINE: EditLine := EditLine([], 0)

  /** A printable key: inserted at the cursor, unless the line is full, in
      which case the key is dropped. */
  function TypeChar(l: EditLine, c: char): (r: EditLine)
    requires WellFormed(l) && IsPrintable(c)
    ensures WellFormed(r)
    ensures |l.text| < MAX_LINE_LENGTH ==>
      |r.text| == |l.text| + 1 && r.cursor == l.cursor + 1 && r.text[l.cursor] == c
      && r.text[..l.cursor] == l.text[..l.cursor] && r.text[l.cursor + 1..] == l.text[l.cursor..]
    ensures |l.text| >= MAX_LINE_LENGTH ==> r == l
  {
    if |l.text| >= MAX_LINE_LENGTH then l
    else EditLine(l.text[..l.cursor] + [c] + l.text[l.cursor..], l.cursor + 1)
  }

  /** Backspace: removes the character before the cursor, if there is one. */
  function Backspace(l: EditLine): (r: EditLine)
    requires WellFormed(l)
    ensures WellFormed(r)
    ensures l.cursor > 0 ==>
      |r.text| == |l.text| - 1 && r.cursor == l.cursor - 1
      && r.text[..r.cursor] == l.text[..l.cursor - 1] && r.text[r.cursor..] == l.text[l.cursor..]
    ensures l.cursor == 0 ==> r == l
  {
    if l.cursor == 0 then l
    else EditLine(l.text[..l.cursor - 1] + l.text[l.cursor..], l.cursor - 1)
  }

  /** Left arrow. */
  function MoveLeft(l: EditLine): (r: EditLine)
    requires WellFormed(l)
    ensures WellFormed(r) && r.text == l.text
    ensures r.cursor == if l.cursor > 0 then l.cursor - 1 else 0
  {
    if l.cursor > 0 then EditLine(l.text, l.cursor - 1) else l
  }

  /** Right arrow. */
  function MoveRight(l: EditLine): (r: EditLine)
    requires WellFormed(l)
    ensures WellFormed(r) && r.text == l.text
    ensures r.cursor == if l.cursor < |l.text| then l.cursor + 1 else |l.text|
  {
    if l.cursor < |l.text| then EditLine(l.text, l.cursor + 1) else l
  }

  /** A line put back into the buffer (myshell_restore_and_display_line): at
      most 1023 characters of it are kept and the cursor goes to the end. */
  function Restore(line: string): (r: EditLine)
    requires NoNul(line)
    ensures WellFormed(r) && r.cursor == |r.text|
    ensures |r.text| == Min(|line|, MAX_LINE_LENGTH) && IsPrefix(r.text, line)
  {
    var kept := if |line| <= MAX_LINE_LENGTH then line else line[..MAX_LINE_LENGTH];
    EditLine(kept, |kept|)
  }

  /** Typing into a line with room inserts the key at the cursor and moves the
      cursor past it, leaving the text on both sides as it was. */
  lemma TypeCharInserts(l: EditLine, c: char)
    requires WellFormed(l) && IsPrintable(c) && |l.text| < MAX_LINE_LENGTH
    ensures var r := TypeChar(l, c);
      |r.text| == |l.text| + 1 && r.cursor == l.cursor + 1 && r.text[l.cursor] == c
      && r.text[..l.cursor] == l.text[..l.cursor] && r.text[l.cursor + 1..] == l.text[l.cursor..]
  {
    var r := TypeChar(l, c);
    assert r.text[..l.cursor] == l.text[..l.cursor];
    assert r.text[l.cursor + 1..] == l.text[l.cursor..];
  }

  /** A key typed into a full line changes nothing. */
  lemma FullLineDropsKey(l: EditLine, c: char)
    requires WellFormed(l) && IsPrintable(c) && |l.text| >= MAX_LINE_LENGTH
    ensures TypeChar(l, c) == l
  {
  }

  /** Backspace right after typing a key gives back the line and cursor exactly. */
  lemma BackspaceUndoesTypeChar(l: EditLine, c: char)
    requires WellFormed(l) && IsPrintable(c) && |l.text| < MAX_LINE_LENGTH
    ensures Backspace(TypeChar(l, c)) == l
  {
    var t := TypeChar(l, c).text;
    var k := l.cursor;
    assert t[..k] == l.text[..k];
    assert t[k + 1..] == l.text[k..];
    assert l.text[..k] + l.text[k..] == l.text;
  }

  /** Backspace at the start of the line, Left at the start and Right at the
      end change nothing. */
  lemma EditsAtTheEdges(l: EditLine)
    requires WellFormed(l)
    ensures l.cursor == 0 ==> Backspace(l) == l && MoveLeft(l) == l
    ensures l.cursor == |l.text| ==> MoveRight(l) == l
  {
  }

  /** Otherwise Left and Right move the cursor by one without touching the
      text, and undo each other. */
  lemma ArrowsAreInverse(l: EditLine)
    requires WellFormed(l)
    ensures l.cursor > 0 ==> MoveLeft(l).text == l.text && MoveLeft(l).cursor == l.cursor - 1
    ensures l.cursor > 0 ==> MoveRight(MoveLeft(l)) == l
    ensures l.cursor < |l.text| ==> MoveRight(l).text == l.text && MoveRight(l).cursor == l.cursor + 1
    ensures l.cursor < |l.text| ==> MoveLeft(MoveRight(l)) == l
  {
  }

  /** Typing the keys of `s` one after the other, starting from `l`. */
  function TypeAll(l: EditLine, s: string): (r: EditLine)
    requires WellFormed(l)
    requires forall i :: 0 <= i < |s| ==> IsPrintable(s[i])
    ensures WellFormed(r)
    decreases |s|
  {
    if s == [] then l else TypeAll(TypeChar(l, s[0]), s[1..])
  }

  /** Typing printable keys at the end of a line appends them, as long as they fit. */
  lemma {:induction false} TypeAllAppends(l: EditLine, s: string)
    requires WellFormed(l) && l.cursor == |l.text|
    requires forall i :: 0 <= i < |s| ==> IsPrintable(s[i])
    requires |l.text| + |s| <= MAX_LINE_LENGTH
    ensures TypeAll(l, s) == EditLine(l.text + s, |l.text| + |s|)
    decreases |s|
  {
    if s != [] {
      var next := TypeChar(l, s[0]);
      assert next.text == l.text + [s[0]];
      TypeAllAppends(next, s[1..]);
      assert l.text + [s[0]] + s[1..] == l.text + s;
    }
  }

  // ---------------------------------------------------------------------------
  // The input buffer

  /** The buffer after inserting `c` at `k` into the line held in its first `n`
      bytes, stated index by index, holds the line with `c` inserted. */
  lemma InsertedAt(before: seq<char>, after: seq<char>, k: nat, n: nat, c: char)
    requires k <= n < |before| && n + 1 < |after|
    requires forall j :: 0 <= j < k ==> after[j] == before[j]
    requires after[k] == c
    requires forall j :: k < j <= n ==> after[j] == before[j - 1]
    ensures after[..n + 1] == before[..n][..k] + [c] + before[..n][k..]
  {
  }

  /** The buffer after removing index `k - 1` from the line held in its first `n` bytes. */
  lemma DeletedAt(before: seq<char>, after: seq<char>, k: nat, n: nat)
    requires 0 < k <= n < |before| && n < |after|
    requires forall j :: 0 <= j < k - 1 ==> after[j] == before[j]
    requires forall j :: k - 1 <= j < n - 1 ==> after[j] == before[j + 1]
    ensures after[..n - 1] == before[..n][..k - 1] + before[..n][k..]
  {
  }

  /** One character of the scan: how quoting, the separators and the token
      starts found so far change. */
  lemma ScanStep(s: string, i: nat)
    requires i < |s|
    ensures InQuotes(s, i + 1) == (if IsQuote(s[i]) then !InQuotes(s, i) else InQuotes(s, i))
    ensures Separators(s, i + 1) == if IsSeparator(s, i) then Separators(s, i) + [i] else Separators(s, i)
    ensures forall k :: 0 <= k <= |Separators(s, i)| ==>
      TokenStart(Separators(s, i + 1), k) == TokenStart(Separators(s, i), k)
  {
  }

  /** Token starts agree on a list of separators and any extension of it. */
  lemma TokenStartsAgree(a: seq<nat>, b: seq<nat>)
    requires a <= b
    ensures forall k :: 0 <= k <= |a| ==> TokenStart(a, k) == TokenStart(b, k)
  {
  }

  /** After the scan has written NUL over the separators below `e`, the NUL-terminated
      string at the start of token `k` is token `k` of the line `s` held in `before`. */
  lemma ScannedToken(s: string, before: seq<char>, after: seq<char>, e: nat, k: nat)
    requires |s| < |before| == |after| && before[..|s|] == s && before[|s|] == NUL && NoNul(s)
    requires e <= |s|
    requires forall j {:trigger after[j]} :: 0 <= j < |after| ==> after[j] == if j < e && IsSeparator(s, j) then NUL else before[j]
    requires var seps := Separators(s, |s|);
      if |seps| >= MAX_TOKENS then e == seps[MAX_TOKENS - 1] + 1 else e == |s|
    requires k < TokenCount(s)
    ensures TokenStart(Separators(s, |s|), k) < |s|
    ensures CString(after, TokenStart(Separators(s, |s|), k)) == Tokens(s)[k]
  {
    var seps := Separators(s, |s|);
    var start, end := TokenStart(seps, k), TokenEnd(seps, k, |s|);
    TokenAt(s, k);
    TokenEndCut(s, before, after, e, k);
    TokenKept(s, before, after, e, k);
    CStringUpTo(after, start, end);
    assert after[start..end] == s[start..end];
  }

  /** The end of a token taken by the scan is a NUL: its separator was cut,
      or it is the end of the line. */
  lemma TokenEndCut(s: string, before: seq<char>, after: seq<char>, e: nat, k: nat)
    requires |s| < |before| == |after| && before[|s|] == NUL
    requires e <= |s|
    requires forall j {:trigger after[j]} :: 0 <= j < |after| ==> after[j] == if j < e && IsSeparator(s, j) then NUL else before[j]
    requires var seps := Separators(s, |s|);
      if |seps| >= MAX_TOKENS then e == seps[MAX_TOKENS - 1] + 1 else e == |s|
    requires k < TokenCount(s)
    ensures TokenStart(Separators(s, |s|), k) <= TokenEnd(Separators(s, |s|), k, |s|)
    ensures after[TokenEnd(Separators(s, |s|), k, |s|)] == NUL
  {
    var seps := Separators(s, |s|);
    if k < |seps| {
      assert k > 0 ==> seps[k - 1] < seps[k];
      assert |seps| >= MAX_TOKENS ==> seps[k] <= seps[MAX_TOKENS - 1];
      assert after[seps[k]] == NUL;
    } else {
      assert after[|s|] == before[|s|];
    }
  }

  /** Inside a token taken by the scan the buffer still holds the line. */
  lemma TokenKept(s: string, before: seq<char>, after: seq<char>, e: nat, k: nat)
    requires |s| < |before| == |after| && before[..|s|] == s && NoNul(s)
    requires e <= |s|
    requires forall j {:trigger after[j]} :: 0 <= j < |after| ==> after[j] == if j < e && IsSeparator(s, j) then NUL else before[j]
    requires k < TokenCount(s)
    ensures forall m :: TokenStart(Separators(s, |s|), k) <= m < TokenEnd(Separators(s, |s|), k, |s|) ==>
      after[m] == s[m] && after[m] != NUL
  {
    var seps := Separators(s, |s|);
    forall m | TokenStart(seps, k) <= m < TokenEnd(seps, k, |s|)
      ensures after[m] == s[m] && after[m] != NUL
    {
      NoSeparatorBetween(s, |s|, k, m);
      assert before[m] == s[m];
    }
  }

  /** The state of the scanning loop after reading the first `i` characters of
      `s`: the scalars, the token starts recorded in `toks`, and the buffer
      `after` with NUL written over the separators read. `stop` is the `break`
      at the 64th separator. */
  ghost predicate Scanned(s: string, before: seq<char>, after: seq<char>, toks: seq<Option<nat>>,
                          i: nat, count: nat, tokenStart: bool, stop: bool, inQuotes: bool)
  {
    ScanCounters(s, i, count, tokenStart, stop, inQuotes)
    && StartsRecorded(s, toks, i, count, tokenStart)
    && SeparatorsCut(s, before, after, i)
  }

  /** Quoting, the number of separators read, the `break` and whether the
      next character starts a token. */
  ghost predicate ScanCounters(s: string, i: nat, count: nat, tokenStart: bool, stop: bool, inQuotes: bool)
  {
    i <= |s|
    && inQuotes == InQuotes(s, i)
    && count == |Separators(s, i)|
    && (if stop then count == MAX_TOKENS && 0 < i && Separators(s, i)[MAX_TOKENS - 1] == i - 1
        else count < MAX_TOKENS)
    && (tokenStart <==> i == TokenStart(Separators(s, i), count))
  }

  /** The token pointers set so far: one per token begun, NULL after them. */
  ghost predicate StartsRecorded(s: string, toks: seq<Option<nat>>, i: nat, count: nat, tokenStart: bool)
  {
    i <= |s| && |toks| == MAX_TOKENS && count <= |Separators(s, i)|
    && forall k :: 0 <= k < MAX_TOKENS ==>
      toks[k] == if k < count || (k == count && !tokenStart) then Some(TokenStart(Separators(s, i), k)) else None
  }

  /** The separators read so far are NUL in the buffer; every other byte is as before. */
  ghost predicate SeparatorsCut(s: string, before: seq<char>, after: seq<char>, i: nat)
  {
    i <= |s| && |after| == |before|
    && forall j {:trigger after[j]} :: 0 <= j < |after| ==> after[j] == if j < i && IsSeparator(s, j) then NUL else before[j]
  }

  /** Character `i` moves the scalars on: a quote toggles quoting, and a
      separator is counted, begins a new token and stops the scan at the 64th. */
  lemma AdvanceCounters(s: string, i: nat, count: nat, tokenStart: bool, inQuotes: bool)
    requires i < |s| && ScanCounters(s, i, count, tokenStart, false, inQuotes)
    ensures var sep := IsSeparator(s, i);
      ScanCounters(s, i + 1, if sep then count + 1 else count, sep, sep && count + 1 >= MAX_TOKENS,
                   if IsQuote(s[i]) then !inQuotes else inQuotes)
  {
    ScanStep(s, i);
    var seps0, seps1 := Separators(s, i), Separators(s, i + 1);
    if IsSeparator(s, i) {
      assert seps1 == seps0 + [i] && seps1[count] == i;
      assert TokenStart(seps1, count + 1) == i + 1;
    } else {
      assert seps1 == seps0;
      if count > 0 {
        assert seps0[count - 1] < i;
      }
    }
  }

  /** Character `i` records a token start when one begins there. */
  lemma AdvanceStarts(s: string, toks: seq<Option<nat>>, i: nat, count: nat, tokenStart: bool)
    requires i < |s| && count == |Separators(s, i)| && count < MAX_TOKENS
    requires tokenStart <==> i == TokenStart(Separators(s, i), count)
    requires StartsRecorded(s, toks, i, count, tokenStart)
    ensures var sep := IsSeparator(s, i);
      StartsRecorded(s, if tokenStart then toks[count := Some(i)] else toks, i + 1,
                     if sep then count + 1 else count, sep)
  {
    ScanStep(s, i);
    var sep := IsSeparator(s, i);
    var seps0, seps1 := Separators(s, i), Separators(s, i + 1);
    var toks' := if tokenStart then toks[count := Some(i)] else toks;
    var count' := if sep then count + 1 else count;
    forall k | 0 <= k < MAX_TOKENS
      ensures toks'[k] == if k < count' || (k == count' && !sep) then Some(TokenStart(seps1, k)) else None
    {
      if k == count {
        assert toks'[k] == Some(TokenStart(seps0, count));
      }
    }
  }

  /** Character `i` is overwritten with NUL when it is a separator. */
  lemma AdvanceCut(s: string, before: seq<char>, after: seq<char>, i: nat)
    requires i < |s| && i < |after| && SeparatorsCut(s, before, after, i)
    ensures SeparatorsCut(s, before, if IsSeparator(s, i) then after[i := NUL] else after, i + 1)
  {
  }

  /** Reading character `i` moves the whole scan state one character on. */
  lemma ScanAdvance(s: string, before: seq<char>, after: seq<char>, toks: seq<Option<nat>>,
                    i: nat, count: nat, tokenStart: bool, inQuotes: bool)
    requires i < |s| && i < |after|
    requires Scanned(s, before, after, toks, i, count, tokenStart, false, inQuotes)
    ensures var sep := IsSeparator(s, i);
      Scanned(s, before,
              if sep then after[i := NUL] else after,
              if tokenStart then toks[count := Some(i)] else toks,
              i + 1,
              if sep then count + 1 else count,
              sep,
              sep && count + 1 >= MAX_TOKENS,
              if IsQuote(s[i]) then !inQuotes else inQuotes)
  {
    AdvanceCounters(s, i, count, tokenStart, inQuotes);
    AdvanceStarts(s, toks, i, count, tokenStart);
    AdvanceCut(s, before, after, i);
  }

  /** Where the scanning loop leaves off: with every character read, or just
      after the 64th separator. From there the counted tokens are the tokens
      of the line, each a NUL-terminated string in the buffer. */
  lemma ScanFinished(s: string, before: seq<char>, after: seq<char>, toks: seq<Option<nat>>,
                     i: nat, count: nat, tokenStart: bool, stop: bool, inQuotes: bool)
    requires |s| < |before| == |after| && before[..|s|] == s && before[|s|] == NUL && NoNul(s)
    requires Scanned(s, before, after, toks, i, count, tokenStart, stop, inQuotes)
    requires i < |s| ==> stop
    ensures var n := if tokenStart then count else count + 1;
      n == TokenCount(s)
      && (n < MAX_TOKENS ==> toks[n].None?)
      && forall k :: 0 <= k < n ==>
        toks[k] == Some(TokenStart(Separators(s, |s|), k)) && TokenStart(Separators(s, |s|), k) < |s|
        && CString(after, TokenStart(Separators(s, |s|), k)) == Tokens(s)[k]
  {
    var seps := Separators(s, |s|);
    SeparatorsExtend(s, i, |s|);
    TokenStartsAgree(Separators(s, i), seps);
    assert stop ==> seps[MAX_TOKENS - 1] == i - 1;
    var n := if tokenStart then count else count + 1;
    assert n == TokenCount(s);
    forall k | 0 <= k < n
      ensures toks[k] == Some(TokenStart(seps, k)) && TokenStart(seps, k) < |s|
      ensures CString(after, TokenStart(seps, k)) == Tokens(s)[k]
    {
      ScannedToken(s, before, after, i, k);
    }
  }

  class InputLine {
    var buffer: array<char>
    var length: nat
    var cursorPos: nat
    var tokenCount: nat
    /** Token pointers, as indexes into `buffer`; `None` is NULL. */
    var tokens: array<Option<nat>>
    /** The redirection target, as an index into `buffer`. */
    var redirectFile: Option<nat>
    var redirectAppend: bool

    /** The fixed sizes, `cursor_pos <= length <= 1023`, and a NUL at `length`. */
    ghost predicate Valid()
      reads this, buffer
    {
      buffer.Length == INPUT_BUFFER_SIZE && tokens.Length == MAX_TOKENS
      && cursorPos <= length <= MAX_LINE_LENGTH && buffer[length] == NUL
      && tokenCount <= MAX_TOKENS
    }

    /** While a line is being edited it holds no NUL before `length`. */
    ghost predicate Editing()
      reads this, buffer
    {
      Valid() && NoNul(buffer[..length])
    }

    ghost function Line(): string
      reads this, buffer
      requires Valid()
    {
      buffer[..length]
    }

    ghost function State(): EditLine
      reads this, buffer
      requires Valid()
    {
      EditLine(buffer[..length], cursorPos)
    }

    /** The token and redirection fields as they are between two lines. */
    ghost predicate TokensCleared()
      reads this, tokens
    {
      tokenCount == 0 && redirectFile.None? && !redirectAppend
      && forall k :: 0 <= k < tokens.Length ==> tokens[k].None?
    }

    /** The token fields hold `ts`: `token_count` of them, each pointing at a
        NUL-terminated string inside the line. */
    ghost predicate HoldsTokens(ts: seq<string>)
      reads this, buffer, tokens
      requires Valid()
    {
      tokenCount == |ts|
      && forall k :: 0 <= k < |ts| ==>
        tokens[k].Some? && tokens[k].value < length && CString(buffer[..], tokens[k].value) == ts[k]
    }

    /** The token and redirection fields hold the command line `line`. */
    ghost predicate HoldsLine(line: CommandLine)
      reads this, buffer, tokens
      requires Valid()
    {
      HoldsTokens(line.args)
      && match line.redirect
         case None => redirectFile.None? && !redirectAppend
         case Some(r) =>
           redirectFile.Some? && redirectFile.value < length
           && CString(buffer[..], redirectFile.value) == r.file && redirectAppend == r.append
    }

    /** myshell_init_term_input: allocates the buffer, then clears it. */
    constructor ()
      ensures Editing() && State() == EMPTY_LINE && TokensCleared()
      ensures fresh(buffer) && fresh(tokens)
      ensures forall j :: 0 <= j < buffer.Length ==> buffer[j] == NUL
    {
      buffer := new char[INPUT_BUFFER_SIZE](_ => NUL);
      tokens := new Option<nat>[MAX_TOKENS](_ => None);
      length, cursorPos, tokenCount := 0, 0, 0;
      redirectFile, redirectAppend := None, false;
      new;
      Clear();
    }

    /** myshell_clear_input_buffer: zeroes the whole buffer, empties the line and
        drops the tokens and the redirection. */
    method Clear()
      requires buffer.Length == INPUT_BUFFER_SIZE && tokens.Length == MAX_TOKENS
      modifies this, buffer, tokens
      ensures buffer == old(buffer) && tokens == old(tokens)
      ensures Editing() && State() == EMPTY_LINE && TokensCleared()
      ensures forall j :: 0 <= j < buffer.Length ==> buffer[j] == NUL
    {
      var i := 0;
      while i < INPUT_BUFFER_SIZE
        invariant 0 <= i <= INPUT_BUFFER_SIZE
        invariant forall j :: 0 <= j < i ==> buffer[j] == NUL
        modifies buffer
      {
        buffer[i] := NUL;
        i := i + 1;
      }
      length := 0;
      cursorPos := 0;
      tokenCount := 0;
      i := 0;
      while i < MAX_TOKENS
        invariant 0 <= i <= MAX_TOKENS
        invariant forall k :: 0 <= k < i ==> tokens[k].None?
        modifies tokens
      {
        tokens[i] := None;
        i := i + 1;
      }
      redirectFile := None;
      redirectAppend := false;
    }

    /** The printable-key branch of myshell_process_input_char: drop the key when
        the line is full, append it at the end, or shift the tail right by one
        and insert it at the cursor. */
    method InsertChar(c: char)
      requires Editing() && IsPrintable(c)
      modifies this, buffer
      ensures buffer == old(buffer) && tokens == old(tokens)
      ensures tokenCount == old(tokenCount) && redirectFile == old(redirectFile) && redirectAppend == old(redirectAppend)
      ensures Editing() && State() == TypeChar(old(State()), c)
    {
      if length >= MAX_LINE_LENGTH {
        return;
      }
      ghost var expected := TypeChar(State(), c);
      ghost var before := buffer[..];
      ghost var k, n := cursorPos, length;
      OpenGap(cursorPos, length, c);
      length := length + 1;
      cursorPos := cursorPos + 1;
      InsertedAt(before, buffer[..], k, n, c);
      assert buffer[..length] == expected.text;
    }

    /** Writes `c` at `k` into the line held in the first `n` bytes: at the end
        of the line directly, otherwise after shifting the tail right by one;
        the byte after the longer line becomes NUL. */
    method OpenGap(k: nat, n: nat, c: char)
      requires k <= n && n + 1 < buffer.Length
      modifies buffer
      ensures forall j :: 0 <= j < k ==> buffer[j] == old(buffer[j])
      ensures buffer[k] == c && buffer[n + 1] == NUL
      ensures forall j :: k < j <= n ==> buffer[j] == old(buffer[j - 1])
      ensures forall j :: n + 1 < j < buffer.Length ==> buffer[j] == old(buffer[j])
    {
      if k == n {
        buffer[k] := c;
        buffer[k + 1] := NUL;
      } else {
        ShiftRight(k, n);
        buffer[k] := c;
        buffer[n + 1] := NUL;
      }
    }

    /** The right shift of a mid-line insert: `buffer[i] = buffer[i - 1]` for `i`
        from `last` down to `first + 1`. */
    method ShiftRight(first: nat, last: nat)
      requires first <= last < buffer.Length
      modifies buffer
      ensures forall j :: 0 <= j < buffer.Length ==>
        buffer[j] == if first < j <= last then old(buffer[j - 1]) else old(buffer[j])
    {
      var i := last;
      while i > first
        invariant first <= i <= last
        invariant forall j :: 0 <= j < buffer.Length ==>
          buffer[j] == if i < j <= last then old(buffer[j - 1]) else old(buffer[j])
      {
        buffer[i] := buffer[i - 1];
        i := i - 1;
      }
    }

    /** The backspace branch of myshell_process_input_char: nothing at the start
        of the line; at the end the last character becomes NUL; in the middle
        the tail is shifted left by one. */
    method DeleteBeforeCursor()
      requires Editing()
      modifies this, buffer
      ensures buffer == old(buffer) && tokens == old(tokens)
      ensures tokenCount == old(tokenCount) && redirectFile == old(redirectFile) && redirectAppend == old(redirectAppend)
      ensures Editing() && State() == Backspace(old(State()))
    {
      if cursorPos == 0 {
        return;
      }
      ghost var expected := Backspace(State());
      ghost var before := buffer[..];
      ghost var k, n := cursorPos, length;
      CloseGap(cursorPos, length);
      length := length - 1;
      cursorPos := cursorPos - 1;
      DeletedAt(before, buffer[..], k, n);
      assert buffer[..length] == expected.text;
    }

    /** The buffer writes of a backspace with the cursor at `k` on a line of
        `n` characters: the character before the cursor is removed, the rest
        of the line moves left and a NUL ends it. */
    method CloseGap(k: nat, n: nat)
      requires 0 < k <= n < buffer.Length
      modifies buffer
      ensures forall j :: 0 <= j < k - 1 ==> buffer[j] == old(buffer[j])
      ensures forall j :: k - 1 <= j < n - 1 ==> buffer[j] == old(buffer[j + 1])
      ensures buffer[n - 1] == NUL
      ensures forall j :: n <= j < buffer.Length ==> buffer[j] == old(buffer[j])
    {
      if k == n {
        buffer[k - 1] := NUL;
      } else {
        ShiftLeft(k - 1, n - 1);
        buffer[n - 1] := NUL;
      }
    }

    /** The left shift of a mid-line backspace: `buffer[i] = buffer[i + 1]` for
        `i` from `first` up to `last - 1`. */
    method ShiftLeft(first: nat, last: nat)
      requires first <= last < buffer.Length
      modifies buffer
      ensures forall j :: 0 <= j < buffer.Length ==>
        buffer[j] == if first <= j < last then old(buffer[j + 1]) else old(buffer[j])
    {
      var i := first;
      while i < last
        invariant first <= i <= last
        invariant forall j :: 0 <= j < buffer.Length ==>
          buffer[j] == if first <= j < i then old(buffer[j + 1]) else old(buffer[j])
      {
        buffer[i] := buffer[i + 1];
        i := i + 1;
      }
    }

    /** myshell_extract_tokens_from_buffer: cuts the line into tokens in place,
        then splits off a trailing `> file` or `>> file`. Afterwards the fields
        hold the parsed line and, below 64 tokens, the slot after the last
        argument is NULL, as `execv` needs. */
    method ExtractTokens()
      requires Editing() && TokensCleared()
      modifies this, buffer, tokens
      ensures buffer == old(buffer) && tokens == old(tokens)
      ensures length == old(length) && cursorPos == old(cursorPos)
      ensures Valid() && HoldsLine(ParseLine(old(Line())))
      ensures tokenCount < MAX_TOKENS ==> tokens[tokenCount].None?
    {
      ghost var s := Line();
      ScanTokens();
      SplitRedirection(Tokens(s));
    }

    /** The scanning loop: quotes of either kind toggle quoting, a space read
        outside quotes becomes NUL and ends a token, and the scan stops at the
        64th separator; a token still open at the end of the line is counted. */
    method ScanTokens()
      requires Editing() && TokensCleared()
      modifies this, buffer, tokens
      ensures buffer == old(buffer) && tokens == old(tokens)
      ensures length == old(length) && cursorPos == old(cursorPos)
      ensures redirectFile.None? && !redirectAppend
      ensures Valid() && HoldsTokens(Tokens(old(Line())))
      ensures tokenCount < MAX_TOKENS ==> tokens[tokenCount].None?
    {
      ghost var s := Line();
      ghost var before := buffer[..];
      var i, count, tokenStart, stop, inQuotes := ScanLoop(s, before);
      ScanFinished(s, before, buffer[..], tokens[..], i, count, tokenStart, stop, inQuotes);
      if !tokenStart {
        count := count + 1;
      }
      if count > MAX_TOKENS {
        count := MAX_TOKENS;
      }
      tokenCount := count;
    }

    /** The scanning loop: it ends at the end of the line or at the 64th separator. */
    method ScanLoop(ghost s: string, ghost before: seq<char>) returns (i: nat, count: nat, tokenStart: bool, stop: bool, inQuotes: bool)
      requires Editing() && TokensCleared() && s == Line() && before == buffer[..]
      modifies buffer, tokens
      ensures Scanned(s, before, buffer[..], tokens[..], i, count, tokenStart, stop, inQuotes)
      ensures i < |s| ==> stop
    {
      inQuotes := false;
      tokenStart := true;
      count := 0;
      stop := false;
      i := 0;
      while i < length && !stop
        invariant Scanned(s, before, buffer[..], tokens[..], i, count, tokenStart, stop, inQuotes)
        modifies buffer, tokens
      {
        count, tokenStart, inQuotes, stop := ScanStep(s, before, i, count, tokenStart, inQuotes);
        i := i + 1;
      }
    }

    /** One turn of the scanning loop keeps the scan state. */
    method ScanStep(ghost s: string, ghost before: seq<char>, i: nat, count: nat, tokenStart: bool, inQuotes: bool)
      returns (count': nat, tokenStart': bool, inQuotes': bool, stop: bool)
      requires buffer.Length == INPUT_BUFFER_SIZE && tokens.Length == MAX_TOKENS && i < |s| < |before|
      requires before[..|s|] == s
      requires Scanned(s, before, buffer[..], tokens[..], i, count, tokenStart, false, inQuotes)
      modifies buffer, tokens
      ensures Scanned(s, before, buffer[..], tokens[..], i + 1, count', tokenStart', stop, inQuotes')
    {
      ScanAdvance(s, before, buffer[..], tokens[..], i, count, tokenStart, inQuotes);
      assert buffer[i] == s[i];
      count', tokenStart', inQuotes', stop := ScanChar(s, i, count, tokenStart, inQuotes);
    }

    /** The body of the scanning loop for character `i`: a quote toggles
        quoting, a pending token start is recorded, and a space outside quotes
        becomes a NUL, is counted, and stops the scan at the 64th. */
    method ScanChar(ghost s: string, i: nat, count: nat, tokenStart: bool, inQuotes: bool)
      returns (count': nat, tokenStart': bool, inQuotes': bool, stop: bool)
      requires tokens.Length == MAX_TOKENS && count < MAX_TOKENS
      requires i < |s| && i < buffer.Length && buffer[i] == s[i] && inQuotes == InQuotes(s, i)
      modifies buffer, tokens
      ensures var sep := IsSeparator(s, i);
        buffer[..] == (if sep then old(buffer[..])[i := NUL] else old(buffer[..]))
        && tokens[..] == (if tokenStart then old(tokens[..])[count := Some(i)] else old(tokens[..]))
        && count' == (if sep then count + 1 else count) && tokenStart' == sep
        && stop == (sep && count + 1 >= MAX_TOKENS)
        && inQuotes' == (if IsQuote(s[i]) then !inQuotes else inQuotes)
    {
      count', tokenStart', inQuotes', stop := count, tokenStart, inQuotes, false;
      var ch := buffer[i];
      if ch == '"' || ch == '\'' {
        inQuotes' := !inQuotes';
      }
      if tokenStart' {
        tokens[count'] := Some(i);
        tokenStart' := false;
      }
      if ch == ' ' {
        if !inQuotes' {
          buffer[i] := NUL;
          count' := count' + 1;
          tokenStart' := true;
          if count' >= MAX_TOKENS {
            stop := true;
          }
        }
      }
    }

    /** strcmp of the second-to-last token with `>` and `>>`; on a match the last
        token becomes the redirection target and both leave the arguments. */
    method SplitRedirection(ghost ts: seq<string>)
      requires Valid() && HoldsTokens(ts) && redirectFile.None? && !redirectAppend
      requires tokenCount < MAX_TOKENS ==> tokens[tokenCount].None?
      modifies this, tokens
      ensures buffer == old(buffer) && tokens == old(tokens)
      ensures length == old(length) && cursorPos == old(cursorPos)
      ensures Valid() && HoldsLine(SplitRedirect(ts))
      ensures tokenCount < MAX_TOKENS ==> tokens[tokenCount].None?
    {
      if tokenCount >= 2 {
        var idx := tokenCount - 2;
        var op := CString(buffer[..], tokens[idx].value);
        if op == ">" || op == ">>" {
          redirectFile := tokens[idx + 1];
          redirectAppend := op == ">>";
          tokens[idx] := None;
          tokenCount := idx;
          assert ts[..idx] == ts[..|ts| - 2];
        }
      }
    }

    /** Left arrow. */
    method CursorLeft()
      requires Editing()
      modifies this
      ensures buffer == old(buffer) && tokens == old(tokens) && length == old(length)
      ensures tokenCount == old(tokenCount) && redirectFile == old(redirectFile) && redirectAppend == old(redirectAppend)
      ensures Editing() && State() == MoveLeft(old(State()))
    {
      if cursorPos > 0 {
        cursorPos := cursorPos - 1;
      }
    }

    /** Right arrow. */
    method CursorRight()
      requires Editing()
      modifies this
      ensures buffer == old(buffer) && tokens == old(tokens) && length == old(length)
      ensures tokenCount == old(tokenCount) && redirectFile == old(redirectFile) && redirectAppend == old(redirectAppend)
      ensures Editing() && State() == MoveRight(old(State()))
    {
      if cursorPos < length {
        cursorPos := cursorPos + 1;
      }
    }

    /** myshell_restore_and_display_line: `strncpy` of at most 1023 characters
        (the rest of those 1023 bytes is filled with NUL), a NUL in the last
        byte, then the length is measured and the cursor put at the end. */
    method RestoreLine(line: string)
      requires Valid() && NoNul(line)
      modifies this, buffer
      ensures buffer == old(buffer) && tokens == old(tokens)
      ensures tokenCount == old(tokenCount) && redirectFile == old(redirectFile) && redirectAppend == old(redirectAppend)
      ensures Editing() && State() == Restore(line)
    {
      var i := 0;
      while i < MAX_LINE_LENGTH
        invariant 0 <= i <= MAX_LINE_LENGTH
        invariant forall j :: 0 <= j < i ==> buffer[j] == if j < |line| then line[j] else NUL
        modifies buffer
      {
        buffer[i] := if i < |line| then line[i] else NUL;
        i := i + 1;
      }
      buffer[MAX_LINE_LENGTH] := NUL;
      var n := StrLen();
      ghost var kept := Restore(line).text;
      assert buffer[|kept|] == NUL;
      assert forall j :: 0 <= j < |kept| ==> buffer[j] == line[j] != NUL;
      assert buffer[..n] == kept;
      length := n;
      cursorPos := n;
    }

    /** The empty-draft branch of myshell_history_navigate_down: only the first
        byte, the length and the cursor are reset. */
    method EraseLine()
      requires Valid()
      modifies this, buffer
      ensures buffer == old(buffer) && tokens == old(tokens)
      ensures tokenCount == old(tokenCount) && redirectFile == old(redirectFile) && redirectAppend == old(redirectAppend)
      ensures Editing() && State() == EMPTY_LINE
      ensures buffer[1..] == old(buffer[1..])
    {
      buffer[0] := NUL;
      length := 0;
      cursorPos := 0;
    }

    /** `strlen` of the buffer. */
    method StrLen() returns (n: nat)
      requires buffer.Length == INPUT_BUFFER_SIZE && buffer[MAX_LINE_LENGTH] == NUL
      ensures n <= MAX_LINE_LENGTH && buffer[n] == NUL && NoNul(buffer[..n])
      ensures forall j :: 0 <= j < n ==> buffer[j] != NUL
    {
      n := 0;
      while buffer[n] != NUL
        invariant n <= MAX_LINE_LENGTH && NoNul(buffer[..n])
        decreases MAX_LINE_LENGTH - n
      {
        n := n + 1;
      }
    }
  }
}
