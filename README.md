# myshell core, modelled in Dafny

myshell is a small interactive Unix shell written in C. It reads the terminal
one byte at a time in raw mode and keeps the line being typed in a fixed
1024-byte buffer with a cursor. Arrow keys move the cursor, and Up/Down browse
a ring buffer of earlier commands. Enter splits the line into at most 64
space-separated tokens, with quotes protecting spaces. A trailing `> file` or
`>> file` is taken as an output redirection. The first token is then looked up
in a 128-slot table of builtin commands, hashed with djb2 over at most 20
characters, with no collision handling. A name the table does not hold is
resolved as a program: a literal path when it contains `/`, otherwise the
current directory, otherwise each directory of the `BINPATH` variable. The
program is then run with fork, execv and waitpid. History is saved to and
loaded from a text file, one command per line. The prompt shows the working
directory with `$HOME` shortened to `~`.

The project models this core, one module per concern:

| file | module | what it holds |
|---|---|---|
| `common.dfy` | `Common` | `Option`, character predicates, reading a C string out of a buffer |
| `prompt.dfy` | `Prompt` | the home-shortened working directory of the prompt |
| `hashing.dfy` | `Hashing` | the djb2, FNV-1a and polynomial hashes, as loops proved against their functions |
| `registry.dfy` | `Registry` | the table macros (`HashTable`, `CommandTable`) and the registered builtins |
| `tokenizer.dfy` | `Tokenizer` | what the token scan and the redirection split compute, as functions on the line |
| `line_editor.dfy` | `LineEditor` | the input buffer (`InputLine`): editing keys and the in-place tokenizer, proved against the functions |
| `history.dfy` | `History` | the history ring (`CommandHistory`): add, Up/Down browsing, saving and loading |
| `external_commands.dfy` | `ExternalCommands` | binary path resolution and the fork/exec/wait result |
| `dispatcher.dfy` | `Dispatcher` | what `myshell_process_buffer` does with a parsed line |
| `shell.dfy` | `Shell` | the per-key step `myshell_process_input_char` over the whole shell state (`Session`) |

Code that changes state in place is modelled as classes over arrays:
- the input buffer and the tokens array;
- the history ring;
- the table's 128 entries.

Their methods are proved against pure specification functions, and the
properties are proved about those functions. The key handler is specified per
key by `Shell.Key`. When a key runs a command, the command's fate is given by
`Dispatcher.Dispatch`. The hash functions, the prompt and path resolution are
pure computations. The loops inside the hash functions and inside the
resolver's `BINPATH` search are kept as loops.

Facts about the shipped configuration are proved rather than assumed:
- `quit` and `touch` share djb2 bucket 8. `touch` is registered later, so
  typing `quit` runs the `touch` builtin (`Registry.QuitRunsTouch`,
  `Dispatcher.QuitDispatchesToTouch`).
- A line holding only `> file` reaches the table with a NULL name
  (`Dispatcher.RedirectOnlyLine`).

## Model

| member | source | states |
|---|---|---|
| Prompt.ShortenHome | src/util.c:37-52 | the result is NULL exactly when the working directory cannot be read, and always fits the 1024-byte buffer |
| Prompt.ShortenUnderHome | src/util.c:42-47 | a directory under a non-empty `$HOME` is shown as `~` followed by the rest of the path |
| Prompt.ShortenHomeItself | src/util.c:42-47 | `$HOME` itself is shown as `~` |
| Prompt.ShortenOutsideHome | src/util.c:41-48 | with `HOME` unset, or a directory not starting with it, the directory is shown unchanged |
| Prompt.ShortenWithoutCwd | src/util.c:39-51 | when getcwd fails the result is NULL whatever `HOME` is |
| Prompt.ShortenNoSeparatorBoundary | src/util.c:42 | the prefix test is on characters, not path components: `/home/ab` under home `/home/a` is shown as `~b` |
| Prompt.ShortenEmptyHome | src/util.c:42-46 | an empty `HOME` matches every directory, which gains a leading `~`, truncated to the buffer |
| Prompt.ExpandShortenRoundTrip | src/util.c:42-47 | replacing a leading `~` by `$HOME` gives the original directory back, for a non-empty home and a directory not starting with `~` |
| Hashing.HashedPart | src/hash_table.c:16-24 | at most the first 20 characters take part in a hash, and they are a prefix of the key |
| Hashing.Djb2Step | src/hash_table.c:23 | one djb2 step wraps at the width of `unsigned long` |
| Hashing.Djb2WrapAgreesWithMod128 | src/hash_table.c:14-28 | reducing mod 128 after wrapping at 2^64 gives the same bucket as reducing mod 128 at every step |
| Hashing.HashString | src/hash_table.c:9-29 | the loop computes the djb2 bucket of the first 20 characters (0 for NULL), which is below 128 |
| Hashing.Djb2Hash | src/hash_table.c:9-29 | the djb2 index of a key is below 128, and a NULL key gets 0 |
| Hashing.FnvAgreesWithFnv7 | src/hash_table.c:42-57 | the low 7 bits of the 32-bit FNV-1a hash depend only on the low 7 bits of each step |
| Hashing.HashStringFnv | src/hash_table.c:36-58 | the loop computes the FNV-1a bucket of the first 20 characters (0 for NULL), which is below 128 |
| Hashing.FnvHash | src/hash_table.c:36-58 | the FNV-1a index of a key is below 128, and a NULL key gets 0 |
| Hashing.PolyAccIsPolySum | src/hash_table.c:70-81 | reducing hash and power mod 128 at each step gives the polynomial sum of the weights mod 128 |
| Hashing.HashStringPoly | src/hash_table.c:65-84 | the loop computes the polynomial bucket of the first 20 characters (0 for NULL), which is below 128 |
| Hashing.PolyHash | src/hash_table.c:65-84 | the polynomial index of a key is below 128, and a NULL key gets 0 |
| Hashing.PolyRange | src/hash_table.c:77-83 | the polynomial hash is below 128 |
| Hashing.SharedPrefixSameHash | src/hash_table.c:19-76 | two keys agreeing on their first 20 characters hash alike under all three hashes |
| Hashing.EmptyStringDjb2 | src/hash_table.c:14-28 | the empty key lands in bucket 5381 mod 128 = 5 |
| Hashing.HashesByReference | src/hash_table.c:9-84 | each hash equals its plain mathematical definition over the first 20 characters: djb2 mod 128, FNV over 7 bits from the offset basis's low bits, and the polynomial sum mod 128 |
| Registry.EmptySlots | src/hash_table.h:45-47 | a fresh table holds NULL in every one of its 128 slots |
| Registry.BucketOf | src/hash_table.h:14 | a key's slot is its djb2 index, always below 128 |
| Registry.LookupSlot | src/hash_table.h:61-73 | a lookup reads the slot at the key's djb2 index and compares no names; a NULL key reads slot 0 |
| Registry.InsertSlot | src/hash_table.h:56-59 | an insert puts the command into the slot of its name's bucket and leaves every other slot as it was |
| Registry.InsertAllWritesOwnBuckets | src/myshell.c:172-177 | registering a list changes a slot only by writing into it a command of the list whose name hashes to that slot |
| Registry.LastInBucket | src/myshell.c:172-177 | the builtin left in a bucket is one registered there; an empty bucket means no builtin hashes to it |
| Registry.InsertAllLastWins | src/myshell.c:172-177 | after registering a list, each bucket holds the last command of the list hashing to it, or its old entry if none does |
| Registry.LookupAfterInsert | src/hash_table.h:56-73 | a lookup right after an insert finds the inserted builtin for every key in the same bucket and is unchanged for other buckets |
| Registry.BuiltinBuckets | src/builtin_commands.h:23-37 | the djb2 bucket of each of the 14 builtin names |
| Registry.RegisteredTable | src/myshell.c:172-177 | the registered table, slot by slot: 13 buckets filled, `quit`'s bucket holding `touch` |
| Registry.QuitRunsTouch | src/builtin_commands.h:29-37 | looking up `quit` in the registered table finds the `touch` builtin |
| Registry.NullNameFindsNothing | src/hash_table.h:61-73 | a NULL key looks in bucket 0, which no builtin occupies |
| Registry.HashTable.constructor | src/hash_table.h:38-47 | a new table has 128 NULL slots |
| Registry.CommandTable.constructor | src/myshell.c:22 | the global table pointer starts out NULL |
| Registry.CommandTable.Init | src/hash_table.h:30-49 | initialising a table that already exists aborts and changes nothing; otherwise the pointer is set to a fresh table of NULL slots |
| Registry.CommandTable.Free | src/hash_table.h:51-54 | after freeing, the pointer is NULL |
| Registry.CommandTable.Insert | src/hash_table.h:56-59 | the key's bucket now holds the value and no other slot changes |
| Registry.CommandTable.Lookup | src/hash_table.h:61-73 | a NULL table gives NULL; otherwise the result is the entry in the key's bucket |
| Registry.CommandTable.RegisterBuiltinCommands | src/myshell.c:172-177 | registration aborts if the table exists; otherwise it builds exactly `RegisteredSlots` |
| Tokenizer.Separators | src/myshell.c:680-694 | the cut positions are the unquoted spaces, in increasing order |
| Tokenizer.SeparatorsComplete | src/myshell.c:689-692 | every unquoted space before the scan position is a cut |
| Tokenizer.TokenCount | src/myshell.c:693-715 | at most 64 tokens, and at most one more than the number of cuts |
| Tokenizer.Tokens | src/myshell.c:671-715 | the scan yields exactly `TokenCount` tokens |
| Tokenizer.TokensAreMaximal | src/myshell.c:680-707 | a token holds no unquoted space, and every cut is an unquoted space |
| Tokenizer.JoinTokens | src/myshell.c:671-715 | below the 64-token cap, joining the tokens with single spaces gives the line back, less one trailing space |
| Tokenizer.AdjacentSeparatorsGiveEmptyToken | src/myshell.c:684-694 | two adjacent unquoted spaces produce an empty token between them |
| Tokenizer.TrailingSeparatorGivesNoToken | src/myshell.c:709-712 | a line ending in an unquoted space has no empty last token; the last token ends before that space |
| Tokenizer.SplitRedirect | src/myshell.c:719-735 | a redirection is taken exactly when the next-to-last token is `>` or `>>`; the arguments are then exactly the tokens before the operator, the last token names the file, and the redirection appends exactly for `>>`; otherwise the arguments are all the tokens |
| Tokenizer.UnsplitSplitRedirect | src/myshell.c:719-735 | putting the operator and file back gives the token list unchanged |
| Tokenizer.ParseLine | src/myshell.c:671-735 | the parsed line has at most 64 arguments, and undoing the redirection split gives the scan's tokens |
| LineEditor.Restore | src/myshell.c:403-412 | a restored line is the history text cut to 1023 characters, with the cursor at its end |
| LineEditor.TypeChar | src/myshell.c:590-626 | with room, the key is inserted at the cursor, the text on both sides is kept and the cursor moves past it; a full line (1023 characters) is left unchanged |
| LineEditor.Backspace | src/myshell.c:521-553 | with the cursor past the start, the character before it is removed, the rest is kept and the cursor steps back; at the start nothing changes |
| LineEditor.MoveLeft | src/myshell.c:561-567 | the text is kept and the cursor steps back, stopping at 0 |
| LineEditor.MoveRight | src/myshell.c:568-574 | the text is kept and the cursor steps forward, stopping at the end of the text |
| LineEditor.TypeCharInserts | src/myshell.c:592-621 | with room in the buffer, typing inserts the character at the cursor and advances the cursor |
| LineEditor.FullLineDropsKey | src/myshell.c:593-595 | with 1023 characters in the buffer, a typed character is ignored |
| LineEditor.BackspaceUndoesTypeChar | src/myshell.c:521-621 | Backspace after typing a character restores the line and cursor |
| LineEditor.EditsAtTheEdges | src/myshell.c:523-569 | Backspace and Left do nothing at the start of the line, and Right does nothing at its end |
| LineEditor.ArrowsAreInverse | src/myshell.c:561-574 | Left and Right keep the text, move the cursor by one, and undo each other |
| LineEditor.TypeAllAppends | src/myshell.c:592-603 | typing characters at the end of a line with room appends them |
| LineEditor.InputLine.constructor | src/myshell.c:414-435 | a new input line is empty, its whole buffer NUL-filled, with no tokens |
| LineEditor.InputLine.Clear | src/myshell.c:476-492 | clearing zeroes the whole buffer, empties the line and drops tokens and redirection |
| LineEditor.InputLine.InsertChar | src/myshell.c:590-626 | the buffer changes in place exactly as `TypeChar` says, including the NUL after the text; nothing else changes |
| LineEditor.InputLine.DeleteBeforeCursor | src/myshell.c:521-553 | the buffer changes in place exactly as `Backspace` says, shifting the tail left; nothing else changes |
| LineEditor.InputLine.CursorLeft | src/myshell.c:561-567 | the cursor moves as `MoveLeft` says |
| LineEditor.InputLine.CursorRight | src/myshell.c:568-574 | the cursor moves as `MoveRight` says |
| LineEditor.InputLine.RestoreLine | src/myshell.c:403-412 | the buffer holds `Restore(line)`, NUL-terminated, with the cursor at its end |
| LineEditor.InputLine.EraseLine | src/myshell.c:279-283 | the line becomes empty with the cursor at 0, and only the first byte of the buffer changes |
| LineEditor.InputLine.StrLen | src/myshell.c:508 | the count is the buffer's C-string length: the first NUL, with no NUL before it |
| LineEditor.InputLine.ScanTokens | src/myshell.c:676-715 | the scan cuts the buffer in place so that each recorded token pointer reads back, as a C string, exactly the corresponding `Tokens` entry |
| LineEditor.InputLine.SplitRedirection | src/myshell.c:719-735 | the held tokens and redirection are `SplitRedirect` of the scanned tokens, and the slot after the arguments is NULL |
| LineEditor.InputLine.ExtractTokens | src/myshell.c:671-741 | after tokenizing, the buffer's arguments and redirection read back as `ParseLine` of the line, and the slot after the last argument is NULL |
| History.Oldest | src/myshell.c:233-236 | the oldest reachable entry is at most `size` back from the newest: `count - size` once the ring is full, 0 before |
| History.Select | src/myshell.c:247-257 | showing the browsed entry changes only the line: it becomes `Restore` of the entry, or stays as it was when the slot is NULL |
| History.Reset | src/myshell.c:300-306 | a reset ends browsing and drops the draft, and leaves the ring, the count and the line alone |
| History.Up | src/myshell.c:224-258 | Up keeps the history and count, and leaves a consistent browsing state |
| History.Down | src/myshell.c:261-297 | Down keeps the history and count, and leaves a consistent browsing state |
| History.ArrowsWithoutHistory | src/myshell.c:224-264 | with an empty history both arrows do nothing, and Down does nothing when not browsing |
| History.FirstUpShowsNewest | src/myshell.c:229-257 | the first Up saves the line being typed as the draft and shows the newest entry |
| History.UpStopsAtOldest | src/myshell.c:238-241 | at the oldest kept entry Up does nothing |
| History.UpClamps | src/myshell.c:224-258 | after k presses of Up the index is the newest minus k, but never older than the oldest kept entry |
| History.UpThenDownRestoresDraft | src/myshell.c:224-297 | Up then Down returns to the typed text, with the cursor at its end, and ends browsing |
| History.ResetEndsBrowsing | src/myshell.c:300-306 | after a reset nothing is being browsed and there is no draft; the next Up saves the current line again |
| History.LoadSavedText | src/myshell.c:309-376 | loading the text written by save gives the saved commands back, for commands of 1 to 1023 characters without a newline |
| History.LoadOneLine | src/myshell.c:355-372 | a line of 1 to 1023 characters loads as itself, including a 1023-character line that `fgets` reads in two chunks |
| History.LoadedAppend | src/myshell.c:355-372 | loading chunk by chunk is compositional |
| History.CommandHistory.constructor | src/myshell.c:180-188 | a new history of the given size is empty, with every slot NULL and nothing browsed |
| History.CommandHistory.Init | src/myshell.c:180-188 | initialising empties the history and clears every slot |
| History.CommandHistory.Store | src/myshell.c:205-219 | the command goes into the ring slot after the newest, overwriting the oldest when full, and is logged |
| History.CommandHistory.Add | src/myshell.c:191-221 | a NULL or empty command, or a repeat of the newest entry, is ignored; anything else is stored in the next ring slot |
| History.CommandHistory.SaveCurrentLine | src/myshell.c:395-400 | the draft becomes the buffer's current text |
| History.CommandHistory.StepUp | src/myshell.c:228-249 | the index moves exactly when Up would move it, and then to an entry still kept in the ring |
| History.CommandHistory.ShowSelected | src/myshell.c:250-257 | the buffer shows the selected entry as `Restore` says |
| History.CommandHistory.NavigateUp | src/myshell.c:224-258 | the history and buffer change as `Up` says; when the index moves the buffer shows that entry |
| History.CommandHistory.NavigateDown | src/myshell.c:261-297 | the history and buffer change as `Down` says: a newer entry, or the draft and the end of browsing |
| History.CommandHistory.ResetNavigation | src/myshell.c:300-306 | browsing ends and the draft is dropped; the log is unchanged |
| History.CommandHistory.SaveLines | src/myshell.c:309-336 | the lines written are the kept entries, oldest first: the last `size` commands |
| History.CommandHistory.LoadChunk | src/myshell.c:360-371 | one fgets chunk, with its newline stripped, is added when it is not empty |
| History.CommandHistory.LoadLines | src/myshell.c:339-376 | the log grows by exactly the non-empty lines read, newline stripped |
| ExternalCommands.ClipPath | src/external_commands.c:41-70 | `snprintf` into a `PATH_MAX` buffer keeps a prefix shorter than 4096 and leaves short paths whole |
| ExternalCommands.Strtok | src/external_commands.c:67-78 | a `strtok_r` step skips colons, and any token it returns is non-empty and colon-free |
| ExternalCommands.Segments | src/external_commands.c:66-79 | the directories searched are non-empty and colon-free |
| ExternalCommands.SegmentsOfJoin | src/external_commands.c:66-79 | a `BINPATH` made by joining non-empty, colon-free directories with `:` is split back into those directories |
| ExternalCommands.LeadingColonSkipped | src/external_commands.c:67 | empty fields are skipped: a leading `:` adds no directory |
| ExternalCommands.FirstExecutable | src/external_commands.c:69-80 | the search returns an executable `dir/command` candidate, and returns nothing exactly when no directory holds one |
| ExternalCommands.EarliestDirectoryWins | src/external_commands.c:69-77 | when a directory holds the command and no earlier one does, the search returns that directory's candidate |
| ExternalCommands.Resolve | src/external_commands.c:19-84 | a NULL command or a missing output buffer resolves to nothing |
| ExternalCommands.SlashMeansLiteralPath | src/external_commands.c:27-37 | a name with `/` is resolved on its own, independent of the rest of the file system, and only when it is executable and canonicalisable |
| ExternalCommands.CurrentDirectoryWins | src/external_commands.c:39-49 | a name without `/` that is executable as `./name` resolves to that file's canonical path |
| ExternalCommands.NoBinpathNotFound | src/external_commands.c:52-56 | when not in the current directory and `BINPATH` is unset, the command is not found |
| ExternalCommands.BinpathSearch | src/external_commands.c:58-83 | otherwise the first `BINPATH` directory holding the command gives `dir/command`, not canonicalised |
| ExternalCommands.ResolveBinaryPath | src/external_commands.c:19-84 | the imperative search, with its `strtok_r` loop, computes `Resolve` |
| ExternalCommands.StatusResult | src/external_commands.c:129-142 | a normal exit gives its code (0..255), a signal gives 128 plus the signal number (129..254), and anything else gives -1 |
| ExternalCommands.ExternalFailsIff | src/external_commands.c:91-143 | the result is negative exactly when there is no name, resolution fails, fork or waitpid fails, or the child neither exited nor was signalled; otherwise it is the status result |
| ExternalCommands.ExecFailureIs127 | src/external_commands.c:113-120 | a resolved program whose execv fails reports 127 |
| ExternalCommands.ExternalResult | src/external_commands.c:91-143 | the result lies in -1..255; a NULL name, a failed resolution, or a failed fork or waitpid gives -1 |
| ExternalCommands.ResultsOverlap | src/external_commands.c:119-139 | the result cannot tell exit 130 from SIGINT, or a failed execv from a program exiting 127 |
| ExternalCommands.ExecuteExternal | src/external_commands.c:91-143 | the method returns `ExternalResult`, and its only negative value is -1 |
| Dispatcher.CommandName | src/myshell.c:647-655 | the name passed on is NULL exactly when the line has no arguments, else the first argument |
| Dispatcher.FindBuiltin | src/myshell.c:645-647 | with a NULL table pointer nothing is found; otherwise the result is whatever the name's bucket holds |
| Dispatcher.Dispatch | src/myshell.c:630-669 | nothing runs exactly when a redirection was asked for and failed; a builtin runs exactly when the table holds the name; an external run reports a code of at least 0; "unknown command" carries the first token |
| Dispatcher.BuiltinBeforeExternal | src/myshell.c:645-651 | a builtin hit runs the builtin, whatever the file system holds |
| Dispatcher.UnknownCommandIff | src/myshell.c:652-661 | "unknown command" is reported exactly when the table misses and the external runner fails, including a failed fork or waitpid |
| Dispatcher.RedirectOnlyLine | src/myshell.c:640-661 | a line of only `> file` has no arguments and reports an unknown NULL command, or nothing when the redirection fails |
| Dispatcher.QuitDispatchesToTouch | src/myshell.c:645-651 | typing `quit` runs the `touch` builtin |
| Shell.LeaveBrowsing | src/myshell.c:500-502 | any key but ESC ends browsing, keeping the history consistent |
| Shell.Act | src/myshell.c:505-627 | a key never changes the stored history, only the line and the browsing position |
| Shell.Key | src/myshell.c:496-628 | a key other than a submitting Enter leaves browsing unless it is ESC, then acts, and keeps the ring and the count |
| Shell.TypingEndsBrowsing | src/myshell.c:500-502 | a key other than ESC, pressed while browsing, ends browsing and drops the draft |
| Shell.OtherEscapesIgnored | src/myshell.c:554-584 | ESC followed by anything but `[A`, `[B`, `[C` or `[D` changes nothing, not even browsing |
| Shell.ArrowUpThenDown | src/myshell.c:575-583 | Up then Down gives back the typed text, with the cursor at its end, and ends browsing |
| Shell.TypeThenBackspace | src/myshell.c:521-626 | typing a printable key and then Backspace restores the line exactly |
| Shell.Session.constructor | src/myshell.c:414-435 | start-up gives an empty line, a history ring of the configured size holding what was loaded from the file when there is one, and exactly the registered builtin table |
| Shell.Session.ProcessBuffer | src/myshell.c:630-669 | processing a line has the outcome `Dispatch` gives for `ParseLine` of the line, and leaves the buffer tokenized in place: its arguments and redirection read back as `ParseLine` of the line, with length and cursor unchanged |
| Shell.Session.LogLine | src/myshell.c:513-516 | Enter adds the line to the history unless `Add` skips it, and ends browsing |
| Shell.Session.RunLine | src/myshell.c:517-518 | the line is run as `Dispatch` decides, then the buffer is cleared |
| Shell.Session.Submit | src/myshell.c:506-520 | Enter on a non-empty line logs it, runs it, and leaves an empty line |
| Shell.Session.Escape | src/myshell.c:554-584 | the arrow keys change the line and browsing state as `Act` says for ESC |
| Shell.Session.EditKey | src/myshell.c:521-626 | every key but Enter changes the line and browsing state as `Act` says and never changes the stored history |
| Shell.Session.ProcessInputChar | src/myshell.c:496-628 | Enter on a non-empty line yields the `Dispatch` outcome, logs the line as `Add` says and leaves an empty line; any other key yields no outcome, keeps the history and acts as `Key` says |

## Left out

- Terminal I/O is not modelled. This covers raw mode (`myshell_set_raw_mode`, `myshell_restore_terminal`), reading bytes, and all echo and redraw output (`myshell_write_to_terminal`, the prompt and banner). A key is a parameter of `ProcessInputChar`, and the two bytes after ESC are parameters too.
- The prompt loop (`myshell_do_prompt_loop`), `main.c`, argument parsing (`myshell_parse_args`, `myshell_show_usage`), the signal handlers and `myshell_abort` are outside the core and not modelled. `myshell_clear_current_line` only writes escape codes to the terminal, so it is not modelled either.
- The builtin command handlers (`builtin_commands.c`) are not part of this model. A builtin is identified by its name and handler tag, and running it is the outcome `RanBuiltin`.
- Output redirection (`output_redirection.c`) is not part of this model. Whether it can be set up is the `redirectOk` flag of a `World`, and restoring stdout is not modelled.
- The system calls are oracles in a `FileSystem` value and a `ChildRun` value: `access(X_OK)` is membership in `executable`, `realpath` is a partial map, `getenv("BINPATH")` is an optional string, and fork/execv/waitpid give one fixed `ChildRun`. The child's own run and the `printf` of the signal number are not modelled.
- ExternalCommands.ResolveBinaryPath: returns the resolved path as an `Option` instead of 0/-1 plus an output buffer. The buffer's contents after a failed search are not modelled, and a `strdup` failure is not modelled.
- Allocation failure is not modelled: `malloc` in the table init, `strdup` in history add and load, and the `abort` on a failed table allocation.
- Opening, reading and closing the history file are not modelled. Saving produces the file's text (`SaveText`), and loading takes the sequence of `fgets` chunks (`Fgets` gives them for a text).
- The history size `MYSHELL_HISTORY_SIZE` is a constructor parameter rather than a fixed constant.
- The `unsigned int` history count is an unbounded `nat`: its wrap-around after 2^32 commands is not modelled.
- Characters are ASCII (0..127). The sign extension that plain `char` gives bytes above 127 in the hashes and the tokenizer is not modelled.
- Dispatcher.Dispatch: the `handler != NULL` test is not modelled because every registered builtin has a handler. The `printf` of a NULL name for a `> file` line is only the outcome `UnknownCommand(None)`.
- LineEditor.InputLine.ExtractTokens: states that the slot after the last argument is NULL only when fewer than 64 tokens were kept. With 64 tokens, `tokens[]` has no NULL terminator for `argv`, and a run of external commands with such an argument vector is not modelled.
- Tokenizing is modelled on a freshly cleared token array, since `myshell_clear_input_buffer` resets the count before every line.

