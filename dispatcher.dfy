/** What myshell_process_buffer does with a tokenized line. If the line asks
    for a redirection and setting it up fails, nothing runs. Otherwise the
    first token is looked up in the builtin table, and a hit runs that
    builtin. A miss is passed to the external runner, and a negative result
    there is reported as an unknown command. The redirection's success, the
    file system and the child's fate are given as a `World`. */
module Dispatcher {
  import opened Common
  import opened Tokenizer
  import opened Registry
  import opened ExternalCommands

  /** What the shell cannot decide itself: whether the output redirection can
      be set up, the file system the resolver probes, and how the child runs. */
  datatype World = World(redirectOk: bool, fs: FileSystem, run: ChildRun)

  /** What processing a line leads to. */
  datatype Outcome =
    | RedirectFailed
    | RanBuiltin(command: Builtin)
    | RanExternal(code: int)
    | UnknownCommand(name: Option<string>)

  /** `tokens[0]`: the first argument, or NULL when the line has none (which
      is the case for a line holding only `> file`). */
  function CommandName(line: CommandLine): (r: Option<string>)
    ensures r.None? <==> line.args == []
    ensures r.Some? ==> r.value == line.args[0]
  {
    if |line.args| > 0 then Some(line.args[0]) else None
  }

  /** MYSHELL_HASH_TABLE_LOOKUP on a table pointer that may be NULL. */
  function FindBuiltin(table: Option<Slots>, name: Option<string>): (r: Option<Builtin>)
    ensures table.None? ==> r.None?
    ensures table.Some? ==> r == table.value[BucketOf(name)]
  {
    if table.None? then None else LookupSlot(table.value, name)
  }

  /** The decision of myshell_process_buffer. Every builtin has a handler, so
      the `handler != NULL` test never fails. */
  function Dispatch(line: CommandLine, table: Option<Slots>, world: World): (r: Outcome)
    ensures r.RedirectFailed? <==> line.redirect.Some? && !world.redirectOk
    ensures r.RanBuiltin? <==> !r.RedirectFailed? && FindBuiltin(table, CommandName(line)).Some?
    ensures r.RanBuiltin? ==> FindBuiltin(table, CommandName(line)) == Some(r.command)
    ensures r.RanExternal? ==> r.code >= 0
    ensures r.UnknownCommand? ==> r.name == CommandName(line)
  {
    if line.redirect.Some? && !world.redirectOk then RedirectFailed
    else
      var name := CommandName(line);
      var builtin := FindBuiltin(table, name);
      if builtin.Some? then RanBuiltin(builtin.value)
      else
        var result := ExternalResult(name, world.fs, world.run);
        if result < 0 then UnknownCommand(name) else RanExternal(result)
  }

  /** A name found in the table runs the builtin, whatever executables the
      file system holds and whatever a child would do. */
  lemma BuiltinBeforeExternal(line: CommandLine, table: Option<Slots>, world: World, fs: FileSystem, run: ChildRun)
    requires !(line.redirect.Some? && !world.redirectOk)
    requires FindBuiltin(table, CommandName(line)).Some?
    ensures Dispatch(line, table, world) == RanBuiltin(FindBuiltin(table, CommandName(line)).value)
    ensures Dispatch(line, table, world) == Dispatch(line, table, World(world.redirectOk, fs, run))
  {
  }

  /** "Unknown command" is reported exactly when the table misses and the
      external runner fails, which includes a failed fork or waitpid. */
  lemma UnknownCommandIff(line: CommandLine, table: Option<Slots>, world: World)
    requires !(line.redirect.Some? && !world.redirectOk)
    ensures Dispatch(line, table, world).UnknownCommand? <==>
      FindBuiltin(table, CommandName(line)).None?
      && (CommandName(line).None? || Resolve(CommandName(line), true, world.fs).None?
          || world.run.ForkFails? || world.run.WaitFails?
          || (world.run.Waited? && world.run.status.Neither?))
  {
    ExternalFailsIff(CommandName(line), world.fs, world.run);
  }

  /** A line of only `> file`: after the redirection is split off no argument
      is left, `tokens[0]` is NULL, its bucket 0 holds no builtin, and the
      external runner refuses a NULL name, so the shell reports an unknown
      command (or nothing runs, when the redirection cannot be set up). */
  lemma RedirectOnlyLine(file: string, append: bool, world: World)
    ensures var line := SplitRedirect([if append then ">>" else ">", file]);
      line.args == []
      && Dispatch(line, Some(RegisteredSlots()), world) == (if world.redirectOk then UnknownCommand(None) else RedirectFailed)
  {
    NullNameFindsNothing();
  }

  /** Typing `quit` runs the touch builtin, which took over bucket 8. */
  lemma QuitDispatchesToTouch(args: seq<string>, world: World)
    requires |args| > 0 && args[0] == "quit"
    ensures Dispatch(CommandLine(args, None), Some(RegisteredSlots()), world) == RanBuiltin(Builtin("touch", TouchHandler))
  {
    QuitRunsTouch();
  }
}
