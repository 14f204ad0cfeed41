/** The builtin-command table: a 128-slot array indexed by the djb2 bucket of the
    command name (MYSHELL_HASH_TABLE_INIT / INSERT / LOOKUP / FREE), and its
    one-time filling from the static list of builtins. A slot holds at most one
    command, an insert overwrites whatever the slot held, and a lookup returns
    the slot of the key's bucket without comparing names. */
module Registry {
  import opened Common
  import opened Hashing

  /** The command handlers of the shell; each is a function pointer in C. */
  datatype Handler =
    | HelpHandler | EchoHandler | VersionHandler | ClearHandler | ExitHandler
    | CdHandler | PwdHandler | SetHandler | UnsetHandler | EnvHandler
    | LsHandler | CatHandler | TouchHandler

  /** An element of the static builtin list: a name and its handler. */
  datatype Builtin = Builtin(name: string, handler: Handler)

  /** The builtin list in declaration order; `exit` and `quit` share a handler. */
  const BUILTINS: seq<Builtin> := [
    Builtin("help", HelpHandler),
    Builtin("echo", EchoHandler),
    Builtin("version", VersionHandler),
    Builtin("clear", ClearHandler),
    Builtin("exit", ExitHandler),
    Builtin("quit", ExitHandler),
    Builtin("cd", CdHandler),
    Builtin("pwd", PwdHandler),
    Builtin("set", SetHandler),
    Builtin("unset", UnsetHandler),
    Builtin("env", EnvHandler),
    Builtin("ls", LsHandler),
    Builtin("cat", CatHandler),
    Builtin("touch", TouchHandler)
  ]

  // ---------------------------------------------------------------------------
  // The table as a value

  type Slots = s: seq<Option<Builtin>> | |s| == TABLE_SIZE witness seq(TABLE_SIZE, _ => None)

  function EmptySlots(): (r: Slots)
    ensures forall b :: 0 <= b < TABLE_SIZE ==> r[b] == None
  {
    seq(TABLE_SIZE, _ => None)
  }

  /** Bucket of a key: the djb2 hash (a NULL key hashes to 0). */
  function BucketOf(key: Option<string>): (b: nat)
    ensures b < TABLE_SIZE
  {
    Djb2Hash(key)
  }

  /** A slot whose bucket the key hashes to; the stored name is not compared. */
  function LookupSlot(slots: Slots, key: Option<string>): (r: Option<Builtin>)
    ensures r == slots[Djb2Hash(key)]
    ensures key.None? ==> r == slots[0]
  {
    slots[BucketOf(key)]
  }

  /** An insert overwrites the slot of the name's bucket and no other. */
  function InsertSlot(slots: Slots, cmd: Builtin): (r: Slots)
    ensures r[BucketOf(Some(cmd.name))] == Some(cmd)
    ensures forall b :: 0 <= b < TABLE_SIZE && b != BucketOf(Some(cmd.name)) ==> r[b] == slots[b]
  {
    slots[BucketOf(Some(cmd.name)) := Some(cmd)]
  }

  /** The slots after inserting `cmds` in order. */
  function InsertAll(slots: Slots, cmds: seq<Builtin>): Slots
    decreases |cmds|
  {
    if cmds == [] then slots else InsertSlot(InsertAll(slots, cmds[..|cmds| - 1]), cmds[|cmds| - 1])
  }

  /** Registration changes a slot only by writing into it one of the inserted
      commands, one whose name hashes to that slot. */
  lemma {:induction false} InsertAllWritesOwnBuckets(slots: Slots, cmds: seq<Builtin>, b: nat)
    requires b < TABLE_SIZE && InsertAll(slots, cmds)[b] != slots[b]
    ensures InsertAll(slots, cmds)[b].Some?
    ensures InsertAll(slots, cmds)[b].value in cmds && BucketOf(Some(InsertAll(slots, cmds)[b].value.name)) == b
    decreases |cmds|
  {
    var init, last := cmds[..|cmds| - 1], cmds[|cmds| - 1];
    if BucketOf(Some(last.name)) != b {
      InsertAllWritesOwnBuckets(slots, init, b);
      assert InsertAll(slots, cmds)[b].value in init;
    }
  }

  /** The table the shell runs with. */
  function RegisteredSlots(): Slots {
    InsertAll(EmptySlots(), BUILTINS)
  }

  /** The last command of `cmds` whose name falls into bucket `b`, if any. */
  function LastInBucket(cmds: seq<Builtin>, b: nat): (r: Option<Builtin>)
    ensures r.Some? ==> r.value in cmds && BucketOf(Some(r.value.name)) == b
    ensures r.None? ==> forall c :: c in cmds ==> BucketOf(Some(c.name)) != b
    decreases |cmds|
  {
    if cmds == [] then None
    else
      var last := cmds[|cmds| - 1];
      if BucketOf(Some(last.name)) == b then Some(last)
      else
        var r := LastInBucket(cmds[..|cmds| - 1], b);
        assert forall c :: c in cmds ==> c in cmds[..|cmds| - 1] || c == last;
        r
  }

  /** Insert overwrites: each slot ends up holding the LAST command that hashed
      to it, and a slot no command hashed to keeps what it held. */
  lemma {:induction false} InsertAllLastWins(slots: Slots, cmds: seq<Builtin>, b: nat)
    requires b < TABLE_SIZE
    ensures InsertAll(slots, cmds)[b] == (if LastInBucket(cmds, b).Some? then LastInBucket(cmds, b) else slots[b])
    decreases |cmds|
  {
    if cmds != [] {
      InsertAllLastWins(slots, cmds[..|cmds| - 1], b);
    }
  }

  /** After inserting `v` under `k`, looking up `k`, or any key of the same
      bucket, yields `v`; every other slot is as before. */
  lemma LookupAfterInsert(slots: Slots, v: Builtin, key: Option<string>)
    ensures BucketOf(key) == BucketOf(Some(v.name)) ==> LookupSlot(InsertSlot(slots, v), key) == Some(v)
    ensures BucketOf(key) != BucketOf(Some(v.name)) ==> LookupSlot(InsertSlot(slots, v), key) == LookupSlot(slots, key)
  {
  }

  // ---------------------------------------------------------------------------
  // The buckets of the builtin names

  lemma BuiltinBuckets()
    ensures BucketOf(Some("help")) == 110 && BucketOf(Some("echo")) == 68
    ensures BucketOf(Some("version")) == 75 && BucketOf(Some("clear")) == 12
    ensures BucketOf(Some("exit")) == 63 && BucketOf(Some("quit")) == 8
    ensures BucketOf(Some("cd")) == 108 && BucketOf(Some("pwd")) == 16
    ensures BucketOf(Some("set")) == 17 && BucketOf(Some("unset")) == 116
    ensures BucketOf(Some("env")) == 46 && BucketOf(Some("ls")) == 36
    ensures BucketOf(Some("cat")) == 125 && BucketOf(Some("touch")) == 8
  {
    HelpBucket(); EchoBucket(); VersionBucket(); ClearBucket(); ExitBucket(); QuitBucket(); CdBucket(); PwdBucket(); SetBucket(); UnsetBucket(); EnvBucket(); LsBucket(); CatBucket(); TouchBucket();
  }

  /** A name of at most 20 characters lands in the bucket its reduced djb2 gives. */
  lemma BucketByMod128(s: string, b: nat)
    requires |s| <= MAX_HASH_INPUT_LENGTH
    requires Djb2Mod128(s, |s|) == b
    ensures BucketOf(Some(s)) == b
  {
    assert HashedPart(s) == s;
    Djb2WrapAgreesWithMod128(s, |s|);
  }

  lemma HelpBucket()
    ensures BucketOf(Some("help")) == 110
  {
    var s := "help";
    assert Djb2Mod128(s, 1) == 13;
    assert Djb2Mod128(s, 2) == 18;
    assert Djb2Mod128(s, 3) == 62;
    BucketByMod128(s, 110);
  }

  lemma EchoBucket()
    ensures BucketOf(Some("echo")) == 68
  {
    var s := "echo";
    assert Djb2Mod128(s, 1) == 10;
    assert Djb2Mod128(s, 2) == 45;
    assert Djb2Mod128(s, 3) == 53;
    BucketByMod128(s, 68);
  }

  lemma VersionBucket()
    ensures BucketOf(Some("version")) == 75
  {
    var s := "version";
    assert Djb2Mod128(s, 1) == 27;
    assert Djb2Mod128(s, 2) == 96;
    assert Djb2Mod128(s, 3) == 82;
    assert Djb2Mod128(s, 4) == 5;
    assert Djb2Mod128(s, 5) == 14;
    assert Djb2Mod128(s, 6) == 61;
    BucketByMod128(s, 75);
  }

  lemma ClearBucket()
    ensures BucketOf(Some("clear")) == 12
  {
    var s := "clear";
    assert Djb2Mod128(s, 1) == 8;
    assert Djb2Mod128(s, 2) == 116;
    assert Djb2Mod128(s, 3) == 89;
    assert Djb2Mod128(s, 4) == 90;
    BucketByMod128(s, 12);
  }

  lemma ExitBucket()
    ensures BucketOf(Some("exit")) == 63
  {
    var s := "exit";
    assert Djb2Mod128(s, 1) == 10;
    assert Djb2Mod128(s, 2) == 66;
    assert Djb2Mod128(s, 3) == 107;
    BucketByMod128(s, 63);
  }

  lemma QuitBucket()
    ensures BucketOf(Some("quit")) == 8
  {
    var s := "quit";
    assert Djb2Mod128(s, 1) == 22;
    assert Djb2Mod128(s, 2) == 75;
    assert Djb2Mod128(s, 3) == 20;
    BucketByMod128(s, 8);
  }

  lemma CdBucket()
    ensures BucketOf(Some("cd")) == 108
  {
    var s := "cd";
    assert Djb2Mod128(s, 1) == 8;
    BucketByMod128(s, 108);
  }

  lemma PwdBucket()
    ensures BucketOf(Some("pwd")) == 16
  {
    var s := "pwd";
    assert Djb2Mod128(s, 1) == 21;
    assert Djb2Mod128(s, 2) == 44;
    BucketByMod128(s, 16);
  }

  lemma SetBucket()
    ensures BucketOf(Some("set")) == 17
  {
    var s := "set";
    assert Djb2Mod128(s, 1) == 24;
    assert Djb2Mod128(s, 2) == 125;
    BucketByMod128(s, 17);
  }

  lemma UnsetBucket()
    ensures BucketOf(Some("unset")) == 116
  {
    var s := "unset";
    assert Djb2Mod128(s, 1) == 26;
    assert Djb2Mod128(s, 2) == 72;
    assert Djb2Mod128(s, 3) == 59;
    assert Djb2Mod128(s, 4) == 0;
    BucketByMod128(s, 116);
  }

  lemma EnvBucket()
    ensures BucketOf(Some("env")) == 46
  {
    var s := "env";
    assert Djb2Mod128(s, 1) == 10;
    assert Djb2Mod128(s, 2) == 56;
    BucketByMod128(s, 46);
  }

  lemma LsBucket()
    ensures BucketOf(Some("ls")) == 36
  {
    var s := "ls";
    assert Djb2Mod128(s, 1) == 17;
    BucketByMod128(s, 36);
  }

  lemma CatBucket()
    ensures BucketOf(Some("cat")) == 125
  {
    var s := "cat";
    assert Djb2Mod128(s, 1) == 8;
    assert Djb2Mod128(s, 2) == 105;
    BucketByMod128(s, 125);
  }

  lemma TouchBucket()
    ensures BucketOf(Some("touch")) == 8
  {
    var s := "touch";
    assert Djb2Mod128(s, 1) == 25;
    assert Djb2Mod128(s, 2) == 40;
    assert Djb2Mod128(s, 3) == 29;
    assert Djb2Mod128(s, 4) == 32;
    BucketByMod128(s, 8);
  }

  /** Inserting one more command of a list extends the table by that command. */
  lemma InsertPrefixStep(slots: Slots, cmds: seq<Builtin>, k: nat)
    requires k < |cmds|
    ensures InsertAll(slots, cmds[..k + 1]) == InsertSlot(InsertAll(slots, cmds[..k]), cmds[k])
  {
    assert cmds[..k + 1][..k] == cmds[..k];
  }

  /** Registering builtins 0 and 1 writes their buckets. */
  lemma RegisteredSegment0()
    ensures InsertAll(EmptySlots(), BUILTINS[..2]) == InsertAll(EmptySlots(), BUILTINS[..0])[110 := Some(BUILTINS[0])][68 := Some(BUILTINS[1])]
  {
    HelpBucket(); EchoBucket();
    InsertPrefixStep(EmptySlots(), BUILTINS, 0);
    InsertPrefixStep(EmptySlots(), BUILTINS, 1);
  }

  /** Registering builtins 2 and 3 writes their buckets. */
  lemma RegisteredSegment2()
    ensures InsertAll(EmptySlots(), BUILTINS[..4]) == InsertAll(EmptySlots(), BUILTINS[..2])[75 := Some(BUILTINS[2])][12 := Some(BUILTINS[3])]
  {
    VersionBucket(); ClearBucket();
    InsertPrefixStep(EmptySlots(), BUILTINS, 2);
    InsertPrefixStep(EmptySlots(), BUILTINS, 3);
  }

  /** Registering builtins 4 to 6 writes their buckets. */
  lemma RegisteredSegment4()
    ensures InsertAll(EmptySlots(), BUILTINS[..7]) == InsertAll(EmptySlots(), BUILTINS[..4])[63 := Some(BUILTINS[4])][8 := Some(BUILTINS[5])][108 := Some(BUILTINS[6])]
  {
    ExitBucket(); QuitBucket(); CdBucket();
    InsertPrefixStep(EmptySlots(), BUILTINS, 4);
    InsertPrefixStep(EmptySlots(), BUILTINS, 5);
    InsertPrefixStep(EmptySlots(), BUILTINS, 6);
  }

  /** Registering builtins 7 to 10 writes their buckets. */
  lemma RegisteredSegment7()
    ensures InsertAll(EmptySlots(), BUILTINS[..11]) == InsertAll(EmptySlots(), BUILTINS[..7])[16 := Some(BUILTINS[7])][17 := Some(BUILTINS[8])][116 := Some(BUILTINS[9])][46 := Some(BUILTINS[10])]
  {
    PwdBucket(); SetBucket(); UnsetBucket(); EnvBucket();
    InsertPrefixStep(EmptySlots(), BUILTINS, 7);
    InsertPrefixStep(EmptySlots(), BUILTINS, 8);
    InsertPrefixStep(EmptySlots(), BUILTINS, 9);
    InsertPrefixStep(EmptySlots(), BUILTINS, 10);
  }

  /** Registering builtins 11 to 13 writes their buckets. */
  lemma RegisteredSegment11()
    ensures InsertAll(EmptySlots(), BUILTINS[..14]) == InsertAll(EmptySlots(), BUILTINS[..11])[36 := Some(BUILTINS[11])][125 := Some(BUILTINS[12])][8 := Some(BUILTINS[13])]
  {
    LsBucket(); CatBucket(); TouchBucket();
    InsertPrefixStep(EmptySlots(), BUILTINS, 11);
    InsertPrefixStep(EmptySlots(), BUILTINS, 12);
    InsertPrefixStep(EmptySlots(), BUILTINS, 13);
  }

  /** The table the shell runs with, slot by slot: the builtins in order, each
      written to its bucket, so that `touch` overwrites `quit` in bucket 8. */
  lemma RegisteredTable()
    ensures RegisteredSlots() == EmptySlots()[110 := Some(BUILTINS[0])][68 := Some(BUILTINS[1])][75 := Some(BUILTINS[2])][12 := Some(BUILTINS[3])][63 := Some(BUILTINS[4])][8 := Some(BUILTINS[5])][108 := Some(BUILTINS[6])][16 := Some(BUILTINS[7])][17 := Some(BUILTINS[8])][116 := Some(BUILTINS[9])][46 := Some(BUILTINS[10])][36 := Some(BUILTINS[11])][125 := Some(BUILTINS[12])][8 := Some(BUILTINS[13])]
  {
    assert BUILTINS[..0] == [] && BUILTINS[..14] == BUILTINS;
    RegisteredSegment0();
    RegisteredSegment2();
    RegisteredSegment4();
    RegisteredSegment7();
    RegisteredSegment11();
  }

  /** `quit` and `touch` share bucket 8 and `touch` is registered later, so the
      command `quit` finds the `touch` entry and runs the touch handler. */
  lemma QuitRunsTouch()
    ensures LookupSlot(RegisteredSlots(), Some("quit")) == Some(Builtin("touch", TouchHandler))
  {
    RegisteredTable();
    QuitBucket();
  }

  /** Bucket 0, where a NULL name is looked up, holds no builtin. */
  lemma NullNameFindsNothing()
    ensures LookupSlot(RegisteredSlots(), None) == None
  {
    RegisteredTable();
  }

  // ---------------------------------------------------------------------------
  // The table in the heap

  /** myshell_hash_table_t: 128 entry pointers. */
  class HashTable {
    var entries: array<Option<Builtin>>

    ghost predicate Valid()
      reads this
    {
      entries.Length == TABLE_SIZE
    }

    ghost function Contents(): Slots
      reads this, entries
      requires Valid()
    {
      entries[..]
    }

    /** The allocation and NULL-filling loop of MYSHELL_HASH_TABLE_INIT. */
    constructor ()
      ensures Valid() && fresh(entries)
      ensures Contents() == EmptySlots()
    {
      var a := new Option<Builtin>[TABLE_SIZE];
      var i := 0;
      while i < TABLE_SIZE
        invariant 0 <= i <= TABLE_SIZE
        invariant forall j :: 0 <= j < i ==> a[j] == None
      {
        a[i] := None;
        i := i + 1;
      }
      entries := a;
    }
  }

  /** The table pointer `myshell_builtin_command_table_ptr`, NULL until INIT. */
  class CommandTable {
    var table: HashTable?

    ghost predicate Valid()
      reads this, table
    {
      table != null ==> table.Valid()
    }

    constructor ()
      ensures table == null
    {
      table := null;
    }

    /** MYSHELL_HASH_TABLE_INIT: aborts the process when the table already exists,
        otherwise allocates a table whose 128 slots are all NULL. */
    method Init() returns (aborted: bool)
      modifies this
      ensures aborted <==> old(table) != null
      ensures aborted ==> table == old(table)
      ensures !aborted ==> table != null && fresh(table) && fresh(table.entries)
      ensures !aborted ==> table.Valid() && table.Contents() == EmptySlots()
    {
      if table != null {
        return true;
      }
      table := new HashTable();
      aborted := false;
    }

    /** MYSHELL_HASH_TABLE_FREE. */
    method Free()
      modifies this
      ensures table == null
    {
      table := null;
    }

    /** MYSHELL_HASH_TABLE_INSERT: writes the key's bucket and nothing else. */
    method Insert(key: string, value: Builtin)
      requires table != null && table.Valid()
      requires key == value.name
      modifies table.entries
      ensures table.Valid()
      ensures table.Contents() == InsertSlot(old(table.Contents()), value)
    {
      var index := HashString(Some(key));
      table.entries[index] := Some(value);
    }

    /** MYSHELL_HASH_TABLE_LOOKUP: NULL when there is no table, otherwise the
        entry of the key's bucket, whoever was stored there. */
    method Lookup(key: Option<string>) returns (result: Option<Builtin>)
      requires Valid()
      ensures table == null ==> result == None
      ensures table != null ==> result == LookupSlot(table.Contents(), key)
    {
      if table == null {
        return None;
      }
      var index := HashString(key);
      result := table.entries[index];
    }

    /** myshell_register_builtin_commands: INIT, then INSERT of every builtin in order. */
    method RegisterBuiltinCommands() returns (aborted: bool)
      modifies this
      ensures aborted <==> old(table) != null
      ensures !aborted ==> table != null && fresh(table) && table.Valid()
      ensures !aborted ==> table.Contents() == RegisteredSlots()
    {
      aborted := Init();
      if aborted {
        return;
      }
      var i := 0;
      while i < |BUILTINS|
        invariant 0 <= i <= |BUILTINS|
        invariant table != null && fresh(table) && table.Valid()
        invariant table.Contents() == InsertAll(EmptySlots(), BUILTINS[..i])
        modifies table.entries
      {
        InsertPrefixStep(EmptySlots(), BUILTINS, i);
        Insert(BUILTINS[i].name, BUILTINS[i]);
        i := i + 1;
      }
      assert BUILTINS[..i] == BUILTINS;
    }
  }
}
