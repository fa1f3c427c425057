/**
 * The dispatch lifecycle of console.py: the keyword table of the five
 * commands, `precmd` binding a command line's tokens into the shared token
 * table, `postcmd` clearing them, and the bounded command history.  The
 * tokenizer's result and the history file's lines are inputs; what the
 * console would write to the history file is returned.
 */
module Console {
  import opened PyValues
  import opened Storage
  import opened Commands

  /** `__MAX_HIS` */
  const MaxHistory: nat := 100

  /** `__airbnb_commands`: keyword to command class. */
  const CommandKinds: map<string, Kind> := map[
    "create" := CreateKind,
    "show" := ShowKind,
    "destroy" := DestroyKind,
    "all" := AllKind,
    "update" := UpdateKind
  ]

  /** What `parse_line` yields: the tokens of `shlex.split`, or the text of
      the ValueError it raised. */
  datatype Tokenized = Tokens(tokens: seq<string>) | SplitError(message: string)

  // ---------------------------------------------------------------------
  // The history buffer

  /** The last `n` elements of `s`, all of `s` when it is shorter. */
  function KeepLast<T>(s: seq<T>, n: nat): (r: seq<T>)
    ensures |r| == (if |s| <= n then |s| else n)
    ensures r == s[|s| - |r|..]
  {
    if |s| <= n then s else s[|s| - n..]
  }

  /** The history after `add_history(line)`: the line appended, the oldest
      entry dropped once the buffer is over `__MAX_HIS`. */
  function Appended(history: seq<string>, line: string): (r: seq<string>)
    ensures |history| <= MaxHistory ==> |r| <= MaxHistory
    ensures |r| > 0 && r[|r| - 1] == line
    ensures |history| <= |r| <= |history| + 1 && r == (history + [line])[|history| + 1 - |r|..]
  {
    var h := history + [line];
    if |h| > MaxHistory then h[1..] else h
  }

  /** From a buffer within the bound, one `add_history` step keeps the same
      entries as the trim of `load_history`: the newest `__MAX_HIS`. */
  lemma AppendedKeepsNewest(history: seq<string>, line: string)
    requires |history| <= MaxHistory
    ensures Appended(history, line) == KeepLast(history + [line], MaxHistory)
  {
  }

  /** The argument of `strip("\n")`. */
  const Newlines: StripSet := Chars({'\n'})

  /** A history file line after `line.strip("\n")`. */
  function StripNewlines(line: string): string
  {
    StripChars(line, Newlines)
  }

  /** Every file line with its newlines stripped, in order. */
  function Stripped(lines: seq<string>): (r: seq<string>)
    ensures |r| == |lines|
  {
    seq(|lines|, i requires 0 <= i < |lines| => StripNewlines(lines[i]))
  }

  lemma StrippedSnoc(lines: seq<string>, i: nat)
    requires i < |lines|
    ensures Stripped(lines[..i + 1]) == Stripped(lines[..i]) + [StripNewlines(lines[i])]
  {
    var a := Stripped(lines[..i + 1]);
    var b := Stripped(lines[..i]) + [StripNewlines(lines[i])];
    forall j | 0 <= j <= i
      ensures a[j] == b[j]
    {
      assert lines[..i + 1][j] == lines[j];
      if j < i {
        assert lines[..i][j] == lines[j];
      }
    }
  }

  /** The lines `save_history` writes: each entry followed by a newline. */
  function Written(history: seq<string>): (r: seq<string>)
    ensures |r| == |history| && forall i :: 0 <= i < |history| ==> r[i] == history[i] + "\n"
  {
    if history == [] then [] else [history[0] + "\n"] + Written(history[1..])
  }

  /** An entry that reading the file back in text mode keeps as one line:
      universal newlines end a line at a carriage return as well. */
  predicate NoNewline(line: string)
  {
    forall i :: 0 <= i < |line| ==> line[i] != '\n' && line[i] != '\r'
  }

  /** Stripping the newline `save_history` adds gives back an entry that
      holds no newline of its own. */
  lemma StripWrittenLine(line: string)
    requires NoNewline(line)
    ensures StripNewlines(line + "\n") == line
  {
    var s := line + "\n";
    assert s[..|s| - 1] == line;
    assert Drops(Newlines, s[|s| - 1]);
    if line == [] {
      assert s[1..] == [];
      assert StripStart(s, Newlines) == StripStart([], Newlines) == [];
    } else {
      assert s[0] == line[0] && !Drops(Newlines, s[0]);
      assert StripStart(s, Newlines) == s;
      assert StripEnd(s, Newlines) == StripEnd(line, Newlines);
      assert !Drops(Newlines, line[|line| - 1]);
      assert StripEnd(line, Newlines) == line;
    }
  }

  /** What `save_history` writes, `load_history` reads back into an empty
      buffer unchanged, as long as it fits and no entry holds a line break. */
  lemma {:induction false} HistoryRoundTrip(history: seq<string>)
    requires |history| <= MaxHistory
    requires forall i :: 0 <= i < |history| ==> NoNewline(history[i])
    ensures KeepLast([] + Stripped(Written(history)), MaxHistory) == history
  {
    var back := Stripped(Written(history));
    forall i | 0 <= i < |history|
      ensures back[i] == history[i]
    {
      StripWrittenLine(history[i]);
    }
    assert [] + back == history;
  }

  // ---------------------------------------------------------------------
  // The console

  class HBNBCommand {
    /** The token table every command shares. */
    const table: TokenTable
    const storage: FileStorage
    /** `__airbnb_commands` */
    const commands: map<string, Command>
    /** `__current_cmd` */
    var currentCmd: string
    /** `__history` */
    var history: seq<string>

    /** Each keyword holds a command of its own class, and all of them share
        the one token table and the one storage. */
    ghost predicate Valid()
      reads this, table
    {
      && commands.Keys == CommandKinds.Keys
      && (forall k :: k in commands ==>
            commands[k].kind == CommandKinds[k] && commands[k].table == table && commands[k].storage == storage)
      && |table.slots| == SlotCount
    }

    /** The table is built once, with one command per keyword. */
    constructor (storage: FileStorage)
      ensures Valid() && fresh(table) && table.slots == ClearedSlots
      ensures this.storage == storage && currentCmd == "" && history == []
      ensures forall k :: k in commands ==> fresh(commands[k])
    {
      var t := new TokenTable();
      var create := new Command(CreateKind, t, storage);
      var show := new Command(ShowKind, t, storage);
      var destroy := new Command(DestroyKind, t, storage);
      var all := new Command(AllKind, t, storage);
      var update := new Command(UpdateKind, t, storage);
      table := t;
      this.storage := storage;
      commands := map["create" := create, "show" := show, "destroy" := destroy, "all" := all, "update" := update];
      currentCmd := "";
      history := [];
    }

    /** `precmd(line)`: nothing when the line does not split or splits into
        no tokens; otherwise the first token becomes the current command, the
        rest are bound when it is a keyword, and the stripped line goes on. */
    method Precmd(line: string, parsed: Tokenized) returns (r: string, out: seq<string>)
      requires Valid()
      modifies this`currentCmd, table`slots
      ensures Valid()
      ensures parsed.SplitError? ==>
        r == "" && out == [parsed.message] && currentCmd == old(currentCmd) && table.slots == old(table.slots)
      ensures parsed.Tokens? && parsed.tokens == [] ==>
        r == "" && out == [] && currentCmd == old(currentCmd) && table.slots == old(table.slots)
      ensures parsed.Tokens? && parsed.tokens != [] ==>
        && r == Strip(line) && out == [] && currentCmd == parsed.tokens[0]
        && table.slots ==
             (if parsed.tokens[0] in commands then Bound(old(table.slots), parsed.tokens[1..]) else old(table.slots))
    {
      out := [];
      if parsed.SplitError? {
        return "", [parsed.message];
      }
      var tokens := parsed.tokens;
      if tokens == [] {
        return "", [];
      }
      var command := tokens[0];
      currentCmd := command;
      if command in commands {
        commands[command].table.Set(tokens[1..]);
      }
      r := Strip(line);
    }

    /** `postcmd(stop, line)`: the tokens are reset after a keyword command,
        the current command is cleared, and `stop` is passed on. */
    method Postcmd(stop: bool) returns (r: bool)
      requires Valid()
      modifies this`currentCmd, table`slots
      ensures Valid() && r == stop && currentCmd == ""
      ensures old(currentCmd) in commands ==> table.slots == ClearedSlots
      ensures old(currentCmd) !in commands ==> table.slots == old(table.slots)
    {
      if currentCmd in commands {
        commands[currentCmd].table.Reset();
      }
      currentCmd := "";
      r := stop;
    }

    /** `add_history(line)` */
    method AddHistory(line: string)
      modifies this`history
      ensures history == Appended(old(history), line)
    {
      history := history + [line];
      if |history| > MaxHistory {
        history := history[1..];
      }
    }

    /** `load_history`: every line of the file, stripped of newlines, is
        appended, then only the newest `__MAX_HIS` entries are kept.  A
        missing file (`None`) changes nothing. */
    method LoadHistory(file: Option<seq<string>>)
      modifies this`history
      ensures file.None? ==> history == old(history)
      ensures file.Some? ==> history == KeepLast(old(history) + Stripped(file.value), MaxHistory)
    {
      if file.None? {
        return;
      }
      var loaded := AppendLines(history, file.value);
      var length := |loaded|;
      if length > MaxHistory {
        loaded := loaded[length - MaxHistory..];
      }
      history := loaded;
    }

    /** The loop of `load_history` over the file's lines. */
    static method AppendLines(history: seq<string>, lines: seq<string>) returns (loaded: seq<string>)
      ensures loaded == history + Stripped(lines)
    {
      loaded := history;
      var i := 0;
      while i < |lines|
        invariant 0 <= i <= |lines|
        invariant loaded == history + Stripped(lines[..i])
      {
        StrippedSnoc(lines, i);
        loaded := loaded + [StripNewlines(lines[i])];
        i := i + 1;
      }
      assert lines[..i] == lines;
    }

    /** `do_quit` (and `do_EOF`, which is the same): the history as
        `save_history` writes it, and True to stop the loop. */
    method DoQuit(line: string) returns (stop: bool, written: seq<string>)
      ensures stop && written == Written(history)
      ensures |history| <= MaxHistory && (forall i :: 0 <= i < |history| ==> NoNewline(history[i])) ==>
        KeepLast([] + Stripped(written), MaxHistory) == history
    {
      written := Written(history);
      if |history| <= MaxHistory && forall i :: 0 <= i < |history| ==> NoNewline(history[i]) {
        HistoryRoundTrip(history);
      }
      stop := true;
    }
  }
}
