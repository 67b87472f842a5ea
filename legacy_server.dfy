/** The thread-based `Server` of skgc.py, the earlier revision of the
    supervisor.  Unlike skgc/server.py it keeps the configuration in the
    object's own fields (`edition`, `start_command`, `server_data`, `pid`)
    and mirrors them to `skgc/config.json` and `skgc/status.json`; on every
    reload a recorded pid that the operating system no longer knows is
    cleared.  The files of the installation are fields of the class next to
    the object's own; whether a process id is alive (`psutil.pid_exists`) is
    the oracle `alive`, and each pass of the relay and log loops is one
    method call. */
module LegacyServer {
  import opened Common
  import opened Text

  const JavaStartCommand := "java -jar minecraft_server.jar --nogui"
  const BedrockStartCommand := "LD_LIBRARY_PATH=. ./bedrock_server"

  /** What `skgc/config.json` holds. */
  datatype Config = Config(edition: string, startCommand: string, serverData: Json)

  /** The configuration `init` starts from: Bedrock exactly for
      `"bedrock"`, Java for anything else, with that edition's start
      command and no server data. */
  function InitialConfig(edition: string): (c: Config)
    ensures c.edition == "bedrock" <==> edition == "bedrock"
    ensures c.edition != "bedrock" ==> c.edition == "java"
    ensures c.startCommand == if edition == "bedrock" then BedrockStartCommand else JavaStartCommand
    ensures c.serverData == JObject(map[])
  {
    if edition == "bedrock" then Config("bedrock", BedrockStartCommand, JObject(map[]))
    else Config("java", JavaStartCommand, JObject(map[]))
  }

  /** The liveness reconciliation of `reload_data`: a recorded pid the
      oracle reports dead is dropped; a live one, or none, is kept. */
  function Reconcile(pid: Option<int>, alive: int -> bool): (r: Option<int>)
    ensures r.Some? <==> pid.Some? && alive(pid.value)
    ensures r.Some? ==> r == pid
  {
    if pid.Some? && !alive(pid.value) then None else pid
  }

  /** The text of a file that `open(..., "a")` creates when missing. */
  function TextOf(file: Option<string>): string {
    if file.Some? then file.value else ""
  }

  // ---------------------------------------------------------------------
  // `read_log`: the lines a reader yields

  /** One pass of the reading loop: from the lines of the log, those at
      `count` and after are yielded and `count` moves past them. */
  datatype ReadPass = ReadPass(yielded: seq<string>, count: nat, done: bool)

  /** Everything a reader starting at `count = 0` has yielded after reading
      the successive snapshots `logs` of the log file; its `count` is the
      length of this sequence. */
  function Yielded(logs: seq<string>): (r: seq<string>)
  {
    if logs == [] then []
    else
      var before := Yielded(logs[..|logs| - 1]);
      var lines := ReadLines(logs[|logs| - 1]);
      before + (if |before| < |lines| then lines[|before|..] else [])
  }

  /** The log only grew between successive reads. */
  predicate Growing(logs: seq<string>) {
    forall i :: 0 < i < |logs| ==> logs[i - 1] <= logs[i]
  }

  /** `read_log` yields each line exactly once and in order: after reading
      a log that only grew, it has yielded as many lines as the last
      snapshot holds, each one as it stood when read, that is a prefix of
      the line in the same place now (only a line still being written can
      have grown since). */
  lemma {:induction false} YieldedExactlyOnce(logs: seq<string>)
    requires logs != [] && Growing(logs)
    ensures var lines := ReadLines(logs[|logs| - 1]);
      && |Yielded(logs)| == |lines|
      && forall i :: 0 <= i < |lines| ==> Yielded(logs)[i] <= lines[i]
  {
    var n := |logs|;
    var last := logs[n - 1];
    var lines := ReadLines(last);
    if n == 1 {
      assert logs[..0] == [];
    } else {
      var front := logs[..n - 1];
      GrowingFront(logs);
      YieldedExactlyOnce(front);
      var prev := logs[n - 2];
      assert front[|front| - 1] == prev;
      assert last == prev + last[|prev|..];
      ReadLinesGrow(prev, last[|prev|..]);
      var before := Yielded(front);
      assert Yielded(logs) == before + lines[|before|..];
      YieldStep(before, ReadLines(prev), lines);
    }
  }

  /** All snapshots but the last also only grew. */
  lemma GrowingFront(logs: seq<string>)
    requires logs != [] && Growing(logs)
    ensures Growing(logs[..|logs| - 1]) && (|logs| > 1 ==> logs[|logs| - 2] <= logs[|logs| - 1])
  {
    var front := logs[..|logs| - 1];
    forall i | 0 < i < |front| ensures front[i - 1] <= front[i] {
      assert front[i - 1] == logs[i - 1] && front[i] == logs[i];
    }
  }

  /** One more read: lines yielded so far, one for each line of the
      previous snapshot and a prefix of it, followed by the new lines of
      the current snapshot, give one line per current line, each a prefix
      of it. */
  lemma YieldStep(before: seq<string>, previous: seq<string>, current: seq<string>)
    requires |before| == |previous| <= |current|
    requires forall i :: 0 <= i < |before| ==> before[i] <= previous[i]
    requires forall i :: 0 <= i < |previous| ==> previous[i] <= current[i]
    ensures var y := before + current[|before|..];
      && |y| == |current|
      && forall i :: 0 <= i < |current| ==> y[i] <= current[i]
  {
    var y := before + current[|before|..];
    forall i | 0 <= i < |current| ensures y[i] <= current[i] {
      if i < |before| {
        PrefixTrans(before[i], previous[i], current[i]);
      }
    }
  }

  lemma PrefixTrans(a: string, b: string, c: string)
    requires a <= b && b <= c
    ensures a <= c
  {
    assert b[..|a|] == a;
    assert c[..|b|] == b;
    assert c[..|a|] == b[..|a|];
  }

  // ---------------------------------------------------------------------
  // The stdin relay

  /** Two commands buffered before a pass of the stdin loop: the pass
      sends the first to the process and, clearing the buffer, drops the
      second. */
  lemma OnlyFirstCommandForwarded(c1: string, c2: string)
    requires '\n' !in c1 && '\n' !in c2
    ensures var lines := ReadLines(c1 + "\n" + c2 + "\n");
      |lines| == 2 && lines[0] == c1 + "\n" && lines[1] == c2 + "\n"
  {
    var first := c1 + "\n";
    var second := c2 + "\n";
    OneLine(c1);
    OneLine(c2);
    ReadLinesAppend(first, second);
    assert first + second == c1 + "\n" + c2 + "\n";
  }

  /** A command and its newline read as exactly one line. */
  lemma OneLine(c: string)
    requires '\n' !in c
    ensures ReadLines(c + "\n") == [c + "\n"]
  {
    var line := c + "\n";
    forall k | 0 <= k < |line| - 1 ensures line[k] != '\n' {
      assert line[k] == c[k];
    }
    ReadOneLine(line);
  }

  // ---------------------------------------------------------------------
  // The server object

  class Server {
    // The object's own fields.
    var edition: string
    var startCommand: string
    var serverData: Json
    var pid: Option<int>

    // The files of the installation.
    /** Whether `skgc/` exists. */
    var initialized: bool
    /** `skgc/config.json`; `None` while it does not exist. */
    var config: Option<Config>
    /** The `pid` of `skgc/status.json`; `None` while the file does not
        exist. */
    var status: Option<Option<int>>
    /** `skgc/stdin`; `None` while it does not exist. */
    var stdin: Option<string>
    /** `skgc/stdout`; `None` while it does not exist. */
    var stdout: Option<string>

    /** The fields `__init__` sets before its first reload, over the
        files found in the directory. */
    constructor(initialized: bool, config: Option<Config>, status: Option<Option<int>>,
                stdin: Option<string>, stdout: Option<string>)
      ensures edition == "" && startCommand == "" && serverData == JObject(map[]) && pid == None
      ensures this.initialized == initialized && this.config == config && this.status == status
      ensures this.stdin == stdin && this.stdout == stdout
    {
      edition := "";
      startCommand := "";
      serverData := JObject(map[]);
      pid := None;
      this.initialized := initialized;
      this.config := config;
      this.status := status;
      this.stdin := stdin;
      this.stdout := stdout;
    }

    /** What `reload_data` leaves in the fields it reads from
        `config.json`, given the state before it: the file's values when
        `skgc/` and the file exist, the earlier values otherwise.  Neither
        `skgc/` nor `config.json` changes. */
    predicate ConfigReloaded(initialized0: bool, config0: Option<Config>,
                             edition0: string, startCommand0: string, serverData0: Json)
      reads this
    {
      && initialized == initialized0 && config == config0
      && if initialized0 && config0.Some? then
           && edition == config0.value.edition && startCommand == config0.value.startCommand
           && serverData == config0.value.serverData
         else
           edition == edition0 && startCommand == startCommand0 && serverData == serverData0
    }

    /** What `reload_data` leaves in `pid` and `status.json`, given the
        state before it: when both files could be read, the recorded pid
        with a dead process dropped, written back; otherwise both as they
        were. */
    predicate PidReloaded(initialized0: bool, config0: Option<Config>, status0: Option<Option<int>>,
                          pid0: Option<int>, alive: int -> bool)
      reads this
    {
      if initialized0 && config0.Some? && status0.Some? then
        pid == Reconcile(status0.value, alive) && status == Some(pid)
      else
        pid == pid0 && status == status0
    }

    /** `update_data`: writes the object's fields to the two files, which
        needs `skgc/`. */
    method UpdateData()
      requires initialized
      modifies this
      ensures config == Some(Config(edition, startCommand, serverData)) && status == Some(pid)
      ensures edition == old(edition) && startCommand == old(startCommand)
      ensures serverData == old(serverData) && pid == old(pid)
      ensures initialized == old(initialized) && stdin == old(stdin) && stdout == old(stdout)
    {
      config := Some(Config(edition, startCommand, serverData));
      status := Some(pid);
    }

    /** `reload_data`: reads both files into the fields, drops a pid the
        oracle reports dead and writes the result back.  A missing
        `skgc/` raises; a missing file reads as `{}`, so its first key
        raises `KeyError` (after the fields read so far were assigned).
        Reloading right after `update_data` with a live pid, or none,
        changes nothing. */
    method ReloadData(alive: int -> bool) returns (err: Option<Error>)
      modifies this
      ensures !old(initialized) ==> err == Some(NotInitialized)
      ensures old(initialized) && old(config).None? ==> err == Some(KeyError("edition"))
      ensures !old(initialized) || old(config).None? ==>
        && edition == old(edition) && startCommand == old(startCommand)
        && serverData == old(serverData) && pid == old(pid)
        && config == old(config) && status == old(status)
      ensures old(initialized) && old(config).Some? ==>
        && edition == old(config).value.edition
        && startCommand == old(config).value.startCommand
        && serverData == old(config).value.serverData
      ensures old(initialized) && old(config).Some? && old(status).None? ==>
        err == Some(KeyError("pid")) && pid == old(pid) && config == old(config) && status == old(status)
      ensures old(initialized) && old(config).Some? && old(status).Some? ==>
        && err.None?
        && pid == Reconcile(old(status).value, alive)
        && config == old(config) && status == Some(pid)
      ensures (&& old(initialized)
               && old(config) == Some(Config(old(edition), old(startCommand), old(serverData)))
               && old(status) == Some(old(pid)) && (old(pid).None? || alive(old(pid).value))) ==>
        && err.None?
        && edition == old(edition) && startCommand == old(startCommand)
        && serverData == old(serverData) && pid == old(pid)
      ensures ConfigReloaded(old(initialized), old(config), old(edition), old(startCommand), old(serverData))
      ensures PidReloaded(old(initialized), old(config), old(status), old(pid), alive)
      ensures initialized == old(initialized) && stdin == old(stdin) && stdout == old(stdout)
    {
      if !initialized {
        return Some(NotInitialized);
      }
      if config.None? {
        return Some(KeyError("edition"));
      }
      edition := config.value.edition;
      startCommand := config.value.startCommand;
      serverData := config.value.serverData;
      if status.None? {
        return Some(KeyError("pid"));
      }
      pid := status.value;
      if pid.Some? && !alive(pid.value) {
        pid := None;
      }
      UpdateData();
      return None;
    }

    /** `init`: refuses a directory that already has `skgc/`; otherwise
        creates it and writes the edition's defaults with no process. */
    method Init(edition: string) returns (err: Option<Error>)
      modifies this
      ensures old(initialized) ==>
        && err == Some(FileExistsError) && initialized
        && this.edition == old(this.edition) && startCommand == old(startCommand)
        && serverData == old(serverData) && pid == old(pid)
        && config == old(config) && status == old(status)
      ensures !old(initialized) ==>
        && err.None? && initialized
        && Config(this.edition, startCommand, serverData) == InitialConfig(edition) && pid.None?
        && config == Some(InitialConfig(edition)) && status == Some(None)
      ensures stdin == old(stdin) && stdout == old(stdout)
    {
      if initialized {
        return Some(FileExistsError);
      }
      initialized := true;
      var c := InitialConfig(edition);
      this.edition := c.edition;
      startCommand := c.startCommand;
      serverData := c.serverData;
      pid := None;
      UpdateData();
      return None;
    }

    /** `start`, up to the relay threads: after a reload, refuses while a
        live process is recorded; otherwise records the new process's pid
        `newPid` and persists it. */
    method Start(alive: int -> bool, newPid: int) returns (err: Option<Error>)
      modifies this
      ensures old(initialized) && old(config).Some? && old(status).Some? ==>
        var reconciled := Reconcile(old(status).value, alive);
        && (reconciled.Some? ==> err == Some(AlreadyStarted) && pid == reconciled && status == Some(reconciled))
        && (reconciled.None? ==> err.None? && pid == Some(newPid) && status == Some(Some(newPid)))
      ensures !old(initialized) ==> err == Some(NotInitialized)
      ensures old(initialized) && old(config).None? ==> err == Some(KeyError("edition"))
      ensures old(initialized) && old(config).Some? && old(status).None? ==> err == Some(KeyError("pid"))
      ensures ConfigReloaded(old(initialized), old(config), old(edition), old(startCommand), old(serverData))
      ensures err.Some? ==> PidReloaded(old(initialized), old(config), old(status), old(pid), alive)
      ensures err.None? ==> pid == Some(newPid) && status == Some(Some(newPid))
      ensures stdin == old(stdin) && stdout == old(stdout)
    {
      err := ReloadData(alive);
      if err.Some? {
        return;
      }
      if pid.Some? {
        return Some(AlreadyStarted);
      }
      pid := Some(newPid);
      UpdateData();
    }

    /** `input_command`: after a reload, refuses when no process is
        recorded; otherwise appends the command, as given, and a newline to
        `skgc/stdin`. */
    method InputCommand(alive: int -> bool, command: string) returns (err: Option<Error>)
      modifies this
      ensures old(initialized) && old(config).Some? && old(status).Some? ==>
        var reconciled := Reconcile(old(status).value, alive);
        && (reconciled.None? ==> err == Some(NotStarted) && stdin == old(stdin))
        && (reconciled.Some? ==> err.None? && stdin == Some(TextOf(old(stdin)) + command + "\n"))
      ensures !(old(initialized) && old(config).Some? && old(status).Some?) ==> err.Some? && stdin == old(stdin)
      ensures !old(initialized) ==> err == Some(NotInitialized)
      ensures old(initialized) && old(config).None? ==> err == Some(KeyError("edition"))
      ensures old(initialized) && old(config).Some? && old(status).None? ==> err == Some(KeyError("pid"))
      ensures ConfigReloaded(old(initialized), old(config), old(edition), old(startCommand), old(serverData))
      ensures PidReloaded(old(initialized), old(config), old(status), old(pid), alive)
      ensures stdout == old(stdout)
    {
      err := ReloadData(alive);
      if err.Some? {
        return;
      }
      if pid.None? {
        return Some(NotStarted);
      }
      stdin := Some(TextOf(stdin) + command + "\n");
    }

    /** The start of `stdout_loop`: the log is created and emptied. */
    method StdoutBegin()
      modifies this`stdout
      ensures stdout == Some("")
    {
      stdout := Some("");
    }

    /** One pass of `stdout_loop` on the `line` read from the process (empty
        at end of output): a non-empty line is appended right-stripped after
        a newline; the loop ends only on an empty read once the process has
        exited. */
    method StdoutTick(line: string, exited: bool) returns (done: bool)
      modifies this`stdout
      ensures line != "" ==> stdout == Some(TextOf(old(stdout)) + "\n" + RStrip(line))
      ensures line == "" ==> stdout == old(stdout)
      ensures done <==> line == "" && exited
    {
      if line != "" {
        stdout := Some(TextOf(stdout) + "\n" + RStrip(line));
      }
      done := line == "" && exited;
    }

    /** The start of `stdin_loop`: the mailbox is created if missing. */
    method StdinBegin()
      modifies this`stdin
      ensures stdin == Some(TextOf(old(stdin)))
    {
      stdin := Some(TextOf(stdin));
    }

    /** One pass of `stdin_loop`: once the process has exited the loop ends;
        otherwise, when the mailbox holds a line, the first line goes to
        the process and the whole mailbox is emptied, so any further lines
        are lost. */
    method StdinTick(exited: bool) returns (forwarded: Option<string>, done: bool)
      requires stdin.Some?
      modifies this`stdin
      ensures done <==> exited
      ensures forwarded.Some? <==> !exited && old(stdin).value != ""
      ensures forwarded.Some? ==> forwarded.value == ReadLines(old(stdin).value)[0] && stdin == Some("")
      ensures forwarded.Some? ==> forwarded.value != "" && forwarded.value <= old(stdin).value
      ensures forwarded.None? ==> stdin == old(stdin)
    {
      if exited {
        return None, true;
      }
      var lines := ReadLines(stdin.value);
      ReadLinesShape(stdin.value);
      if |lines| < 1 {
        return None, false;
      }
      FirstLinePrefix(lines);
      forwarded := Some(lines[0]);
      stdin := Some("");
      done := false;
    }

    /** `read_log` up to its loop: after a reload, refuses when no process
        is recorded. */
    method ReadLogBegin(alive: int -> bool) returns (err: Option<Error>)
      modifies this
      ensures old(initialized) && old(config).Some? && old(status).Some? ==>
        (err.None? <==> Reconcile(old(status).value, alive).Some?)
      ensures err.Some? && old(initialized) && old(config).Some? && old(status).Some? ==> err == Some(NotStarted)
      ensures !(old(initialized) && old(config).Some? && old(status).Some?) ==> err.Some?
      ensures !old(initialized) ==> err == Some(NotInitialized)
      ensures old(initialized) && old(config).None? ==> err == Some(KeyError("edition"))
      ensures old(initialized) && old(config).Some? && old(status).None? ==> err == Some(KeyError("pid"))
      ensures ConfigReloaded(old(initialized), old(config), old(edition), old(startCommand), old(serverData))
      ensures PidReloaded(old(initialized), old(config), old(status), old(pid), alive)
      ensures stdin == old(stdin) && stdout == old(stdout)
    {
      err := ReloadData(alive);
      if err.Some? {
        return;
      }
      if pid.None? {
        return Some(NotStarted);
      }
    }

    /** One pass of the `read_log` loop: reads the log's lines and yields
        those from `count` on, advancing `count` past them; the reading
        ends once the recorded process is gone. */
    method ReadLogPass(alive: int -> bool, count: nat) returns (r: Result<ReadPass>)
      ensures stdout.None? ==> r == Err(FileNotFoundError)
      ensures stdout.Some? ==>
        var lines := ReadLines(stdout.value);
        && r.Ok?
        && r.value.yielded == (if count < |lines| then lines[count..] else [])
        && r.value.count == (if count < |lines| then |lines| else count)
        && (r.value.done <==> pid.Some? && !alive(pid.value))
    {
      if stdout.None? {
        return Err(FileNotFoundError);
      }
      var lines := ReadLines(stdout.value);
      var yielded: seq<string> := [];
      var next := count;
      while |lines| > next
        invariant count <= next && (next <= |lines| || next == count)
        invariant yielded == if count < |lines| then lines[count..next] else []
      {
        yielded := yielded + [lines[next]];
        next := next + 1;
      }
      var done := pid.Some? && !alive(pid.value);
      return Ok(ReadPass(yielded, next, done));
    }
  }

  /** The first line of a text is a non-empty prefix of it. */
  lemma FirstLinePrefix(lines: seq<string>)
    requires |lines| >= 1 && forall k :: 0 <= k < |lines| ==> lines[k] != []
    ensures lines[0] != [] && lines[0] <= Concat(lines)
  {
  }

  /** `Server(path)`: the fields start empty and a first reload is tried;
      its failure is ignored. */
  method Open(alive: int -> bool, initialized: bool, config: Option<Config>, status: Option<Option<int>>,
              stdin: Option<string>, stdout: Option<string>) returns (s: Server)
    ensures fresh(s)
    ensures initialized && config.Some? && status.Some? ==>
      && s.edition == config.value.edition && s.startCommand == config.value.startCommand
      && s.serverData == config.value.serverData && s.pid == Reconcile(status.value, alive)
    ensures !initialized || config.None? ==> s.pid.None? && s.edition == ""
    ensures s.ConfigReloaded(initialized, config, "", "", JObject(map[]))
    ensures s.PidReloaded(initialized, config, status, None, alive)
    ensures s.stdin == stdin && s.stdout == stdout
  {
    s := new Server(initialized, config, status, stdin, stdout);
    var _ := s.ReloadData(alive);
  }
}
