/** The asynchronous `Server` of skgc/server.py.  A `Server` object holds
    only the paths of one installation; everything it reads and writes lives
    in files there: the record `skgc/skgc.json`, the console mailboxes
    `skgc/stdin` and `skgc/stdout`, and `server.properties`.  The class
    below keeps those files as its fields, so each operation's load, change
    and save is one update of the fields.  The server process, its relay
    loops and the clock are not part of the object: the parts of them an
    operation depends on (the exit code, the output that arrives while a
    command waits for its answer) are parameters. */
module Server {
  import opened Common
  import opened Text
  import PropertiesFile

  const JavaStartCommand := "java -jar minecraft_server.jar --nogui"
  const JavaStopCommand := "stop"
  const BedrockStartCommand := "LD_LIBRARY_PATH=. ./bedrock_server"
  const BedrockStopCommand := "stop"

  /** How many of the last log lines `read_log` yields by default
      (`start_line=-100`). */
  const LogTailLength := 100

  /** The record kept in `skgc/skgc.json`. */
  datatype ServerData = ServerData(
    initId: string,
    status: bool,
    alias: string,
    misc: Json,
    edition: string,
    startCommand: string,
    stopCommand: string)

  /** Every edition string but `"bedrock"` is treated as Java. */
  predicate IsBedrock(edition: string) {
    edition == "bedrock"
  }

  /** The record `init` writes for a directory called `alias`. */
  function InitialData(initId: string, alias: string, edition: string): (d: ServerData)
    ensures d.initId == initId && !d.status && d.alias == alias && d.misc == JObject(map[])
    ensures d.stopCommand == "stop"
    ensures IsBedrock(d.edition) <==> IsBedrock(edition)
    ensures IsBedrock(edition) ==> d.startCommand == BedrockStartCommand
    ensures !IsBedrock(edition) ==> d.edition == "java" && d.startCommand == JavaStartCommand
  {
    if IsBedrock(edition) then
      ServerData(initId, false, alias, JObject(map[]), "bedrock", BedrockStartCommand, BedrockStopCommand)
    else
      ServerData(initId, false, alias, JObject(map[]), "java", JavaStartCommand, JavaStopCommand)
  }

  /** `_load_server_data`: the record, or `ServerDataError` when the file
      does not exist. */
  function Loaded(record: Option<ServerData>): (r: Result<ServerData>)
    ensures r.Err? <==> record.None?
    ensures r.Err? ==> r.error == ServerDataError
    ensures r.Ok? ==> r.value == record.value
  {
    match record
    case None => Err(ServerDataError)
    case Some(d) => Ok(d)
  }

  // ---------------------------------------------------------------------
  // The console log

  /** `stdout_lines[-100:]`, each decoded and right-stripped: the last
      `min(100, n)` lines of the log, in order. */
  function LogTail(lines: seq<string>): (r: seq<string>)
    ensures |r| == if |lines| < LogTailLength then |lines| else LogTailLength
    ensures forall i :: 0 <= i < |r| ==> r[i] == RStrip(lines[|lines| - |r| + i])
  {
    var start := if |lines| < LogTailLength then 0 else |lines| - LogTailLength;
    seq(|lines| - start, i requires 0 <= i < |lines| - start => RStrip(lines[start + i]))
  }

  // ---------------------------------------------------------------------
  // `_get_command_response`: finding the answer to a command in the log

  /** The test for the echo of a command: the line, stripped, is the
      command. */
  function Echo(command: string): string -> bool {
    line => Strip(line) == command
  }

  /** For a command without whitespace at its ends, a log line is its echo
      exactly when it is the command with only whitespace around it. */
  lemma EchoMeaning(command: string, line: string)
    requires command == [] || (!IsSpace(command[0]) && !IsSpace(command[|command| - 1]))
    ensures Echo(command)(line) <==> exists a :: Trimmed(line, command, a)
  {
    StripMeaning(line);
    if a :| Trimmed(line, command, a) {
      StripOf(line, command, a);
    }
  }

  /** The split point among the first `n` lines: the last index whose
      line is an echo, or 0 when there is none. */
  function LastEcho(lines: seq<string>, isEcho: string -> bool, n: nat): (k: nat)
    requires n <= |lines|
    ensures k == 0 || (k < n && isEcho(lines[k]))
    ensures forall j :: k < j < n ==> !isEcho(lines[j])
  {
    if n == 0 then 0
    else if isEcho(lines[n - 1]) then n - 1
    else LastEcho(lines, isEcho, n - 1)
  }

  /** The latest index in `[from, n)` whose line satisfies `verify`. */
  function LatestMatch(lines: seq<string>, from: nat, verify: string -> bool, n: nat): (r: Option<nat>)
    requires n <= |lines|
    ensures r.Some? ==> from <= r.value < n && verify(lines[r.value])
    ensures r.Some? ==> forall j :: r.value < j < n ==> !verify(lines[j])
    ensures r.None? <==> forall j :: from <= j < n ==> !verify(lines[j])
  {
    if n <= from then None
    else if verify(lines[n - 1]) then Some(n - 1)
    else LatestMatch(lines, from, verify, n - 1)
  }

  /** What `_get_command_response` returns for the lines it read: the latest
      line at or after the last echo (`isEcho`, which is `Echo(command)`)
      that `verify` accepts, the echo itself included, or nothing.  What it
      means is `ResponseMeaning`. */
  function Response(lines: seq<string>, isEcho: string -> bool, verify: string -> bool): Option<string> {
    match LatestMatch(lines, LastEcho(lines, isEcho, |lines|), verify, |lines|)
    case None => None
    case Some(i) => Some(lines[i])
  }

  /** The answer is nothing exactly when no line from the last echo on is
      accepted, and otherwise an accepted line from there on after which
      no line is accepted. */
  lemma ResponseMeaning(lines: seq<string>, isEcho: string -> bool, verify: string -> bool)
    ensures var r := Response(lines, isEcho, verify); var split := LastEcho(lines, isEcho, |lines|);
      && (r.None? <==> forall j :: split <= j < |lines| ==> !verify(lines[j]))
      && (r.Some? ==> exists i :: split <= i < |lines| && lines[i] == r.value && verify(r.value)
                                 && forall j :: i < j < |lines| ==> !verify(lines[j]))
  {
    var split := LastEcho(lines, isEcho, |lines|);
    var m := LatestMatch(lines, split, verify, |lines|);
    if m.Some? {
      assert lines[m.value] == Response(lines, isEcho, verify).value;
    }
  }

  /** The two loops of `_get_command_response`: the forward scan for the
      split index and the backward scan from the end for the answer. */
  method FindResponse(lines: seq<string>, isEcho: string -> bool, verify: string -> bool) returns (r: Option<string>)
    ensures r == Response(lines, isEcho, verify)
  {
    var splitIndex := 0;
    for index := 0 to |lines|
      invariant splitIndex == LastEcho(lines, isEcho, index)
    {
      if isEcho(lines[index]) {
        splitIndex := index;
      }
    }
    var j := |lines|;
    while j > splitIndex
      invariant splitIndex <= j <= |lines|
      invariant LatestMatch(lines, splitIndex, verify, |lines|) == LatestMatch(lines, splitIndex, verify, j)
    {
      if verify(lines[j - 1]) {
        return Some(lines[j - 1]);
      }
      j := j - 1;
    }
    return None;
  }

  /** Only what follows the last echo matters: lines before it never
      decide the answer. */
  lemma {:induction false} ResponseAfterEcho(before: seq<string>, echo: string, after: seq<string>,
                                             isEcho: string -> bool, verify: string -> bool)
    requires isEcho(echo)
    requires forall j :: 0 <= j < |after| ==> !isEcho(after[j])
    ensures Response(before + [echo] + after, isEcho, verify) == Response([echo] + after, isEcho, verify)
  {
    var tail := [echo] + after;
    forall j | 0 < j < |tail| ensures !isEcho(tail[j]) {
      assert tail[j] == after[j - 1];
    }
    var lines := before + tail;
    assert before + [echo] + after == lines;
    var k := |before|;
    LastEchoes(before, tail, isEcho);
    LatestMatchShift(before, tail, verify, |tail|);
    var m := LatestMatch(lines, k, verify, |lines|);
    var t := LatestMatch(tail, 0, verify, |tail|);
    if m.Some? {
      assert lines[m.value] == tail[t.value];
      assert Response(lines, isEcho, verify) == Some(lines[m.value]);
      assert Response(tail, isEcho, verify) == Some(tail[t.value]);
    } else {
      assert Response(lines, isEcho, verify) == None;
      assert Response(tail, isEcho, verify) == None;
    }
  }

  /** An echo followed by no other is the last echo of the lines it opens
      and of any lines put before it. */
  lemma LastEchoes(before: seq<string>, tail: seq<string>, isEcho: string -> bool)
    requires tail != [] && isEcho(tail[0])
    requires forall j :: 0 < j < |tail| ==> !isEcho(tail[j])
    ensures LastEcho(tail, isEcho, |tail|) == 0
    ensures LastEcho(before + tail, isEcho, |before + tail|) == |before|
  {
    var lines := before + tail;
    var k := |before|;
    EchoAt(tail, isEcho, 0);
    forall j | k <= j < |lines| ensures lines[j] == tail[j - k] {
    }
    EchoAt(lines, isEcho, k);
  }

  /** An echo with none after it is the last echo. */
  lemma EchoAt(lines: seq<string>, isEcho: string -> bool, k: nat)
    requires k < |lines| && isEcho(lines[k])
    requires forall j :: k < j < |lines| ==> !isEcho(lines[j])
    ensures LastEcho(lines, isEcho, |lines|) == k
  {
  }

  /** `LatestMatch` over a suffix, shifted by the length of what precedes
      it. */
  lemma {:induction false} LatestMatchShift(before: seq<string>, tail: seq<string>, verify: string -> bool, n: nat)
    requires n <= |tail|
    ensures var m := LatestMatch(before + tail, |before|, verify, |before| + n);
      var t := LatestMatch(tail, 0, verify, n);
      && (m.None? <==> t.None?)
      && (m.Some? ==> m.value == |before| + t.value)
  {
    var lines := before + tail;
    if n > 0 {
      assert lines[|before| + n - 1] == tail[n - 1];
      LatestMatchShift(before, tail, verify, n - 1);
    }
  }

  // ---------------------------------------------------------------------
  // `get_coordinate`

  /** The three components of a position, kept as the text the server
      printed. */
  type Coordinate = (string, string, string)

  function Marker(player: string): string {
    "Teleported " + player + " to"
  }

  /** The command whose answer reports a player's position. */
  function TeleportCommand(player: string): string {
    "execute as " + player + " at " + player + " run tp ~ ~ ~"
  }

  /** The teleport command is queued as it is, and the log line that
      repeats it is recognised as its echo. */
  lemma TeleportCommandEcho(player: string)
    ensures RStrip(TeleportCommand(player)) == TeleportCommand(player)
    ensures Echo(TeleportCommand(player))(TeleportCommand(player))
  {
    var c := TeleportCommand(player);
    assert c[0] == 'e' && c[|c| - 1] == '~';
    RStripOf(c, |c|);
    assert Trimmed(c, c, 0);
    StripOf(c, c, 0);
  }

  /** `verify_function_bedrock` / `verify_function_java`. */
  predicate IsTeleportReply(player: string, line: string) {
    Contains(line, Marker(player))
  }

  /** The string part of `get_coordinate` on the answer it found: the text
      after the last marker, split on commas into exactly three parts.  What
      the parts are is `CoordinateParts`. */
  function ParseCoordinate(player: string, line: Option<string>): (r: Result<Option<Coordinate>>)
    ensures line.None? ==> r == Ok(None)
    ensures line.Some? ==> (r.Err? <==> |Split(AfterLast(line.value, Marker(player)), ",")| != 3)
    ensures r.Err? ==> r.error == ValueError
  {
    match line
    case None => Ok(None)
    case Some(l) =>
      var parts := Split(AfterLast(l, Marker(player)), ",");
      if |parts| != 3 then Err(ValueError)
      else Ok(Some((parts[0], parts[1], parts[2])))
  }

  /** `t` is `x,y,z` with three comma-free components. */
  predicate CommaJoined(t: string, x: string, y: string, z: string) {
    && x + "," + y + "," + z == t
    && !Contains(x, ",") && !Contains(y, ",") && !Contains(z, ",")
  }

  /** A position read off a line is the text after the line's last marker,
      made of three comma-free components. */
  lemma CoordinateParts(player: string, l: string)
    ensures var r := ParseCoordinate(player, Some(l));
      r.Ok? ==> (&& r.value.Some?
                 && CommaJoined(AfterLast(l, Marker(player)), r.value.value.0, r.value.value.1, r.value.value.2))
  {
    var t := AfterLast(l, Marker(player));
    var parts := Split(t, ",");
    SplitJoin(t, ",");
    if |parts| == 3 {
      ThreeJoined(parts, t);
      assert ParseCoordinate(player, Some(l)) == Ok(Some((parts[0], parts[1], parts[2])));
    }
  }

  /** Three clean pieces joined by commas. */
  lemma ThreeJoined(parts: seq<string>, t: string)
    requires |parts| == 3 && Join(parts, ",") == t
    requires forall k :: 0 <= k < |parts| ==> !Contains(parts[k], ",")
    ensures CommaJoined(t, parts[0], parts[1], parts[2])
  {
    assert Join(parts, ",") == parts[0] + "," + Join(parts[1..], ",");
    assert Join(parts[1..], ",") == parts[1] + "," + parts[2];
  }

  /** The first comma of `a + "," + b` is the one after `a` when `a` has
      none. */
  lemma FindComma(a: string, b: string)
    requires !Contains(a, ",")
    ensures Find(a + "," + b, ",") == Some(|a|)
  {
    var s := a + "," + b;
    assert s[|a|..|a| + 1] == ",";
    assert OccursAt(s, ",", |a|);
    forall j | 0 <= j < |a| ensures !OccursAt(s, ",", j) {
      assert !OccursAt(a, ",", j);
      if j + 1 <= |a| {
        assert a[j..j + 1] == s[j..j + 1];
      }
    }
    var f := Find(s, ",");
    assert f.Some?;
    assert !(f.value < |a|);
    assert !(f.value > |a|);
  }

  /** A reply that carries the marker once, followed by three
      comma-separated components, gives back exactly those components. */
  lemma CoordinateOfReply(player: string, before: string, x: string, y: string, z: string)
    requires !Contains(x, ",") && !Contains(y, ",") && !Contains(z, ",")
    requires var line := before + Marker(player) + (x + "," + y + "," + z);
      forall j :: j != |before| ==> !OccursAt(line, Marker(player), j)
    ensures ParseCoordinate(player, Some(before + Marker(player) + (x + "," + y + "," + z))) == Ok(Some((x, y, z)))
  {
    AfterOnlyMarker(before, Marker(player), x + "," + y + "," + z);
    SplitThree(x, y, z);
  }

  /** The text after the only occurrence of a marker is what follows it. */
  lemma AfterOnlyMarker(before: string, m: string, rest: string)
    requires |m| > 0
    requires forall j :: j != |before| ==> !OccursAt(before + m + rest, m, j)
    ensures AfterLast(before + m + rest, m) == rest
  {
    var line := before + m + rest;
    assert OccursAt(line, m, |before|) by {
      assert line[|before|..|before| + |m|] == m;
    }
    assert Contains(line, m);
    var r := AfterLast(line, m);
    assert line[|line| - |r| - |m|..|line| - |r|] == m;
    assert OccursAt(line, m, |line| - |r| - |m|);
    assert |r| == |rest|;
    assert r == line[|line| - |r|..];
    assert line[|line| - |rest|..] == rest;
  }

  /** `f"Teleported {player_name} to" in line`: a line is accepted exactly
      when the marker occurs somewhere in it. */
  lemma TeleportReplyMeaning(player: string, line: string)
    ensures IsTeleportReply(player, line) <==> exists j :: OccursAt(line, Marker(player), j)
  {
    if j :| OccursAt(line, Marker(player), j) {
      assert Find(line, Marker(player)).Some?;
    }
  }

  /** Three comma-free pieces joined by commas split back into those
      pieces. */
  lemma SplitThree(x: string, y: string, z: string)
    requires !Contains(x, ",") && !Contains(y, ",") && !Contains(z, ",")
    ensures Split(x + "," + y + "," + z, ",") == [x, y, z]
  {
    assert x + "," + y + "," + z == x + "," + (y + "," + z);
    SplitComma(x, y + "," + z);
    SplitComma(y, z);
    assert Split(z, ",") == [z];
  }

  /** A comma-free piece and a comma in front of `b` split off as one
      piece. */
  lemma SplitComma(a: string, b: string)
    requires !Contains(a, ",")
    ensures Split(a + "," + b, ",") == [a] + Split(b, ",")
  {
    var s := a + "," + b;
    FindComma(a, b);
    assert s[..|a|] == a && s[|a| + 1..] == b;
  }

  // ---------------------------------------------------------------------
  // `get_port` / `set_port`

  /** The port keys of `server.properties` for an edition, in the order
      `get_port` reads them. */
  function PortKeys(edition: string): seq<string> {
    if IsBedrock(edition) then ["server-port", "server-portv6"]
    else ["query.port", "rcon.port", "server-port"]
  }

  /** The ports `set_port(port)` assigns, as `save` writes them. */
  function Ports(edition: string, port: int): map<string, string> {
    if IsBedrock(edition) then
      map["server-port" := Decimal(port), "server-portv6" := Decimal(port + 1)]
    else
      map["query.port" := Decimal(port), "rcon.port" := Decimal(port + 10), "server-port" := Decimal(port)]
  }

  /** The entries of `d` named in `keys`; a missing key raises `KeyError`
      for the first one, as the dict display does. */
  function Project(d: PropertiesFile.Props, keys: seq<string>): (r: Result<map<string, string>>)
    ensures r.Ok? <==> forall k :: k in keys ==> PropertiesFile.Get(d, k).Some?
    ensures r.Ok? ==> forall k :: k in r.value <==> k in keys
    ensures r.Ok? ==> forall k :: k in r.value ==> PropertiesFile.Get(d, k) == Some(r.value[k])
    ensures r.Err? ==> exists i :: FirstMissing(d, keys, i) && r.error == KeyError(keys[i])
  {
    if keys == [] then Ok(map[])
    else
      match PropertiesFile.Get(d, keys[0])
      case None =>
        assert FirstMissing(d, keys, 0) && keys[0] in keys;
        Err(KeyError(keys[0]))
      case Some(v) =>
        var rest := Project(d, keys[1..]);
        assert forall k :: k in keys <==> k == keys[0] || k in keys[1..];
        if rest.Err? then
          var i :| FirstMissing(d, keys[1..], i) && rest.error == KeyError(keys[1..][i]);
          assert FirstMissing(d, keys, i + 1) && keys[i + 1] in keys;
          rest
        else Ok(rest.value[keys[0] := v])
  }

  /** `keys[i]` is the first of `keys` that `d` lacks. */
  predicate FirstMissing(d: PropertiesFile.Props, keys: seq<string>, i: int) {
    && 0 <= i < |keys| && PropertiesFile.Get(d, keys[i]).None?
    && forall j :: 0 <= j < i ==> PropertiesFile.Get(d, keys[j]).Some?
  }

  /** `get_port` on the parsed properties: exactly the edition's port
      keys. */
  function PortView(d: PropertiesFile.Props, edition: string): (r: Result<map<string, string>>)
    ensures r.Ok? ==> forall k :: k in r.value <==> k in PortKeys(edition)
    ensures r.Ok? ==> forall k :: k in r.value ==> PropertiesFile.Get(d, k) == Some(r.value[k])
    ensures r.Err? <==> exists k :: k in PortKeys(edition) && PropertiesFile.Get(d, k).None?
  {
    Project(d, PortKeys(edition))
  }

  /** The assignments of `set_port`: Bedrock sets `server-port` and
      `server-portv6`, Java `query.port`, `rcon.port` and `server-port`;
      every other key keeps its value and reading the ports back gives
      exactly the ports set. */
  function SetPortEntries(d: PropertiesFile.Props, edition: string, port: int): (r: PropertiesFile.Props)
    ensures PortView(r, edition) == Ok(Ports(edition, port))
    ensures forall k :: k !in Ports(edition, port) ==> PropertiesFile.Get(r, k) == PropertiesFile.Get(d, k)
  {
    if IsBedrock(edition) then
      var r := PropertiesFile.Set(PropertiesFile.Set(d, "server-port", Decimal(port)), "server-portv6", Decimal(port + 1));
      BedrockPorts(d, port);
      ProjectValues(r, PortKeys(edition), Ports(edition, port));
      r
    else
      var r := PropertiesFile.Set(PropertiesFile.Set(PropertiesFile.Set(d, "query.port", Decimal(port)),
                                                     "rcon.port", Decimal(port + 10)),
                                  "server-port", Decimal(port));
      JavaPorts(d, port);
      ProjectValues(r, PortKeys(edition), Ports(edition, port));
      r
  }

  /** The numbers `set_port(port)` writes: Bedrock's two ports are `port`
      and `port + 1`; Java's query and server ports are `port` and its RCON
      port `port + 10`. */
  lemma PortNumbers(edition: string, port: int)
    ensures var m := Ports(edition, port);
      IsBedrock(edition) ==>
        DecimalValue(m["server-port"]) == port && DecimalValue(m["server-portv6"]) == port + 1
    ensures var m := Ports(edition, port);
      !IsBedrock(edition) ==>
        && DecimalValue(m["query.port"]) == port && DecimalValue(m["rcon.port"]) == port + 10
        && DecimalValue(m["server-port"]) == port
  {
    DecimalRoundTrip(port);
    DecimalRoundTrip(port + 1);
    DecimalRoundTrip(port + 10);
  }

  lemma BedrockPorts(d: PropertiesFile.Props, port: int)
    ensures var r := PropertiesFile.Set(PropertiesFile.Set(d, "server-port", Decimal(port)), "server-portv6", Decimal(port + 1));
      var m := Ports("bedrock", port);
      && (forall k :: k in m <==> k in PortKeys("bedrock"))
      && (forall k :: k in m ==> PropertiesFile.Get(r, k) == Some(m[k]))
      && (forall k :: k !in m ==> PropertiesFile.Get(r, k) == PropertiesFile.Get(d, k))
  {
    var r := PropertiesFile.Set(PropertiesFile.Set(d, "server-port", Decimal(port)), "server-portv6", Decimal(port + 1));
    SetTwo(d, "server-port", Decimal(port), "server-portv6", Decimal(port + 1));
    TwoKeys(d, r, "server-port", Decimal(port), "server-portv6", Decimal(port + 1));
  }

  lemma JavaPorts(d: PropertiesFile.Props, port: int)
    ensures var r := PropertiesFile.Set(PropertiesFile.Set(PropertiesFile.Set(d, "query.port", Decimal(port)),
                                                           "rcon.port", Decimal(port + 10)),
                                        "server-port", Decimal(port));
      var m := Ports("java", port);
      && (forall k :: k in m <==> k in PortKeys("java"))
      && (forall k :: k in m ==> PropertiesFile.Get(r, k) == Some(m[k]))
      && (forall k :: k !in m ==> PropertiesFile.Get(r, k) == PropertiesFile.Get(d, k))
  {
    var r := PropertiesFile.Set(PropertiesFile.Set(PropertiesFile.Set(d, "query.port", Decimal(port)),
                                                   "rcon.port", Decimal(port + 10)),
                                "server-port", Decimal(port));
    SetThree(d, "query.port", Decimal(port), "rcon.port", Decimal(port + 10), "server-port", Decimal(port));
    ThreeKeys(d, r, "query.port", Decimal(port), "rcon.port", Decimal(port + 10), "server-port", Decimal(port));
  }

  /** Two keys read back from `r` as the map of them says, every other key
      as in `d`, seen from the map. */
  lemma TwoKeys(d: PropertiesFile.Props, r: PropertiesFile.Props, k1: string, v1: string, k2: string, v2: string)
    requires PropertiesFile.Get(r, k1) == Some(v1) && PropertiesFile.Get(r, k2) == Some(v2)
    requires forall k :: k != k1 && k != k2 ==> PropertiesFile.Get(r, k) == PropertiesFile.Get(d, k)
    requires k1 != k2
    ensures var m := map[k1 := v1, k2 := v2];
      && (forall k :: k in m <==> k in [k1, k2])
      && (forall k :: k in m ==> PropertiesFile.Get(r, k) == Some(m[k]))
      && (forall k :: k !in m ==> PropertiesFile.Get(r, k) == PropertiesFile.Get(d, k))
  {
  }

  /** Three keys, as `TwoKeys`. */
  lemma ThreeKeys(d: PropertiesFile.Props, r: PropertiesFile.Props,
                  k1: string, v1: string, k2: string, v2: string, k3: string, v3: string)
    requires PropertiesFile.Get(r, k1) == Some(v1) && PropertiesFile.Get(r, k2) == Some(v2)
    requires PropertiesFile.Get(r, k3) == Some(v3)
    requires forall k :: k != k1 && k != k2 && k != k3 ==> PropertiesFile.Get(r, k) == PropertiesFile.Get(d, k)
    requires k1 != k2 && k1 != k3 && k2 != k3
    ensures var m := map[k1 := v1, k2 := v2, k3 := v3];
      && (forall k :: k in m <==> k in [k1, k2, k3])
      && (forall k :: k in m ==> PropertiesFile.Get(r, k) == Some(m[k]))
      && (forall k :: k !in m ==> PropertiesFile.Get(r, k) == PropertiesFile.Get(d, k))
  {
  }

  /** Two assignments to distinct keys: both keys read back what was
      assigned, every other key is untouched. */
  lemma SetTwo(d: PropertiesFile.Props, k1: string, v1: string, k2: string, v2: string)
    requires k1 != k2
    ensures var r := PropertiesFile.Set(PropertiesFile.Set(d, k1, v1), k2, v2);
      && PropertiesFile.Get(r, k1) == Some(v1) && PropertiesFile.Get(r, k2) == Some(v2)
      && forall k :: k != k1 && k != k2 ==> PropertiesFile.Get(r, k) == PropertiesFile.Get(d, k)
  {
  }

  /** Three assignments to distinct keys, as `SetTwo`. */
  lemma SetThree(d: PropertiesFile.Props, k1: string, v1: string, k2: string, v2: string, k3: string, v3: string)
    requires k1 != k2 && k1 != k3 && k2 != k3
    ensures var r := PropertiesFile.Set(PropertiesFile.Set(PropertiesFile.Set(d, k1, v1), k2, v2), k3, v3);
      && PropertiesFile.Get(r, k1) == Some(v1) && PropertiesFile.Get(r, k2) == Some(v2)
      && PropertiesFile.Get(r, k3) == Some(v3)
      && forall k :: k != k1 && k != k2 && k != k3 ==> PropertiesFile.Get(r, k) == PropertiesFile.Get(d, k)
  {
    SetTwo(d, k1, v1, k2, v2);
  }

  /** Projecting onto keys whose values are those of `m`, and nothing
      else, gives `m`. */
  lemma ProjectValues(d: PropertiesFile.Props, keys: seq<string>, m: map<string, string>)
    requires forall k :: k in m <==> k in keys
    requires forall k :: k in m ==> PropertiesFile.Get(d, k) == Some(m[k])
    ensures Project(d, keys) == Ok(m)
  {
    var r := Project(d, keys);
    assert r.value.Keys == m.Keys;
    assert r.value == m;
  }

  /** The ports `set_port` writes can be read back from the file it saves:
      when the file's dict is one `save` writes faithfully, saving the
      rewritten dict and parsing it again gives exactly the ports set. */
  lemma PortsReadBack(d: PropertiesFile.Props, edition: string, port: int)
    requires PropertiesFile.Plain(d)
    ensures var after := SetPortEntries(d, edition, port);
      && PropertiesFile.Parse(ReadLines(PropertiesFile.Serialize(after))) == Ok(after)
      && PortView(after, edition) == Ok(Ports(edition, port))
  {
    var after := SetPortEntries(d, edition, port);
    if IsBedrock(edition) {
      var d1 := PropertiesFile.Set(d, "server-port", Decimal(port));
      PortEntryPlain("server-port", port);
      PortEntryPlain("server-portv6", port + 1);
      SetPlain(d, "server-port", Decimal(port));
      SetPlain(d1, "server-portv6", Decimal(port + 1));
    } else {
      var d1 := PropertiesFile.Set(d, "query.port", Decimal(port));
      var d2 := PropertiesFile.Set(d1, "rcon.port", Decimal(port + 10));
      PortEntryPlain("query.port", port);
      PortEntryPlain("rcon.port", port + 10);
      PortEntryPlain("server-port", port);
      SetPlain(d, "query.port", Decimal(port));
      SetPlain(d1, "rcon.port", Decimal(port + 10));
      SetPlain(d2, "server-port", Decimal(port));
    }
    PropertiesFile.RoundTrip(after);
  }

  /** A port entry is one `save` writes faithfully. */
  lemma PortEntryPlain(key: string, n: int)
    requires key in ["server-port", "server-portv6", "query.port", "rcon.port"]
    ensures PropertiesFile.PlainEntry((key, Decimal(n)))
  {
    var s := Decimal(n);
    forall c | c in key || c in s ensures c != '#' && c != '=' && c != '\n' {
      if c in s {
        var k :| 0 <= k < |s| && s[k] == c;
      } else {
        var k :| 0 <= k < |key| && key[k] == c;
        assert 'a' <= c <= 'z' || c == '-' || c == '.' || c == '6';
      }
    }
    assert s[|s| - 1] == '-' || '0' <= s[|s| - 1] <= '9';
  }

  /** Assigning a plain key a plain value keeps a dict plain. */
  lemma SetPlain(d: PropertiesFile.Props, k: string, v: string)
    requires PropertiesFile.Plain(d) && PropertiesFile.PlainEntry((k, v))
    ensures PropertiesFile.Plain(PropertiesFile.Set(d, k, v))
  {
    PropertiesFile.SetDistinct(d, k, v);
    PropertiesFile.SetEntries(d, k, v);
  }

  // ---------------------------------------------------------------------
  // The server object

  class Server {
    /** The name of the server directory (`self.path.name`). */
    const name: string
    /** `skgc/skgc.json`; `None` while it does not exist. */
    var record: Option<ServerData>
    /** `skgc/stdin`: commands waiting to be relayed to the process. */
    var stdin: string
    /** `skgc/stdout`: the console log. */
    var stdout: string
    /** `server.properties`; `None` while it does not exist. */
    var properties: Option<string>

    /** A `Server` over an existing directory and the files found there. */
    constructor(name: string, record: Option<ServerData>, stdin: string, stdout: string, properties: Option<string>)
      ensures this.name == name && this.record == record
      ensures this.stdin == stdin && this.stdout == stdout && this.properties == properties
    {
      this.name := name;
      this.record := record;
      this.stdin := stdin;
      this.stdout := stdout;
      this.properties := properties;
    }

    /** `init`: writes a fresh record with the edition's defaults and
        empties both mailboxes; an existing record is overwritten.  The
        `uuid4` the record is stamped with is given. */
    method Init(edition: string, initId: string)
      modifies this
      ensures record == Some(InitialData(initId, name, edition))
      ensures stdin == [] && stdout == [] && properties == old(properties)
    {
      stdin := [];
      stdout := [];
      record := Some(InitialData(initId, name, edition));
    }

    /** The first half of `start`, up to the moment the relay loops begin:
        a running server is refused with the mailboxes untouched; otherwise
        both mailboxes are emptied and the record says it is running. */
    method StartSession() returns (err: Option<Error>)
      modifies this
      ensures old(record).None? ==> err == Some(ServerDataError)
      ensures old(record).Some? && old(record).value.status ==> err == Some(ServerStartingException)
      ensures err.Some? ==> record == old(record) && stdin == old(stdin) && stdout == old(stdout)
      ensures old(record).Some? && !old(record).value.status ==>
        && err.None?
        && record == Some(old(record).value.(status := true))
        && stdin == [] && stdout == []
      ensures properties == old(properties)
    {
      var loaded := Loaded(record);
      if loaded.Err? {
        return Some(loaded.error);
      }
      var data := loaded.value;
      if data.status {
        return Some(ServerStartingException);
      }
      stdin := [];
      stdout := [];
      record := Some(data.(status := true));
      return None;
    }

    /** The second half of `start`, once the relay loops have ended with the
        process: the record is reloaded and marked stopped, and a non-zero
        exit code raises `ServerProcessError`. */
    method EndSession(exitCode: int) returns (err: Option<Error>)
      modifies this
      ensures old(record).None? ==> err == Some(ServerDataError) && record == None
      ensures old(record).Some? ==>
        && record == Some(old(record).value.(status := false))
        && (err.None? <==> exitCode == 0)
        && (err.Some? ==> err.value == ServerProcessError)
      ensures stdin == old(stdin) && stdout == old(stdout) && properties == old(properties)
    {
      var loaded := Loaded(record);
      if loaded.Err? {
        return Some(loaded.error);
      }
      record := Some(loaded.value.(status := false));
      if exitCode != 0 {
        return Some(ServerProcessError);
      }
      return None;
    }

    /** `read_log(follow=False)`: the last 100 lines of the log, each
        right-stripped, while the server runs. */
    method ReadLog() returns (r: Result<seq<string>>)
      ensures record.None? ==> r == Err(ServerDataError)
      ensures record.Some? && !record.value.status ==> r == Err(ServerOutputException)
      ensures record.Some? && record.value.status ==> r == Ok(LogTail(ReadLines(stdout)))
    {
      var loaded := Loaded(record);
      if loaded.Err? {
        return Err(loaded.error);
      }
      if !loaded.value.status {
        return Err(ServerOutputException);
      }
      var stdoutLines := ReadLines(stdout);
      var start := if |stdoutLines| < LogTailLength then 0 else |stdoutLines| - LogTailLength;
      var lines: seq<string> := [];
      for i := start to |stdoutLines|
        invariant |lines| == i - start
        invariant forall j :: 0 <= j < |lines| ==> lines[j] == RStrip(stdoutLines[start + j])
      {
        lines := lines + [RStrip(stdoutLines[i])];
      }
      assert lines == LogTail(stdoutLines);
      return Ok(lines);
    }

    /** `input_command`: while the server runs, appends the right-stripped
        command and a newline to the stdin mailbox; nothing else changes. */
    method InputCommand(command: string) returns (err: Option<Error>)
      modifies this
      ensures old(record).None? ==> err == Some(ServerDataError)
      ensures old(record).Some? && !old(record).value.status ==> err == Some(ServerInputException)
      ensures old(record).Some? && old(record).value.status ==>
        err.None? && stdin == old(stdin) + RStrip(command) + "\n"
      ensures err.Some? ==> stdin == old(stdin)
      ensures record == old(record) && stdout == old(stdout) && properties == old(properties)
    {
      var line := RStrip(command);
      var loaded := Loaded(record);
      if loaded.Err? {
        return Some(loaded.error);
      }
      if !loaded.value.status {
        return Some(ServerInputException);
      }
      stdin := stdin + line + "\n";
      return None;
    }

    /** `stop`: exactly `input_command` of the recorded stop command. */
    method Stop() returns (err: Option<Error>)
      modifies this
      ensures old(record).None? ==> err == Some(ServerDataError) && stdin == old(stdin)
      ensures old(record).Some? && !old(record).value.status ==> err == Some(ServerInputException) && stdin == old(stdin)
      ensures old(record).Some? && old(record).value.status ==>
        err.None? && stdin == old(stdin) + RStrip(old(record).value.stopCommand) + "\n"
      ensures record == old(record) && stdout == old(stdout) && properties == old(properties)
    {
      var loaded := Loaded(record);
      if loaded.Err? {
        return Some(loaded.error);
      }
      err := InputCommand(loaded.value.stopCommand);
    }

    /** `_get_command_response`: sends the command, lets the relay write
        what arrives meanwhile (`arrived`, the process's output and the echo
        of the command) to the log, reads the log's last 100 lines and
        picks the answer from them. */
    method GetCommandResponse(command: string, verify: string -> bool, arrived: string) returns (r: Result<Option<string>>)
      modifies this
      ensures old(record).None? ==> r == Err(ServerDataError)
      ensures old(record).Some? && !old(record).value.status ==> r == Err(ServerInputException)
      ensures old(record).Some? && old(record).value.status ==>
        && stdin == old(stdin) + RStrip(command) + "\n"
        && stdout == old(stdout) + arrived
        && r == Ok(Response(LogTail(ReadLines(stdout)), Echo(command), verify))
      ensures !(old(record).Some? && old(record).value.status) ==> stdin == old(stdin) && stdout == old(stdout)
      ensures record == old(record) && properties == old(properties)
    {
      var err := InputCommand(command);
      if err.Some? {
        return Err(err.value);
      }
      stdout := stdout + arrived;
      var lines := ReadLog();
      var line := FindResponse(lines.value, Echo(command), verify);
      return Ok(line);
    }

    /** `get_coordinate`, for either edition (both branches are the same):
        asks the server to teleport the player onto their own position and
        reads the three components off the answer. */
    method GetCoordinate(player: string, arrived: string) returns (r: Result<Option<Coordinate>>)
      modifies this
      ensures old(record).None? ==> r == Err(ServerDataError)
      ensures old(record).Some? && !old(record).value.status ==> r == Err(ServerInputException)
      ensures old(record).Some? && old(record).value.status ==>
        && stdin == old(stdin) + RStrip(TeleportCommand(player)) + "\n"
        && stdout == old(stdout) + arrived
        && r == ParseCoordinate(player,
                  Response(LogTail(ReadLines(stdout)), Echo(TeleportCommand(player)), line => IsTeleportReply(player, line)))
      ensures !(old(record).Some? && old(record).value.status) ==> stdin == old(stdin) && stdout == old(stdout)
      ensures record == old(record) && properties == old(properties)
    {
      var loaded := Loaded(record);
      if loaded.Err? {
        return Err(loaded.error);
      }
      var line :- GetCommandResponse(TeleportCommand(player), line => IsTeleportReply(player, line), arrived);
      r := ParseCoordinate(player, line);
    }

    /** `get_port`: the edition's port entries of `server.properties`. */
    function GetPort(): (r: Result<map<string, string>>)
      reads this
      ensures record.None? ==> r == Err(ServerDataError)
      ensures record.Some? && properties.None? ==> r == Err(FileNotFoundError)
      ensures record.Some? && properties.Some? ==>
        var parsed := PropertiesFile.Parse(ReadLines(properties.value));
        && (parsed.Err? ==> r == Err(parsed.error))
        && (parsed.Ok? ==> r == PortView(parsed.value, record.value.edition))
    {
      var data :- Loaded(record);
      if properties.None? then Err(FileNotFoundError)
      else
        var d :- PropertiesFile.Parse(ReadLines(properties.value));
        PortView(d, data.edition)
    }

    /** `set_port`: loads `server.properties`, assigns the edition's ports
        and saves it; when the file held a dict `save` writes faithfully,
        `get_port` afterwards gives exactly the ports set. */
    method SetPort(port: int) returns (err: Option<Error>)
      modifies this
      ensures old(record).None? ==> err == Some(ServerDataError)
      ensures old(record).Some? && old(properties).None? ==> err == Some(FileNotFoundError)
      ensures old(record).Some? && old(properties).Some? ==>
        var parsed := PropertiesFile.Parse(ReadLines(old(properties).value));
        && (parsed.Err? ==> err == Some(parsed.error))
        && (parsed.Ok? ==>
              err.None? && properties == Some(PropertiesFile.Serialize(SetPortEntries(parsed.value, old(record).value.edition, port))))
        && (parsed.Ok? && PropertiesFile.Plain(parsed.value) ==> GetPort() == Ok(Ports(old(record).value.edition, port)))
      ensures err.Some? ==> properties == old(properties)
      ensures record == old(record) && stdin == old(stdin) && stdout == old(stdout)
    {
      var loaded := Loaded(record);
      if loaded.Err? {
        return Some(loaded.error);
      }
      if properties.None? {
        return Some(FileNotFoundError);
      }
      var parsed := PropertiesFile.Load(properties.value);
      if parsed.Err? {
        return Some(parsed.error);
      }
      var updated := SetPortEntries(parsed.value, loaded.value.edition, port);
      var text := PropertiesFile.Save(updated);
      properties := Some(text);
      if PropertiesFile.Plain(parsed.value) {
        PortsReadBack(parsed.value, loaded.value.edition, port);
      }
      return None;
    }

    // The getters: each loads the record and returns one field.

    function GetStatus(): (r: Result<bool>)
      reads this
      ensures r.Err? <==> record.None?
      ensures r.Err? ==> r.error == ServerDataError
      ensures r.Ok? ==> r.value == record.value.status
    {
      var data :- Loaded(record);
      Ok(data.status)
    }

    function GetInitId(): (r: Result<string>)
      reads this
      ensures r.Err? <==> record.None?
      ensures r.Err? ==> r.error == ServerDataError
      ensures r.Ok? ==> r.value == record.value.initId
    {
      var data :- Loaded(record);
      Ok(data.initId)
    }

    function GetAlias(): (r: Result<string>)
      reads this
      ensures r.Err? <==> record.None?
      ensures r.Err? ==> r.error == ServerDataError
      ensures r.Ok? ==> r.value == record.value.alias
    {
      var data :- Loaded(record);
      Ok(data.alias)
    }

    function GetEdition(): (r: Result<string>)
      reads this
      ensures r.Err? <==> record.None?
      ensures r.Err? ==> r.error == ServerDataError
      ensures r.Ok? ==> r.value == record.value.edition
    {
      var data :- Loaded(record);
      Ok(data.edition)
    }

    function GetStartCommand(): (r: Result<string>)
      reads this
      ensures r.Err? <==> record.None?
      ensures r.Err? ==> r.error == ServerDataError
      ensures r.Ok? ==> r.value == record.value.startCommand
    {
      var data :- Loaded(record);
      Ok(data.startCommand)
    }

    function GetStopCommand(): (r: Result<string>)
      reads this
      ensures r.Err? <==> record.None?
      ensures r.Err? ==> r.error == ServerDataError
      ensures r.Ok? ==> r.value == record.value.stopCommand
    {
      var data :- Loaded(record);
      Ok(data.stopCommand)
    }

    function GetMiscData(): (r: Result<Json>)
      reads this
      ensures r.Err? <==> record.None?
      ensures r.Err? ==> r.error == ServerDataError
      ensures r.Ok? ==> r.value == record.value.misc
    {
      var data :- Loaded(record);
      Ok(data.misc)
    }

    // The setters: each loads the record, changes one field and saves it.

    method SetAlias(alias: string) returns (err: Option<Error>)
      modifies this
      ensures err == if old(record).None? then Some(ServerDataError) else None
      ensures record == if old(record).None? then None else Some(old(record).value.(alias := alias))
      ensures err.None? ==> GetAlias() == Ok(alias)
      ensures stdin == old(stdin) && stdout == old(stdout) && properties == old(properties)
    {
      var loaded := Loaded(record);
      if loaded.Err? {
        return Some(loaded.error);
      }
      record := Some(loaded.value.(alias := alias));
      return None;
    }

    method SetEdition(edition: string) returns (err: Option<Error>)
      modifies this
      ensures err == if old(record).None? then Some(ServerDataError) else None
      ensures record == if old(record).None? then None else Some(old(record).value.(edition := edition))
      ensures err.None? ==> GetEdition() == Ok(edition)
      ensures stdin == old(stdin) && stdout == old(stdout) && properties == old(properties)
    {
      var loaded := Loaded(record);
      if loaded.Err? {
        return Some(loaded.error);
      }
      record := Some(loaded.value.(edition := edition));
      return None;
    }

    method SetStartCommand(startCommand: string) returns (err: Option<Error>)
      modifies this
      ensures err == if old(record).None? then Some(ServerDataError) else None
      ensures record == if old(record).None? then None else Some(old(record).value.(startCommand := startCommand))
      ensures err.None? ==> GetStartCommand() == Ok(startCommand)
      ensures stdin == old(stdin) && stdout == old(stdout) && properties == old(properties)
    {
      var loaded := Loaded(record);
      if loaded.Err? {
        return Some(loaded.error);
      }
      record := Some(loaded.value.(startCommand := startCommand));
      return None;
    }

    method SetStopCommand(stopCommand: string) returns (err: Option<Error>)
      modifies this
      ensures err == if old(record).None? then Some(ServerDataError) else None
      ensures record == if old(record).None? then None else Some(old(record).value.(stopCommand := stopCommand))
      ensures err.None? ==> GetStopCommand() == Ok(stopCommand)
      ensures stdin == old(stdin) && stdout == old(stdout) && properties == old(properties)
    {
      var loaded := Loaded(record);
      if loaded.Err? {
        return Some(loaded.error);
      }
      record := Some(loaded.value.(stopCommand := stopCommand));
      return None;
    }

    method SetMiscData(data: Json) returns (err: Option<Error>)
      modifies this
      ensures err == if old(record).None? then Some(ServerDataError) else None
      ensures record == if old(record).None? then None else Some(old(record).value.(misc := data))
      ensures err.None? ==> GetMiscData() == Ok(data)
      ensures stdin == old(stdin) && stdout == old(stdout) && properties == old(properties)
    {
      var loaded := Loaded(record);
      if loaded.Err? {
        return Some(loaded.error);
      }
      record := Some(loaded.value.(misc := data));
      return None;
    }
  }

  /** `Server(path)`: refuses a path that is not a directory. */
  method Open(isDir: bool, name: string, record: Option<ServerData>, stdin: string, stdout: string,
              properties: Option<string>) returns (r: Result<Server>)
    ensures r.Err? <==> !isDir
    ensures r.Err? ==> r.error == ServerInitException
    ensures r.Ok? ==>
      && fresh(r.value) && r.value.name == name && r.value.record == record
      && r.value.stdin == stdin && r.value.stdout == stdout && r.value.properties == properties
  {
    if !isDir {
      return Err(ServerInitException);
    }
    var s := new Server(name, record, stdin, stdout, properties);
    return Ok(s);
  }
}
