# skgc — a verified model of the Minecraft server supervisor

skgc supervises a Minecraft server (Java or Bedrock edition) that lives in a
directory of its own. Next to the server's files, skgc keeps a `skgc/`
directory. It holds:

- a JSON record of the server: edition, start and stop commands, alias,
  running flag and free-form data;
- a stdin mailbox, where commands wait to be relayed to the process;
- a stdout log, where the process's output is collected.

This project models the parts of skgc that hold logic:

- `server.py` (module `Server`), the asynchronous supervisor. It covers:
  - the record and its per-edition defaults;
  - the start, input and stop guards on the running flag;
  - the 100-line log tail;
  - the command/response correlator and the coordinate reader;
  - ports in `server.properties`;
  - the getters and setters.
- `edit_properties_file.py` (module `PropertiesFile`), the `key=value`
  codec for `server.properties`: the parsing loop, `save`, and the round
  trip between them.
- `skgc.py` (module `LegacyServer`), the earlier thread-based supervisor.
  It has the liveness reconciliation of the recorded pid, the pid-based
  start guard, `init` that refuses to re-initialise, single passes of the
  stdout, stdin and log loops, and the mirroring of the object's fields to
  `config.json` and `status.json`.
- `update.py` (module `Update`), the update of the server's program files.
  It runs over a tree-shaped disk (module `FileSystem`) and covers:
  - backing up the old installation;
  - downloading and unpacking the release;
  - bringing back the worlds, properties, permissions and allow-list.

Support modules:

- `Common` has Option, Result, the error names of `server_exceptions.py`
  and Python's built-in exceptions, and a JSON value.
- `Text` has the Python string operations used: `rstrip`, `strip`,
  `split`, `find`, `readlines` and `str(int)`.

The two server classes are Dafny classes. Their fields are the files of the
installation (and, for `skgc.py`, the object's own fields), and their
methods update these fields. The codec's loops and the update's loops are
methods with loop invariants, each proved against a specification function.
The disk of the update is passed as a value from step to step. Each
operation's error path is a `Result` or `Option<Error>`.

Modelling choices:

- `set_port` stores integers in the properties dict. `save` writes them
  with an f-string, so the model stores their decimal text (`Decimal`).
- `server.py` imports `load_properties_file`/`save_properties_file`, which
  the codec file does not define. The model uses the `PropertiesFile`
  parsing loop and `save` for them, over the text of `server.properties`.
- The operating system's answer to `psutil.pid_exists` is the function
  argument `alive`.
- The new process's pid, the bytes a download returns, the entries of an
  archive, the output that reaches the log while a command is answered,
  and `uuid4()` are all parameters.

## Model

| member | source | states |
|---|---|---|
| Text.RStrip | skgc/server.py:133 | the result is a prefix of the input, does not end in whitespace, and only whitespace was removed |
| Text.LStrip | skgc/edit_properties_file.py:18 | a suffix of the input that does not start with whitespace, and only whitespace was removed |
| Text.Strip | skgc/edit_properties_file.py:18 | the result neither starts nor ends with whitespace (what it removes is stated by `StripMeaning`) |
| Text.StripMeaning | skgc/edit_properties_file.py:18 | the result is a slice of the input with only whitespace before and after it |
| Text.StripOf | skgc/edit_properties_file.py:18 | a text without whitespace at its ends, surrounded by whitespace only, is exactly what `strip` returns |
| Text.RStripOf | skgc/server.py:133 | `rstrip` stops at the last character that is not whitespace |
| Text.LStripOf | skgc/edit_properties_file.py:18 | `lstrip` stops at the first character that is not whitespace |
| Text.AllSpaceStrip | skgc/edit_properties_file.py:16 | `len(s.split()) == 0` holds exactly when `s.strip()` is empty |
| Text.Find | skgc/edit_properties_file.py:18 | the first index where the separator occurs, or none exactly when it never occurs |
| Text.Split | skgc/edit_properties_file.py:18 | `split` always yields at least one piece |
| Text.SplitJoin | skgc/edit_properties_file.py:18 | the pieces joined with the separator give back the input, and no piece contains the separator |
| Text.SplitFirst | skgc/edit_properties_file.py:15 | the first piece is a separator-free prefix, followed by the separator or the end of the input |
| Text.LastPiece | skgc/server.py:195 | the last piece is a separator-free suffix, preceded by the separator whenever the input contains it |
| Text.AfterLast | skgc/server.py:195 | `split(sep)[-1]`: a suffix without the separator, preceded by the separator whenever the input contains it, the whole input otherwise |
| Text.SplitCount | skgc/server.py:195 | a split yields more than one piece exactly when the separator occurs |
| Text.Decimal | skgc/edit_properties_file.py:30 | `f"{port}"` of an integer: non-empty text of digits and a sign (the number it denotes is stated by `DecimalRoundTrip`) |
| Text.DecimalRoundTrip | skgc/edit_properties_file.py:30 | the text written for an integer reads back as that integer, so different integers are written differently |
| Text.ReadLinesShape | skgc/edit_properties_file.py:10 | `readlines` pieces are non-empty, all but the last end in a newline, none has a newline before its last character, and together they give back the text |
| Text.ReadLinesAppend | skgc.py:109-110 | text that ends at a line boundary reads as its own lines followed by the lines of what is appended |
| Text.ReadLinesGrow | skgc.py:121-127 | a log that grows at its end reads as at least as many lines; earlier complete lines are unchanged, and the last can only have grown |
| PropertiesFile.Get | skgc/edit_properties_file.py:21 | a key is found exactly when some entry has it, and the value found belongs to that key |
| PropertiesFile.GetAt | skgc/edit_properties_file.py:21 | with distinct keys, each entry's key looks up that entry's value |
| PropertiesFile.Set | skgc/edit_properties_file.py:21 | `data[key] = value`: the key now maps to the value, every other key is unchanged, an existing key keeps its place and a new key is added at the end |
| PropertiesFile.SetAbsent | skgc/edit_properties_file.py:21 | assigning a new key appends the pair |
| PropertiesFile.SetDistinct | skgc/edit_properties_file.py:21 | assignment keeps the keys distinct |
| PropertiesFile.SetEntries | skgc/edit_properties_file.py:21 | every entry after assignment is either the assigned pair or the entry that stood in that place before |
| PropertiesFile.Uncommented | skgc/edit_properties_file.py:15 | the part before the first `#`: a prefix with no `#`, followed by `#` or the end of the line |
| PropertiesFile.ParseLineMeaning | skgc/edit_properties_file.py:15-20 | a blank uncommented part gives no entry; a line without `=` is an error; otherwise the key is the text before the first `=` of the stripped line and the value the text up to the next `=` or the end |
| PropertiesFile.ItemsMeaning | skgc/edit_properties_file.py:18-20 | when the split on `=` has two pieces or more, the first is the text before the first `=` and the second runs to the next `=` or the end |
| PropertiesFile.SplitPair | skgc/edit_properties_file.py:18-20 | the first two pieces of a split on `=` stand at the start of the text, followed by `=` or nothing |
| PropertiesFile.ParseLast | skgc/edit_properties_file.py:14-21 | a successful parse is the parse of all lines but the last, with the last line's entry applied |
| PropertiesFile.ParseStep | skgc/edit_properties_file.py:14-21 | for any line parser, one more line either ends the parse with that line's error or applies its entry to the dict so far |
| PropertiesFile.ParseOkStep | skgc/edit_properties_file.py:14-21 | parsing one more line succeeds exactly when the earlier lines and the new line parse |
| PropertiesFile.ParseSucceeds | skgc/edit_properties_file.py:14-21 | parsing succeeds exactly when every line parses |
| PropertiesFile.ParseDistinct | skgc/edit_properties_file.py:12-21 | the parsed dict has distinct keys |
| PropertiesFile.LastWins | skgc/edit_properties_file.py:21 | the value of a key is the one on the last line that defines it |
| PropertiesFile.KeyAbsent | skgc/edit_properties_file.py:14-21 | a key no line defines is absent from the result |
| PropertiesFile.CommentIgnored | skgc/edit_properties_file.py:15 | text from the first `#` on does not change how a line parses |
| PropertiesFile.Load | skgc/edit_properties_file.py:9-23 | the parsing loop over the lines of the file computes `Parse` of those lines, stopping at the first bad line |
| PropertiesFile.ParseStopsAt | skgc/edit_properties_file.py:14-20 | once a line fails, the lines after it do not change the outcome |
| PropertiesFile.Save | skgc/edit_properties_file.py:25-33 | the accumulated text is one `key=value` line per entry, in dict order, and nothing else |
| PropertiesFile.UncommentedEntry | skgc/edit_properties_file.py:15 | a written entry has no comment to cut |
| PropertiesFile.StripEntry | skgc/edit_properties_file.py:18 | stripping a written entry's line leaves exactly `key=value` |
| PropertiesFile.SplitEntry | skgc/edit_properties_file.py:18 | splitting `key=value` on `=` gives exactly the key and the value |
| PropertiesFile.EntryLineParses | skgc/edit_properties_file.py:15-20 | the line `save` writes for an entry parses back to that entry |
| PropertiesFile.EntryLineShape | skgc/edit_properties_file.py:30 | a written line is non-empty and ends in its only newline |
| PropertiesFile.EntryLines | skgc/edit_properties_file.py:30 | one written line per entry |
| PropertiesFile.SerializeEndsInNewline | skgc/edit_properties_file.py:26-30 | the saved text is empty or ends in a newline |
| PropertiesFile.SerializeLines | skgc/edit_properties_file.py:26-30 | reading the saved text gives back exactly the lines written per entry |
| PropertiesFile.ParseSnoc | skgc/edit_properties_file.py:14-21 | parsing one more good line applies its entry to the earlier result |
| PropertiesFile.RoundTripLines | skgc/edit_properties_file.py:14-30 | parsing the written lines gives back the dict |
| PropertiesFile.RoundTrip | skgc/edit_properties_file.py:9-33 | parsing the text `save` writes gives back the same dict, in the same order, when no key or value contains `#`, `=` or a newline, no key starts and no value ends with whitespace |
| Update.MakeEmptyDirectory | skgc/update.py:59-62 | succeeds exactly when no file lies on the path; then the path is an empty directory and nothing else changed; otherwise the error `makedirs` raises |
| Update.EmptyDirectoryIdempotent | skgc/update.py:59-62 | a second `make_empty_directory` on the same path succeeds and changes nothing |
| Update.EmptyDirectoryFrame | skgc/update.py:59-62 | entries outside the emptied path are untouched |
| Update.DeleteItem | skgc/update.py:75-84 | the entry is removed (a file, or a directory with its contents), and a missing entry is a no-op; only a file above the path is an error |
| Update.CopyItem | skgc/update.py:87-95 | a copy of the source appears at `destination/name`; a missing source raises the error `copytree` raises |
| Update.CopyPlaced | skgc/update.py:87-95 | after the copy the target holds what the source holds |
| FileSystem.MakeDirsOutcome | skgc/update.py:59-62 | `os.makedirs` fails exactly when a file lies on the path or, without `exist_ok`, the path exists (`NotADirectoryError` / `FileExistsError`); then a directory is there, a new one empty, and no path beside it changes |
| FileSystem.RmTreeOutcome | skgc/update.py:59-62 | `shutil.rmtree` succeeds exactly on a directory, which is then gone with everything below it; no path beside it changes |
| FileSystem.OsRemoveOutcome | skgc/update.py:79-80 | `os.remove` succeeds exactly on a file, which is then gone; no path beside it changes |
| FileSystem.WriteFileOutcome | skgc/update.py:65-72 | writing succeeds exactly when the parent is a directory and the path is not one; then the file holds the data and no path beside it changes |
| FileSystem.MoveOutcome | skgc/update.py:21-22 | `shutil.move` into a directory fails with `shutil.Error` whenever the name is taken, and succeeds exactly when the source exists, the directory has no entry of its name and the source is not above the target; then the entry is under the directory and gone from the source, and every other path is unchanged |
| FileSystem.CopyFileOutcome | skgc/update.py:91-92 | `shutil.copy` of a file into a directory succeeds exactly when no directory of that name is there; then the copy equals the source and no path beside it changes |
| FileSystem.CopyTreeOutcome | skgc/update.py:93-95 | `shutil.copytree` succeeds exactly when the source is an existing directory, nothing is at the target and no file lies above it; a file source raises `NotADirectoryError`; then the target holds a copy of the source and no path beside it changes |
| FileSystem.UnpackOutcome | skgc/update.py:46 | `shutil.unpack_archive` fails exactly on an unreadable archive (`shutil.ReadError`) or one that clashes with the disk; then the directory holds the merge of both, and every path away from it is unchanged |
| FileSystem.MergedEntries | skgc/update.py:46 | after extraction the directory lists the entries of both; one only on disk is kept, one only in the archive is the archive's, and a file from the archive replaces what was there |
| Update.UpdateJavaServer | skgc/update.py:10-22 | success exactly when the working directories can be made, the download arrives and an old jar exists; then the backup holds exactly the old jar, the root jar is the download, and everything else is unchanged; a failed download leaves the jar and the backup as they were |
| Update.BackUpAndReplace | skgc/update.py:20-22 | after the download: succeeds exactly when the backup can be emptied and an old jar exists, and then the old jar is in the backup and the new one at the root, with nothing else changed |
| Update.JavaWipedDownload | skgc/update.py:18 | emptying `skgc/download` leaves the jar and the backup alone |
| Update.JavaDownloaded | skgc/update.py:19 | the download lands at `skgc/download/server.jar` and touches nothing else the update reads |
| Update.JavaWipedBackup | skgc/update.py:20 | emptying `skgc/backup` leaves both jars alone and the backup empty |
| Update.JavaBackedUp | skgc/update.py:21 | moving the old jar leaves the backup holding only it and the root without a jar |
| Update.JavaReplaced | skgc/update.py:22 | moving the new jar puts the download at the root and empties `skgc/download` |
| Update.JavaFrame | skgc/update.py:18-22 | any path away from the two jars and the two working directories is untouched |
| Update.JavaUntouched | skgc/update.py:18-22 | every other root entry and every other entry of `skgc` is untouched |
| Update.UpdateBedrockServer | skgc/update.py:25-56 | success exactly when the update can go through; the old entries are backed up before the download; after success the backup holds exactly the old non-`skgc` entries, each copied item equals its backup, every other non-`skgc` entry comes from the archive, and the rest of `skgc` is untouched |
| Update.BackUpAll | skgc/update.py:31-38 | the backup loop moves every root entry except `skgc` into the backup |
| Update.DeleteCopyItems | skgc/update.py:50-53 | the deletion loop leaves the root without the four copied items and otherwise unchanged |
| Update.RestoreCopyItems | skgc/update.py:54-56 | the copy loop succeeds exactly when the backup lists all four items, and then brings each one back from the backup |
| Update.BackupStart | skgc/update.py:32 | the emptied backup is the state with nothing moved yet |
| Update.BackupStep | skgc/update.py:34-38 | skipping `skgc` changes nothing; moving any other entry is one more entry backed up |
| Update.BackupMove | skgc/update.py:37-38 | moving one more entry into the backup succeeds and yields the state with that entry moved in |
| Update.BackupNext | skgc/update.py:34-38 | the state with one more entry moved in is the state with that entry counted as backed up |
| Update.BackupDone | skgc/update.py:33-38 | once every entry is handled, the root holds only `skgc`, whose backup holds the old entries |
| Update.DownloadWiped | skgc/update.py:42-43 | emptying `skgc/download` after the backup fails only when a file is in the way |
| Update.Downloaded | skgc/update.py:44-45 | the archive lands at `skgc/download/server.zip` |
| Update.Unpacked | skgc/update.py:46 | unpacking an archive without `skgc` adds its entries next to `skgc` |
| Update.DeleteStep | skgc/update.py:51-53 | deleting one more copied item is removing it from the root |
| Update.CopyStep | skgc/update.py:54-56 | copying one more item from the backup restores it |
| Update.RestoreOne | skgc/update.py:54-56 | copying one saved item back is the restored state with that item added |
| Update.SavedIsOld | skgc/update.py:46-55 | what the copy loop finds in the backup is exactly the old installation |
| Update.Installed | skgc/update.py:25-56 | the final directory has the backup, the restored items, the archive's other entries and the untouched `skgc` |
| Update.Kept | skgc/update.py:50-56 | an entry that is not one of the copied items is present and unchanged after the delete and copy loops exactly when it was before |
| Update.InstalledSkgc | skgc/update.py:29-46 | `skgc` keeps everything but its two working directories |
| Update.InstalledCopy | skgc/update.py:54-56 | a restored item equals the old one in the root and in the backup |
| Server.InitialData | skgc/server.py:52-67 | the record starts not running, with empty misc data and the directory's name as alias; Bedrock with its start command exactly for `"bedrock"`, otherwise Java with its; stop command `"stop"` |
| Server.Loaded | skgc/server.py:31-35 | the record is read when its file exists; otherwise `ServerDataError` |
| Server.LogTail | skgc/server.py:130-133 | the last min(100, n) lines of the log, in order, each right-stripped |
| Server.LastEcho | skgc/server.py:165-169 | the split index is 0 or an echo of the command, and no later line is one |
| Server.EchoMeaning | skgc/server.py:168 | for a command without whitespace at its ends, a log line is its echo exactly when it is the command with only whitespace around it |
| Server.LatestMatch | skgc/server.py:171-173 | the latest line in range that the predicate accepts, or none exactly when it accepts none |
| Server.ResponseMeaning | skgc/server.py:165-173 | nothing exactly when no line from the last echo on is accepted; otherwise the latest accepted line at or after it |
| Server.FindResponse | skgc/server.py:165-173 | the forward scan and the reversed scan compute `Response` |
| Server.ResponseAfterEcho | skgc/server.py:165-173 | lines before the last echo of the command do not affect the answer |
| Server.LatestMatchShift | skgc/server.py:171-173 | a search over the tail is independent of the lines before it |
| Server.ParseCoordinate | skgc/server.py:193-197 | no line gives no position; otherwise the text after the last `Teleported <name> to` split on `,` must give exactly three parts, else `ValueError` |
| Server.CoordinateParts | skgc/server.py:193-197 | a position read off a line is three comma-free components that, joined by commas, are the text after the last `Teleported <name> to` |
| Server.FindComma | skgc/server.py:195 | the first comma after comma-free text is right after it |
| Server.CoordinateOfReply | skgc/server.py:193-197 | a reply `... Teleported <name> to x,y,z` reads back as `(x, y, z)` |
| Server.AfterOnlyMarker | skgc/server.py:195 | the text after the only occurrence of the marker is what follows it |
| Server.SplitThree | skgc/server.py:195 | `x,y,z` with comma-free parts splits into exactly those three |
| Server.TeleportCommandEcho | skgc/server.py:189-192 | the teleport command is queued unchanged, and the log line repeating it counts as its echo |
| Server.TeleportReplyMeaning | skgc/server.py:186-187 | a line is accepted as the answer exactly when `Teleported <name> to` occurs in it |
| Server.Project | skgc/server.py:221-231 | the listed keys with their values; for a missing key, `KeyError` of the first key in the listed order that is missing |
| Server.PortView | skgc/server.py:221-231 | exactly the edition's port keys with their values in the file, or an error exactly when one is missing |
| Server.SetPortEntries | skgc/server.py:239-245 | the edition's port keys read back as the ports set; every other key is unchanged |
| Server.BedrockPorts | skgc/server.py:239-241 | Bedrock sets `server-port` to p and `server-portv6` to p+1 and nothing else |
| Server.JavaPorts | skgc/server.py:242-245 | Java sets `query.port` and `server-port` to p and `rcon.port` to p+10 and nothing else |
| Server.PortNumbers | skgc/server.py:239-245 | the numbers written: Bedrock `port` and `port + 1`; Java `port` for the query and server ports and `port + 10` for RCON |
| Server.ProjectValues | skgc/server.py:221-231 | a map with exactly the keys and their values is what the projection returns |
| Server.PortsReadBack | skgc/server.py:233-249 | a file written after `set_port` parses back to the updated dict, whose port view is exactly the ports set |
| Server.PortEntryPlain | skgc/server.py:240-245 | a port entry is written faithfully by `save` |
| Server.SetPlain | skgc/server.py:239-249 | assigning a faithfully writable entry keeps the dict faithfully writable |
| Server.Server.constructor | skgc/server.py:19-24 | the object names the directory's files |
| Server.Server.Init | skgc/server.py:40-69 | the record is the initial one, even when one existed; the mailbox and the log are emptied |
| Server.Server.StartSession | skgc/server.py:73-93 | no record: `ServerDataError`; running: `ServerStartingException`, buffers untouched; otherwise both buffers emptied and the record marked running |
| Server.Server.EndSession | skgc/server.py:117-122 | the record is marked stopped; `ServerProcessError` exactly for a non-zero exit code |
| Server.Server.ReadLog | skgc/server.py:124-135 | not running: `ServerOutputException`; otherwise the last 100 log lines, right-stripped |
| Server.Server.InputCommand | skgc/server.py:147-155 | not running: `ServerInputException` with the mailbox unchanged; otherwise the mailbox gains the right-stripped command and a newline, and nothing else changes |
| Server.Server.Stop | skgc/server.py:177-179 | exactly `input_command` of the recorded stop command |
| Server.Server.GetCommandResponse | skgc/server.py:157-173 | not running: the error of `input_command`, with the mailbox and the log unchanged; otherwise the command is queued and the answer is `Response` over the last 100 log lines |
| Server.Server.GetCoordinate | skgc/server.py:181-211 | not running: the error, with the mailbox and the log unchanged; otherwise the teleport command is queued and the answer's position is read by `ParseCoordinate` |
| Server.Server.GetPort | skgc/server.py:215-231 | the edition's port view of the parsed properties, or the error on the way |
| Server.Server.SetPort | skgc/server.py:233-249 | the properties file becomes the saved dict with the edition's ports set, and `get_port` then returns exactly those ports |
| Server.Server.GetStatus | skgc/server.py:253-255 | the record's running flag, or `ServerDataError` |
| Server.Server.GetInitId | skgc/server.py:257-259 | the record's init id, or `ServerDataError` |
| Server.Server.GetAlias | skgc/server.py:261-263 | the record's alias, or `ServerDataError` |
| Server.Server.GetEdition | skgc/server.py:270-272 | the record's edition, or `ServerDataError` |
| Server.Server.GetStartCommand | skgc/server.py:279-281 | the record's start command, or `ServerDataError` |
| Server.Server.GetStopCommand | skgc/server.py:288-290 | the record's stop command, or `ServerDataError` |
| Server.Server.GetMiscData | skgc/server.py:297-299 | the record's misc data, or `ServerDataError` |
| Server.Server.SetAlias | skgc/server.py:265-268 | only the alias changes, and `get_alias` then returns it; no record: `ServerDataError` |
| Server.Server.SetEdition | skgc/server.py:274-277 | only the edition changes, and `get_edition` then returns it; no record: `ServerDataError` |
| Server.Server.SetStartCommand | skgc/server.py:283-286 | only the start command changes, and `get_start_command` then returns it; no record: `ServerDataError` |
| Server.Server.SetStopCommand | skgc/server.py:292-295 | only the stop command changes, and `get_stop_command` then returns it; no record: `ServerDataError` |
| Server.Server.SetMiscData | skgc/server.py:301-304 | only the misc data changes, and `get_misc_data` then returns it; no record: `ServerDataError` |
| Server.Open | skgc/server.py:19-27 | `ServerInitException` exactly when the path is not a directory |
| LegacyServer.InitialConfig | skgc.py:35-44 | Bedrock with its start command exactly for `"bedrock"`, otherwise Java with its; empty server data |
| LegacyServer.Reconcile | skgc.py:147-150 | a pid survives exactly when one was recorded and it is alive, and then unchanged |
| LegacyServer.YieldedExactlyOnce | skgc.py:118-127 | over a growing log, the reader has yielded as many lines as the log holds, each one in order and as it stood when read |
| LegacyServer.YieldStep | skgc.py:121-127 | after one more read, the reader has yielded one line per line of the log, each a prefix of the line as it stands now |
| LegacyServer.OnlyFirstCommandForwarded | skgc.py:86-93 | two queued commands read as two lines, so a pass forwards the first and the truncation drops the second |
| LegacyServer.OneLine | skgc.py:109-110 | a command without a newline, as `input_command` queues it, is one whole line |
| LegacyServer.Server.constructor | skgc.py:17-24 | the fields start empty, with no pid |
| LegacyServer.Server.UpdateData | skgc.py:154-173 | with `skgc/` present, both files hold exactly the object's fields; nothing else changes |
| LegacyServer.Server.ReloadData | skgc.py:131-152 | no `skgc/`: error; a missing file: `KeyError` for its first key; otherwise the fields are read, a dead pid is cleared and the result persisted (`ConfigReloaded`, `PidReloaded`); right after `update_data` with a live pid or none, nothing changes |
| LegacyServer.Server.Init | skgc.py:31-46 | an existing `skgc/` raises `FileExistsError` and no field or file changes; otherwise the edition's defaults with no pid are set and persisted |
| LegacyServer.Server.Start | skgc.py:48-64 | the fields are reloaded from `config.json`; a failed reload leaves the pid and `status.json` as the reload does; a live recorded pid raises, with the reconciled pid persisted; otherwise the new pid is recorded and persisted |
| LegacyServer.Server.InputCommand | skgc.py:101-110 | the reload reads the fields and persists the reconciled pid; a failed reload raises its own error (no `skgc/`, `KeyError('edition')`, `KeyError('pid')`) and no live process raises, both with the mailbox unchanged; otherwise the command and a newline are appended |
| LegacyServer.Server.StdoutBegin | skgc.py:67-70 | the log is emptied at session start; no other field or file changes |
| LegacyServer.Server.StdoutTick | skgc.py:71-77 | a non-empty read appends a newline and the right-stripped line, an empty read nothing; the loop ends exactly on an empty read after exit; only the log can change |
| LegacyServer.Server.StdinBegin | skgc.py:80-81 | the mailbox exists, with its contents kept; no other field or file changes |
| LegacyServer.Server.StdinTick | skgc.py:82-93 | after exit the loop ends; an empty mailbox changes nothing; otherwise exactly its first line is forwarded and the whole mailbox is cleared; only the mailbox can change |
| LegacyServer.Server.ReadLogBegin | skgc.py:112-116 | the reload reads the fields and persists the reconciled pid; a failed reload raises its own error (no `skgc/`, `KeyError('edition')`, `KeyError('pid')`); reading starts exactly when a live pid is recorded after it |
| LegacyServer.Server.ReadLogPass | skgc.py:121-129 | the lines from `count` on are yielded in order and `count` moves past them; reading ends once the recorded pid is dead; a missing log raises `FileNotFoundError` |
| LegacyServer.Open | skgc.py:17-29 | the fields start empty and a first reload runs, its failure ignored: the fields come from `config.json` when `skgc/` and that file exist, the pid is the reconciled one written back to `status.json` when both files exist and stays empty otherwise, and the mailbox and log are as found |

## Left out

- Processes: the model does not spawn any. It does not cover
  `create_subprocess_shell`, `Popen`, the exit code beyond the
  `EndSession` parameter, or the pid beyond the `Start` parameter.
  `psutil.pid_exists` is the `alive` oracle.
- Concurrency: threads, `asyncio.gather` and the `sleep` cadences are not
  modelled. Each loop pass is a separate method call, and races between a
  pass and a concurrent `input_command` are not modelled. In particular,
  `_get_command_response` reads the log after its two-second sleep, and
  `read_log` raises `ServerOutputException` if the record was marked
  stopped meanwhile; the model keeps the record fixed during the call, so
  it does not produce that error.
- The relay loops of `server.py` (`loop_stdout`, `loop_stdin`) are not
  modelled. What reaches the log while a command is answered is the
  `arrived` parameter.
- `read_log(follow=True)`, the endless polling of `server.py`, is not
  modelled. Only `follow=False`, with the default `start_line=-100`, is.
- Float parsing of coordinates is not modelled. The three components stay
  the text the server printed.
- `uuid.uuid4()` is the `initId` parameter of `Init`.
- The JSON codec is not modelled. `skgc/edit_json.py` and the
  `open_json`/`save_json` helpers of `skgc.py` are not part of this model;
  records are values, and a file is present or absent.
- `load_properties_file` and `save_properties_file` are not part of this
  model. The `PropertiesFile` parsing loop and `save` stand in for them.
- `download` (urllib) and `shutil.unpack_archive` are not modelled. Their
  results are the `fetched` and `unzip` parameters.
- File encodings and text-mode newline translation are not modelled. Lines
  end in `\n` only.
- Init: `skgc` is one flag, present or absent. A regular file named `skgc`
  is not modelled: `os.makedirs` would raise `FileExistsError` for it in
  `server.py`'s `init`, which the model of that `init` does not do, and
  the legacy `init` and `reload_data` see it the same way although one
  asks whether it exists and the other whether it is a directory.
- Update.CopyItem: only copying into an existing directory is modelled,
  which is how the update calls it.
- FileSystem.Unpack: a file/directory conflict while unpacking is reported
  as `FileExistsError`.
- Update.UpdateBedrockServer: the outcome is stated only for archives
  without an `skgc` entry of their own. An archive that overwrites `skgc`
  is modelled, but nothing is claimed about it.
- Server.Server.SetPort: `get_port` reading back the ports is stated only
  when every entry of the file can be written faithfully by `save`. For
  other files the saved text is still stated.
- LegacyServer.Server.StdinTick: it requires the mailbox to exist. Its
  start, `StdinBegin`, creates it.
- A record or configuration file that lacks some of its keys is not
  modelled. Only present or absent files are: `reload_data` raises
  `KeyError` on the first missing key of a missing file.
- The fire CLI of `skgc/skgc.py` and the console loops of `skgc.py` are
  not part of this model. They only dispatch, print and read input.
  `setup.py` is packaging.
