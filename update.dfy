/** skgc/update.py: replacing a server's program files with a new release,
    keeping the previous ones in `skgc/backup`.  The disk is a value passed
    in and returned; the download and the archive's contents are given.
    Every path is relative to the server directory. */
module Update {
  import opened Common
  import opened FileSystem

  const SkgcDir: Path := ["skgc"]
  const DownloadDir: Path := ["skgc", "download"]
  const BackupDir: Path := ["skgc", "backup"]
  const NewJar: Path := ["skgc", "download", "server.jar"]
  const OldJar: Path := ["server.jar"]
  const BackedJar: Path := ["skgc", "backup", "server.jar"]
  const ZipFile: Path := ["skgc", "download", "server.zip"]

  /** The entries a Bedrock update carries over from the previous
      installation. */
  const CopyItems: seq<string> := ["worlds", "server.properties", "permissions.json", "allowlist.json"]

  /** `make_empty_directory`: create the directory with its parents, wipe
      it, create it again.  It fails only when a file sits on the path, and
      otherwise leaves an empty directory at `p` whether or not one was
      there. */
  method MakeEmptyDirectory(fs: Node, p: Path) returns (r: Result<Node>)
    requires p != []
    ensures r.Ok? <==> !FileOnPath(fs, p)
    ensures r.Err? ==> r.error == (if UnderFile(fs, p) then NotADirectoryError else FileExistsError)
    ensures r.Ok? ==> r.value == Put(fs, p, EmptyDir)
  {
    r := MakeDirs(fs, p, true);
    if r.Err? {
      return;
    }
    var made := r.value;
    PrefixRefl(p);
    LookupPut(fs, p, EmptyDir, p);
    FoundNotUnderFile(made, p);
    r := RmTree(made, p);
    var wiped := r.value;
    LookupRemove(made, p, p);
    RemoveKeepsPath(made, p);
    r := MakeDirs(wiped, p, false);
    PutRemove(made, p, EmptyDir);
    PutTwice(fs, p, EmptyDir, EmptyDir);
  }

  /** A second `make_empty_directory` on the same path succeeds and changes
      nothing, and the directory it leaves is empty. */
  lemma EmptyDirectoryIdempotent(fs: Node, p: Path)
    requires !FileOnPath(fs, p)
    ensures var once := Put(fs, p, EmptyDir);
      && Lookup(once, p) == Some(EmptyDir)
      && !FileOnPath(once, p)
      && Put(once, p, EmptyDir) == once
  {
    PrefixRefl(p);
    LookupPut(fs, p, EmptyDir, p);
    PutClearsPath(fs, p, EmptyDir);
    PutTwice(fs, p, EmptyDir, EmptyDir);
  }

  /** `make_empty_directory` touches nothing beside the path it empties. */
  lemma EmptyDirectoryFrame(fs: Node, p: Path, q: Path)
    requires Disjoint(p, q)
    ensures Lookup(Put(fs, p, EmptyDir), q) == Lookup(fs, q)
  {
    LookupPut(fs, p, EmptyDir, q);
  }

  /** `delete_item`: a file is removed, a directory removed with its
      contents, a missing entry ignored; only a file above the path is an
      error. */
  method DeleteItem(fs: Node, p: Path) returns (r: Result<Node>)
    requires p != []
    ensures r.Ok? <==> !UnderFile(fs, p)
    ensures r.Err? ==> r.error == NotADirectoryError
    ensures r.Ok? ==> r.value == Remove(fs, p) && Lookup(r.value, p).None?
    ensures Lookup(fs, p).None? && !UnderFile(fs, p) ==> r == Ok(fs)
  {
    PrefixRefl(p);
    LookupRemove(fs, p, p);
    if Lookup(fs, p).Some? {
      FoundNotUnderFile(fs, p);
    } else if !UnderFile(fs, p) {
      RemoveMissing(fs, p);
    }
    if IsFile(fs, p) {
      r := OsRemove(fs, p);
    } else {
      r := RmTree(fs, p);
      if r.Err? && r.error == FileNotFoundError {
        r := Ok(fs);
      }
    }
  }

  /** `copy_item(src, dir)`: a copy of the entry at `src` appears under its
      own name in `dir`.  A file overwrites a file of that name; a directory
      (or a missing entry, which takes the same branch) goes through
      `copytree`, which wants the source to exist and the target not to. */
  method CopyItem(fs: Node, src: Path, dir: Path) returns (r: Result<Node>)
    requires src != [] && IsDir(fs, dir)
    ensures var target := dir + [src[|src| - 1]];
      r.Ok? <==> Lookup(fs, src).Some? && (if IsFile(fs, src) then !IsDir(fs, target) else Lookup(fs, target).None?)
    ensures Lookup(fs, src).None? ==> r == Err(MissingError(fs, src))
    ensures r.Ok? ==> r.value == Put(fs, dir + [src[|src| - 1]], Lookup(fs, src).value)
  {
    var target := dir + [src[|src| - 1]];
    DirChild(fs, dir, src[|src| - 1]);
    if IsFile(fs, src) {
      r := CopyFile(fs, src, dir);
    } else {
      r := CopyTree(fs, src, target);
    }
  }

  /** After a successful copy the target holds what the source holds. */
  lemma CopyPlaced(fs: Node, src: Path, dir: Path, x: Node)
    requires src != [] && IsDir(fs, dir) && Lookup(fs, src) == Some(x)
    ensures Lookup(Put(fs, dir + [src[|src| - 1]], x), dir + [src[|src| - 1]]) == Some(x)
  {
    var target := dir + [src[|src| - 1]];
    DirChild(fs, dir, src[|src| - 1]);
    PrefixRefl(target);
    LookupPut(fs, target, x, target);
  }

  /** `update_java_server`: fetch the new jar into `skgc/download`, move the
      running jar into a freshly emptied `skgc/backup`, and move the new jar
      into its place.  `fetched` is what the download returned (`None` when
      it failed).  The disk is returned whether or not a step failed, since
      the steps already taken stay taken. */
  method UpdateJavaServer(root: Node, fetched: Option<seq<bv8>>) returns (fs: Node, err: Option<Error>)
    requires root.Dir?
    ensures err.None? <==>
      && !FileOnPath(root, DownloadDir) && fetched.Some?
      && !FileOnPath(root, BackupDir) && Lookup(root, OldJar).Some?
    // the download comes before anything touches the jar or the backup
    ensures fetched.None? ==>
      err.Some? && Lookup(fs, OldJar) == Lookup(root, OldJar) && Lookup(fs, BackupDir) == Lookup(root, BackupDir)
    ensures err.None? ==> JavaUpdated(root, fs, fetched.value)
  {
    fs := root;
    var r := MakeEmptyDirectory(fs, DownloadDir);
    if r.Err? {
      return fs, Some(r.error);
    }
    var fs1 := r.value;
    JavaWipedDownload(root, fs1);
    fs := fs1;
    if fetched.None? {
      return fs, Some(DownloadError);
    }
    var data := fetched.value;

    // download(url, new_jar_path)
    JavaDownloaded(root, fs1, data);
    r := WriteFile(fs1, NewJar, data);
    fs, err := BackUpAndReplace(root, fs1, r.value, data);
  }

  /** The second half of `update_java_server`, once the new jar is in
      `skgc/download`: empty `skgc/backup`, move the running jar into it,
      move the new jar into its place. */
  method BackUpAndReplace(ghost root: Node, ghost fs1: Node, fs2: Node, data: seq<bv8>) returns (fs: Node, err: Option<Error>)
    requires root.Dir? && !FileOnPath(root, DownloadDir)
    requires fs1 == Put(root, DownloadDir, EmptyDir) && fs2 == Put(fs1, NewJar, File(data))
    requires fs2.Dir? && Lookup(fs2, NewJar) == Some(File(data))
    requires Lookup(fs2, DownloadDir) == Some(Dir(map["server.jar" := File(data)]))
    requires Lookup(fs2, OldJar) == Lookup(root, OldJar)
    requires FileOnPath(fs2, BackupDir) <==> FileOnPath(root, BackupDir)
    ensures err.None? <==> !FileOnPath(root, BackupDir) && Lookup(root, OldJar).Some?
    ensures err.None? ==> JavaUpdated(root, fs, data)
  {
    fs := fs2;
    var r := MakeEmptyDirectory(fs2, BackupDir);
    if r.Err? {
      return fs, Some(r.error);
    }
    var fs3 := r.value;
    JavaWipedBackup(fs2, fs3);
    fs := fs3;

    // shutil.move(old_jar_path, backup_path)
    JavaBackedUp(fs3);
    r := Move(fs3, OldJar, BackupDir);
    if r.Err? {
      return fs, Some(r.error);
    }
    var fs4 := r.value;
    fs := fs4;

    // shutil.move(new_jar_path, path)
    JavaReplaced(fs4, data);
    r := Move(fs4, NewJar, []);
    var fs5 := r.value;
    fs := fs5;
    err := None;

    JavaUntouched(root, fs1, fs2, fs3, fs4, fs5, data);
  }

  /** The server directory after a successful Java update: the root jar is
      the download, the backup holds exactly the old jar, the download
      directory is left empty, and every other entry of the server directory
      and of `skgc` is as it was. */
  ghost predicate JavaUpdated(root: Node, fs: Node, data: seq<bv8>) {
    && Lookup(root, OldJar).Some?
    && Lookup(fs, OldJar) == Some(File(data))
    && Lookup(fs, BackupDir) == Some(Dir(map["server.jar" := Lookup(root, OldJar).value]))
    && Lookup(fs, DownloadDir) == Some(EmptyDir)
    && (forall k :: k != "skgc" && k != "server.jar" ==> Lookup(fs, [k]) == Lookup(root, [k]))
    && (forall k :: k != "download" && k != "backup" ==> Lookup(fs, ["skgc", k]) == Lookup(root, ["skgc", k]))
  }

  // The steps of `update_java_server`, one lemma each.

  lemma JavaWipedDownload(root: Node, fs1: Node)
    requires root.Dir? && !FileOnPath(root, DownloadDir) && fs1 == Put(root, DownloadDir, EmptyDir)
    ensures fs1.Dir? && Lookup(fs1, DownloadDir) == Some(EmptyDir)
    ensures Lookup(fs1, OldJar) == Lookup(root, OldJar) && Lookup(fs1, BackupDir) == Lookup(root, BackupDir)
  {
    PrefixRefl(DownloadDir);
    LookupPut(root, DownloadDir, EmptyDir, DownloadDir);
    LookupPut(root, DownloadDir, EmptyDir, OldJar);
    LookupPut(root, DownloadDir, EmptyDir, BackupDir);
  }

  lemma JavaDownloaded(root: Node, fs1: Node, data: seq<bv8>)
    requires fs1.Dir? && Lookup(fs1, DownloadDir) == Some(EmptyDir)
    requires Lookup(fs1, OldJar) == Lookup(root, OldJar) && Lookup(fs1, BackupDir) == Lookup(root, BackupDir)
    requires root.Dir? && !FileOnPath(root, DownloadDir)
    ensures var fs2 := Put(fs1, NewJar, File(data));
      && WriteFile(fs1, NewJar, data) == Ok(fs2)
      && fs2.Dir?
      && Lookup(fs2, NewJar) == Some(File(data))
      && Lookup(fs2, DownloadDir) == Some(Dir(map["server.jar" := File(data)]))
      && Lookup(fs2, OldJar) == Lookup(root, OldJar)
      && Lookup(fs2, BackupDir) == Lookup(root, BackupDir)
      && (FileOnPath(fs2, BackupDir) <==> FileOnPath(root, BackupDir))
  {
    var fs2 := Put(fs1, NewJar, File(data));
    assert NewJar == DownloadDir + ["server.jar"];
    PutChild(fs1, DownloadDir, "server.jar", File(data));
    DirChild(fs1, DownloadDir, "server.jar");
    PrefixRefl(NewJar);
    LookupPut(fs1, NewJar, File(data), NewJar);
    PutAncestorDir(fs1, NewJar, File(data), SkgcDir);
    LookupPut(fs1, NewJar, File(data), OldJar);
    LookupPut(fs1, NewJar, File(data), BackupDir);
    DirChild(fs2, SkgcDir, "backup");
    assert !UnderFile(root, BackupDir) by {
      assert !UnderFile(root, DownloadDir);
    }
  }

  lemma JavaWipedBackup(fs2: Node, fs3: Node)
    requires fs2.Dir? && !FileOnPath(fs2, BackupDir) && fs3 == Put(fs2, BackupDir, EmptyDir)
    ensures fs3.Dir? && Lookup(fs3, BackupDir) == Some(EmptyDir)
    ensures Lookup(fs3, OldJar) == Lookup(fs2, OldJar) && Lookup(fs3, NewJar) == Lookup(fs2, NewJar)
    ensures Lookup(fs3, DownloadDir) == Lookup(fs2, DownloadDir) && Lookup(fs3, BackedJar).None?
  {
    PrefixRefl(BackupDir);
    LookupPut(fs2, BackupDir, EmptyDir, BackupDir);
    LookupPut(fs2, BackupDir, EmptyDir, OldJar);
    LookupPut(fs2, BackupDir, EmptyDir, NewJar);
    LookupPut(fs2, BackupDir, EmptyDir, DownloadDir);
    LookupPut(fs2, BackupDir, EmptyDir, BackedJar);
  }

  lemma JavaBackedUp(fs3: Node)
    requires fs3.Dir? && Lookup(fs3, BackupDir) == Some(EmptyDir) && Lookup(fs3, BackedJar).None?
    ensures IsDir(fs3, BackupDir)
    ensures Lookup(fs3, OldJar).None? ==> Move(fs3, OldJar, BackupDir).Err?
    ensures Lookup(fs3, OldJar).Some? ==>
      var fs4 := Put(Remove(fs3, OldJar), BackedJar, Lookup(fs3, OldJar).value);
      && Move(fs3, OldJar, BackupDir) == Ok(fs4)
      && fs4.Dir? && Lookup(fs4, OldJar).None?
      && Lookup(fs4, BackupDir) == Some(Dir(map["server.jar" := Lookup(fs3, OldJar).value]))
      && Lookup(fs4, NewJar) == Lookup(fs3, NewJar) && Lookup(fs4, DownloadDir) == Lookup(fs3, DownloadDir)
  {
    assert BackedJar == BackupDir + ["server.jar"];
    if Lookup(fs3, OldJar).Some? {
      var oldJar := Lookup(fs3, OldJar).value;
      var gone := Remove(fs3, OldJar);
      PrefixRefl(OldJar);
      LookupRemove(fs3, OldJar, BackupDir);
      LookupRemove(fs3, OldJar, NewJar);
      LookupRemove(fs3, OldJar, DownloadDir);
      LookupRemove(fs3, OldJar, OldJar);
      PutChild(gone, BackupDir, "server.jar", oldJar);
      LookupPut(gone, BackedJar, oldJar, NewJar);
      LookupPut(gone, BackedJar, oldJar, OldJar);
      LookupPut(gone, BackedJar, oldJar, DownloadDir);
    }
  }

  lemma JavaReplaced(fs4: Node, data: seq<bv8>)
    requires fs4.Dir? && Lookup(fs4, OldJar).None? && Lookup(fs4, NewJar) == Some(File(data))
    requires Lookup(fs4, DownloadDir) == Some(Dir(map["server.jar" := File(data)]))
    ensures var fs5 := Put(Remove(fs4, NewJar), OldJar, File(data));
      && IsDir(fs4, [])
      && Move(fs4, NewJar, []) == Ok(fs5)
      && Lookup(fs5, OldJar) == Some(File(data))
      && Lookup(fs5, BackupDir) == Lookup(fs4, BackupDir)
      && Lookup(fs5, DownloadDir) == Some(EmptyDir)
  {
    assert [] + ["server.jar"] == OldJar;
    var taken := Remove(fs4, NewJar);
    assert NewJar == DownloadDir + ["server.jar"];
    RemoveChild(fs4, DownloadDir, "server.jar");
    assert map["server.jar" := File(data)] - {"server.jar"} == map[];
    LookupRemove(fs4, NewJar, BackupDir);
    DirChild(taken, [], "server.jar");
    PrefixRefl(OldJar);
    LookupPut(taken, OldJar, File(data), OldJar);
    LookupPut(taken, OldJar, File(data), BackupDir);
    LookupPut(taken, OldJar, File(data), DownloadDir);
  }

  /** The Java update touches nothing but the two jars and the two working
      directories. */
  lemma JavaFrame(root: Node, fs1: Node, fs2: Node, fs3: Node, fs4: Node, fs5: Node, data: seq<bv8>, q: Path)
    requires fs1 == Put(root, DownloadDir, EmptyDir) && fs2 == Put(fs1, NewJar, File(data))
    requires fs3 == Put(fs2, BackupDir, EmptyDir) && Lookup(fs3, OldJar).Some?
    requires fs4 == Put(Remove(fs3, OldJar), BackedJar, Lookup(fs3, OldJar).value)
    requires fs5 == Put(Remove(fs4, NewJar), OldJar, File(data))
    requires Disjoint(q, DownloadDir) && Disjoint(q, NewJar) && Disjoint(q, BackupDir)
    requires Disjoint(q, BackedJar) && Disjoint(q, OldJar)
    ensures Lookup(fs5, q) == Lookup(root, q)
  {
    LookupPut(root, DownloadDir, EmptyDir, q);
    LookupPut(fs1, NewJar, File(data), q);
    LookupPut(fs2, BackupDir, EmptyDir, q);
    LookupRemove(fs3, OldJar, q);
    LookupPut(Remove(fs3, OldJar), BackedJar, Lookup(fs3, OldJar).value, q);
    LookupRemove(fs4, NewJar, q);
    LookupPut(Remove(fs4, NewJar), OldJar, File(data), q);
  }

  lemma JavaUntouched(root: Node, fs1: Node, fs2: Node, fs3: Node, fs4: Node, fs5: Node, data: seq<bv8>)
    requires fs1 == Put(root, DownloadDir, EmptyDir) && fs2 == Put(fs1, NewJar, File(data))
    requires fs3 == Put(fs2, BackupDir, EmptyDir) && Lookup(fs3, OldJar).Some?
    requires fs4 == Put(Remove(fs3, OldJar), BackedJar, Lookup(fs3, OldJar).value)
    requires fs5 == Put(Remove(fs4, NewJar), OldJar, File(data))
    ensures forall k :: k != "skgc" && k != "server.jar" ==> Lookup(fs5, [k]) == Lookup(root, [k])
    ensures forall k :: k != "download" && k != "backup" ==> Lookup(fs5, ["skgc", k]) == Lookup(root, ["skgc", k])
  {
    forall k | k != "skgc" && k != "server.jar"
      ensures Lookup(fs5, [k]) == Lookup(root, [k])
    {
      JavaFrame(root, fs1, fs2, fs3, fs4, fs5, data, [k]);
    }
    forall k | k != "download" && k != "backup"
      ensures Lookup(fs5, ["skgc", k]) == Lookup(root, ["skgc", k])
    {
      JavaFrame(root, fs1, fs2, fs3, fs4, fs5, data, ["skgc", k]);
    }
  }

  // ---------------------------------------------------------------------
  // update_bedrock_server

  /** The root's entries other than `skgc`: what a Bedrock update backs up. */
  function OldEntries(root: Node): map<string, Node>
    requires root.Dir?
  {
    map k | k in root.children && k != "skgc" :: root.children[k]
  }

  /** The entries of `skgc` (none while it does not exist). */
  function SkgcEntries(root: Node): map<string, Node>
    requires root.Dir?
  {
    if "skgc" in root.children && root.children["skgc"].Dir? then root.children["skgc"].children else map[]
  }

  /** The server directory once the entries named in `done` have been moved
      into the emptied backup directory; `skgc` always stays. */
  function BackedUp(root: Node, done: set<string>): Node
    requires root.Dir?
  {
    var c := root.children;
    Dir(map k | k in c.Keys + {"skgc"} && (k == "skgc" || k !in done) ::
      if k == "skgc" then Dir(SkgcEntries(root)["backup" := Dir(Saved(root, done))]) else c[k])
  }

  /** The entries named in `done` that have been moved into the backup. */
  function Saved(root: Node, done: set<string>): map<string, Node>
    requires root.Dir?
  {
    map j | j in root.children && j in done && j != "skgc" :: root.children[j]
  }

  /** `skgc` once the old entries are backed up and the release is
      downloaded. */
  function Staged(root: Node, data: seq<bv8>): map<string, Node>
    requires root.Dir?
  {
    SkgcEntries(root)["backup" := Dir(OldEntries(root))]["download" := Dir(map["server.zip" := File(data)])]
  }

  /** `entries` with the entries named in `items` taken from `saved`. */
  function Restored(entries: map<string, Node>, saved: map<string, Node>, items: seq<string>): map<string, Node> {
    map k | k in entries.Keys + saved.Keys && (k in entries || k in items) ::
      if k in items && k in saved then saved[k] else entries[k]
  }

  /** What the directory `d` lists (nothing when it is not a directory). */
  function Listing(n: Node, d: Path): map<string, Node> {
    if IsDir(n, d) then Lookup(n, d).value.children else map[]
  }

  /** The archive does not carry an `skgc` entry of its own (a Bedrock
      release does not). */
  predicate SkgcNotInArchive(fetched: Option<seq<bv8>>, unzip: seq<bv8> -> Option<map<string, Node>>) {
    fetched.Some? && unzip(fetched.value).Some? ==> "skgc" !in unzip(fetched.value).value
  }

  /** When a Bedrock update goes through. */
  predicate BedrockUpdatable(root: Node, fetched: Option<seq<bv8>>, unzip: seq<bv8> -> Option<map<string, Node>>)
    requires root.Dir?
  {
    && !FileOnPath(root, BackupDir) && !IsFile(root, DownloadDir)
    && fetched.Some? && unzip(fetched.value).Some?
    && forall x :: x in CopyItems ==> x in root.children
  }

  /** `update_bedrock_server`: every entry of the server directory but
      `skgc` is moved into a freshly emptied `skgc/backup`; the release is
      downloaded to `skgc/download/server.zip` and unpacked into the
      server directory; then the worlds, the properties, the permissions
      and the allow-list are deleted and copied back from the backup.
      `unzip` gives the entries of a downloaded archive (`None` when it
      cannot be read).  The disk is returned whether or not a step failed. */
  method UpdateBedrockServer(root: Node, fetched: Option<seq<bv8>>, unzip: seq<bv8> -> Option<map<string, Node>>)
    returns (fs: Node, err: Option<Error>)
    requires root.Dir?
    ensures SkgcNotInArchive(fetched, unzip) ==> (err.None? <==> BedrockUpdatable(root, fetched, unzip))
    // the old installation is safe in the backup before the download starts
    ensures fetched.None? && !FileOnPath(root, BackupDir) && !IsFile(root, DownloadDir) ==>
      && err == Some(DownloadError) && fs.Dir? && fs.children.Keys == {"skgc"}
      && Lookup(fs, BackupDir) == Some(Dir(OldEntries(root)))
    ensures err.None? && SkgcNotInArchive(fetched, unzip) ==>
      var entries := unzip(fetched.value).value;
      && Lookup(fs, BackupDir) == Some(Dir(OldEntries(root)))
      && (forall x :: x in CopyItems ==>
            Lookup(fs, [x]) == Lookup(root, [x]) && Lookup(fs, BackupDir + [x]) == Lookup(root, [x]))
      && (forall k :: k != "skgc" && k !in CopyItems ==>
            Lookup(fs, [k]) == if k in entries then Some(entries[k]) else None)
      && (forall k :: k != "backup" && k != "download" ==> Lookup(fs, ["skgc", k]) == Lookup(root, ["skgc", k]))
      && Lookup(fs, ZipFile) == Some(File(fetched.value))
  {
    var r := MakeEmptyDirectory(root, BackupDir);
    if r.Err? {
      return root, Some(r.error);
    }
    // for item in os.listdir(path): everything but skgc goes into the backup
    fs := BackUpAll(root, r.value);
    var fs2 := fs;
    DownloadWiped(root, fs2);

    r := MakeEmptyDirectory(fs2, DownloadDir);
    if r.Err? {
      return fs, Some(r.error);
    }
    fs := r.value;
    if fetched.None? {
      return fs, Some(DownloadError);
    }
    var data := fetched.value;
    Downloaded(root, data);
    r := WriteFile(fs, ZipFile, data);
    fs := r.value;

    // shutil.unpack_archive(zip_path, path)
    if unzip(data).Some? && "skgc" !in unzip(data).value {
      Unpacked(root, data, unzip(data).value);
    }
    r := Unpack(fs, [], unzip(data));
    if r.Err? {
      return fs, Some(r.error);
    }
    fs := r.value;
    var fs5 := fs;

    fs := DeleteCopyItems(fs5);
    var fs6 := fs;
    var failed;
    fs, failed := RestoreCopyItems(fs5, fs6);
    if failed.Some? {
      if SkgcNotInArchive(fetched, unzip) {
        SavedIsOld(root, data, unzip(data).value, fs5, fs6);
      }
      return fs, failed;
    }
    if SkgcNotInArchive(fetched, unzip) {
      SavedIsOld(root, data, unzip(data).value, fs5, fs6);
      assert forall x :: x in CopyItems ==> x in root.children;
      Installed(root, data, unzip(data).value, fs6, fs);
    }
    err := None;
  }

  /** The backup loop of `update_bedrock_server`: every entry of the
      server directory but `skgc` is moved into the emptied backup. */
  method BackUpAll(root: Node, fs1: Node) returns (fs: Node)
    requires root.Dir? && !FileOnPath(root, BackupDir) && fs1 == Put(root, BackupDir, EmptyDir)
    ensures fs == BackedUp(root, root.children.Keys + {"skgc"})
  {
    BackupStart(root);
    fs := fs1;
    var items := fs.children.Keys;
    var remaining := items;
    ghost var done: set<string> := {};
    while remaining != {}
      invariant remaining <= items && done == items - remaining
      invariant fs == BackedUp(root, done)
      decreases |remaining|
    {
      var item :| item in remaining;
      BackupStep(root, done, item);
      TakeOne(items, remaining, done, item);
      if item != "skgc" {
        var r := Move(fs, [item], BackupDir);
        fs := r.value;
      }
      remaining := remaining - {item};
      done := done + {item};
    }
    assert done == items;
  }

  /** Taking one item from what remains moves it to what is done. */
  lemma TakeOne(items: set<string>, remaining: set<string>, done: set<string>, item: string)
    requires remaining <= items && done == items - remaining && item in remaining
    ensures remaining - {item} <= items && done + {item} == items - (remaining - {item})
    ensures |remaining - {item}| < |remaining|
  {
  }

  /** The deletion loop of `update_bedrock_server`: the copied items are
      removed from the unpacked release. */
  method DeleteCopyItems(fs5: Node) returns (fs: Node)
    requires fs5.Dir?
    ensures fs == Dir(Without(fs5.children, CopyItems))
  {
    fs := fs5;
    assert fs5.children == Without(fs5.children, CopyItems[..0]);
    for i := 0 to |CopyItems|
      invariant fs == Dir(Without(fs5.children, CopyItems[..i]))
    {
      DeleteStep(fs5.children, i);
      var r := DeleteItem(fs, [CopyItems[i]]);
      fs := r.value;
    }
    assert CopyItems[..|CopyItems|] == CopyItems;
  }

  /** The copy loop of `update_bedrock_server`: each copied item is brought
      back from the backup; the first one missing from it stops the
      update with the copy's error. */
  method RestoreCopyItems(ghost fs5: Node, fs6: Node) returns (fs: Node, err: Option<Error>)
    requires fs5.Dir? && fs6 == Dir(Without(fs5.children, CopyItems))
    ensures var saved := Listing(fs6, BackupDir);
      && (err.None? <==> forall x :: x in CopyItems ==> x in saved)
      && (err.None? ==> fs == Dir(Restored(fs6.children, saved, CopyItems)))
  {
    var saved := Listing(fs6, BackupDir);
    fs := fs6;
    assert fs6.children == Restored(fs6.children, saved, CopyItems[..0]);
    for i := 0 to |CopyItems|
      invariant fs == Dir(Restored(fs6.children, saved, CopyItems[..i]))
      invariant forall x :: x in CopyItems[..i] ==> x in saved
    {
      CopyStep(fs5, fs6, i, fs);
      var r := CopyItem(fs, BackupDir + [CopyItems[i]], []);
      if r.Err? {
        return fs, Some(r.error);
      }
      fs := r.value;
    }
    assert CopyItems[..|CopyItems|] == CopyItems;
    err := None;
  }

  // The steps of `update_bedrock_server`, one lemma each.

  lemma BackupStart(root: Node)
    requires root.Dir? && !FileOnPath(root, BackupDir)
    ensures Put(root, BackupDir, EmptyDir) == BackedUp(root, {})
    ensures BackedUp(root, {}).children.Keys == root.children.Keys + {"skgc"}
  {
    var c := root.children;
    assert Saved(root, {}).Keys == {};
    assert Saved(root, {}) == map[];
    assert "skgc" in c ==> c["skgc"].Dir?;
    assert Put(root, BackupDir, EmptyDir).children == BackedUp(root, {}).children;
  }

  lemma BackupStep(root: Node, done: set<string>, item: string)
    requires root.Dir? && item in root.children.Keys + {"skgc"} && item !in done
    ensures IsDir(BackedUp(root, done), BackupDir)
    ensures item == "skgc" ==> BackedUp(root, done + {item}) == BackedUp(root, done)
    ensures item != "skgc" ==> Move(BackedUp(root, done), [item], BackupDir) == Ok(BackedUp(root, done + {item}))
  {
    var c := root.children;
    var b := BackedUp(root, done);
    var saved := Saved(root, done);
    var sk := SkgcEntries(root)["backup" := Dir(saved)];
    assert b.children["skgc"] == Dir(sk);
    assert sk["backup"] == Dir(saved);
    if item == "skgc" {
      assert Saved(root, done + {item}) == saved;
      assert BackedUp(root, done + {item}).children == b.children;
    } else {
      BackupMove(root, done, item);
      BackupNext(root, done, item);
    }
  }

  /** The directory a move into the backup leaves: `item` gone from the
      top level and added to the backup's entries. */
  function MovedIn(root: Node, done: set<string>, item: string): Node
    requires root.Dir? && item in root.children
  {
    var sk := SkgcEntries(root)["backup" := Dir(Saved(root, done)[item := root.children[item]])];
    Dir((BackedUp(root, done).children - {item})["skgc" := Dir(sk)])
  }

  lemma BackupMove(root: Node, done: set<string>, item: string)
    requires root.Dir? && item in root.children && item != "skgc" && item !in done
    ensures IsDir(BackedUp(root, done), BackupDir)
    ensures Move(BackedUp(root, done), [item], BackupDir) == Ok(MovedIn(root, done, item))
  {
    var c := root.children;
    var b := BackedUp(root, done);
    var saved := Saved(root, done);
    var sk := SkgcEntries(root)["backup" := Dir(saved)];
    assert b.children["skgc"] == Dir(sk);
    assert sk["backup"] == Dir(saved);
    var x := c[item];
    var target := BackupDir + [item];
    assert target == ["skgc", "backup", item];
    assert Lookup(b, [item]) == Some(x);
    assert item !in saved;
    assert Lookup(Dir(saved), [item]).None?;
    assert Lookup(b, target) == Lookup(Dir(sk), ["backup", item]) == Lookup(Dir(saved), [item]);
    assert !Prefix([item], target);
    var gone := Remove(b, [item]);
    assert gone == Dir(b.children - {item});
    assert gone.children["skgc"] == Dir(sk);
    var saved' := saved[item := x];
    assert Put(Dir(saved), [item], x) == Dir(saved');
    assert Put(Dir(sk), ["backup", item], x) == Dir(sk["backup" := Dir(saved')]);
    assert Put(gone, target, x) == Dir(gone.children["skgc" := Dir(sk["backup" := Dir(saved')])]);
    assert sk["backup" := Dir(saved')] == SkgcEntries(root)["backup" := Dir(saved')];
    assert MovedIn(root, done, item) == Dir(gone.children["skgc" := Dir(sk["backup" := Dir(saved')])]);
    assert [item][|[item]| - 1] == item;
  }

  lemma BackupNext(root: Node, done: set<string>, item: string)
    requires root.Dir? && item in root.children && item != "skgc" && item !in done
    ensures BackedUp(root, done + {item}) == MovedIn(root, done, item)
  {
    var c := root.children;
    var after := BackedUp(root, done + {item});
    var saved' := Saved(root, done)[item := c[item]];
    assert Saved(root, done + {item}) == saved';
    var expected := MovedIn(root, done, item).children;
    assert after.children.Keys == expected.Keys;
    forall k | k in expected ensures after.children[k] == expected[k] {
      if k != "skgc" {
        assert expected[k] == c[k];
      }
    }
  }

  lemma BackupDone(root: Node, items: set<string>)
    requires root.Dir? && items == root.children.Keys + {"skgc"}
    ensures BackedUp(root, items) == Dir(map["skgc" := Dir(SkgcEntries(root)["backup" := Dir(OldEntries(root))])])
  {
    assert Saved(root, items) == OldEntries(root);
    assert BackedUp(root, items).children == map["skgc" := Dir(SkgcEntries(root)["backup" := Dir(OldEntries(root))])];
  }

  lemma DownloadWiped(root: Node, fs2: Node)
    requires root.Dir? && !FileOnPath(root, BackupDir)
    requires fs2 == BackedUp(root, root.children.Keys + {"skgc"})
    ensures (FileOnPath(fs2, DownloadDir) <==> IsFile(root, DownloadDir))
    ensures !IsFile(root, DownloadDir) ==>
      var fs3 := Put(fs2, DownloadDir, EmptyDir);
      && fs3 == Dir(map["skgc" := Dir(SkgcEntries(root)["backup" := Dir(OldEntries(root))]["download" := EmptyDir])])
      && fs3.children.Keys == {"skgc"} && Lookup(fs3, BackupDir) == Some(Dir(OldEntries(root)))
  {
    BackupDone(root, root.children.Keys + {"skgc"});
    var sk := SkgcEntries(root)["backup" := Dir(OldEntries(root))];
    assert fs2 == Dir(map["skgc" := Dir(sk)]);
    assert "skgc" in root.children ==> root.children["skgc"].Dir?;
    assert IsFile(fs2, DownloadDir) <==> IsFile(root, DownloadDir);
  }

  lemma Downloaded(root: Node, data: seq<bv8>)
    requires root.Dir?
    ensures var fs3 := Dir(map["skgc" := Dir(SkgcEntries(root)["backup" := Dir(OldEntries(root))]["download" := EmptyDir])]);
      WriteFile(fs3, ZipFile, data) == Ok(Dir(map["skgc" := Dir(Staged(root, data))]))
  {
    var sk3 := SkgcEntries(root)["backup" := Dir(OldEntries(root))]["download" := EmptyDir];
    var fs3 := Dir(map["skgc" := Dir(sk3)]);
    assert ZipFile[..|ZipFile| - 1] == DownloadDir;
    assert IsDir(fs3, DownloadDir) && !IsDir(fs3, ZipFile);
    var zip := Dir(map["server.zip" := File(data)]);
    assert Put(EmptyDir, ["server.zip"], File(data)) == zip;
    assert Put(Dir(sk3), ["download", "server.zip"], File(data)) == Dir(sk3["download" := zip]);
    assert sk3["download" := zip] == Staged(root, data);
    assert map["skgc" := Dir(sk3)]["skgc" := Dir(Staged(root, data))] == map["skgc" := Dir(Staged(root, data))];
  }

  lemma Unpacked(root: Node, data: seq<bv8>, entries: map<string, Node>)
    requires root.Dir? && "skgc" !in entries
    ensures var fs4 := Dir(map["skgc" := Dir(Staged(root, data))]);
      Unpack(fs4, [], Some(entries)) == Ok(Dir(entries["skgc" := Dir(Staged(root, data))]))
  {
    var fs4 := Dir(map["skgc" := Dir(Staged(root, data))]);
    assert !Clash(fs4, Dir(entries));
    assert Merged(fs4, Dir(entries)).children == entries["skgc" := Dir(Staged(root, data))];
  }

  /** `entries` without the entries named in `items`. */
  function Without(entries: map<string, Node>, items: seq<string>): map<string, Node> {
    map k | k in entries && k !in items :: entries[k]
  }

  lemma DeleteStep(entries: map<string, Node>, i: nat)
    requires i < |CopyItems|
    ensures var fs := Dir(Without(entries, CopyItems[..i]));
      && !UnderFile(fs, [CopyItems[i]])
      && Remove(fs, [CopyItems[i]]) == Dir(Without(entries, CopyItems[..i + 1]))
  {
    assert CopyItems[..i + 1] == CopyItems[..i] + [CopyItems[i]];
  }

  lemma CopyStep(fs5: Node, fs6: Node, i: nat, fs: Node)
    requires fs5.Dir? && i < |CopyItems|
    requires fs6 == Dir(Without(fs5.children, CopyItems))
    requires fs == Dir(Restored(fs6.children, Listing(fs6, BackupDir), CopyItems[..i]))
    ensures var saved := Listing(fs6, BackupDir);
      var x := CopyItems[i];
      var src := BackupDir + [x];
      && IsDir(fs, []) && src[|src| - 1] == x && [] + [x] == [x]
      && Lookup(fs, [x]).None? && !IsDir(fs, [x])
      && (Lookup(fs, src).Some? <==> x in saved)
      && (x in saved ==>
            && Lookup(fs, src) == Some(saved[x])
            && Put(fs, [] + [src[|src| - 1]], Lookup(fs, src).value) == Dir(Restored(fs6.children, saved, CopyItems[..i + 1])))
  {
    var saved := Listing(fs6, BackupDir);
    var x := CopyItems[i];
    var done := CopyItems[..i];
    assert x !in done;
    assert "skgc" !in CopyItems;
    assert Lookup(fs, ["skgc"]) == Lookup(fs6, ["skgc"]);
    assert Lookup(fs, BackupDir) == Lookup(fs6, BackupDir);
    LookupChild(fs, BackupDir, x);
    assert CopyItems[..i + 1] == done + [x];
    if x in saved {
      RestoreOne(fs6.children, saved, done, x);
    }
  }

  /** Restoring one more saved entry puts it in place. */
  lemma RestoreOne(entries: map<string, Node>, saved: map<string, Node>, done: seq<string>, x: string)
    requires x in saved
    ensures Put(Dir(Restored(entries, saved, done)), [x], saved[x]) == Dir(Restored(entries, saved, done + [x]))
  {
    var before := Restored(entries, saved, done);
    var after := Restored(entries, saved, done + [x]);
    assert Put(Dir(before), [x], saved[x]) == Dir(before[x := saved[x]]);
    assert before[x := saved[x]] == after;
  }

  lemma SavedIsOld(root: Node, data: seq<bv8>, entries: map<string, Node>, fs5: Node, fs6: Node)
    requires root.Dir? && "skgc" !in entries
    requires fs5 == Dir(entries["skgc" := Dir(Staged(root, data))])
    requires fs6 == Dir(Without(fs5.children, CopyItems))
    ensures Listing(fs6, BackupDir) == OldEntries(root)
    ensures forall x :: x in CopyItems ==> (x in OldEntries(root) <==> x in root.children)
  {
    assert fs6.children["skgc"] == Dir(Staged(root, data));
    assert Lookup(fs6, BackupDir) == Some(Dir(OldEntries(root)));
  }

  /** What a successful Bedrock update leaves in the server directory. */
  lemma Installed(root: Node, data: seq<bv8>, entries: map<string, Node>, fs6: Node, fs: Node)
    requires root.Dir? && "skgc" !in entries
    requires fs6 == Dir(Without(entries["skgc" := Dir(Staged(root, data))], CopyItems))
    requires forall x :: x in CopyItems ==> x in OldEntries(root)
    requires fs == Dir(Restored(fs6.children, OldEntries(root), CopyItems))
    ensures Lookup(fs, BackupDir) == Some(Dir(OldEntries(root)))
    ensures forall x :: x in CopyItems ==>
      Lookup(fs, [x]) == Lookup(root, [x]) && Lookup(fs, BackupDir + [x]) == Lookup(root, [x])
    ensures forall k :: k != "skgc" && k !in CopyItems ==>
      Lookup(fs, [k]) == if k in entries then Some(entries[k]) else None
    ensures forall k :: k != "backup" && k != "download" ==> Lookup(fs, ["skgc", k]) == Lookup(root, ["skgc", k])
    ensures Lookup(fs, ZipFile) == Some(File(data))
  {
    var fs5 := entries["skgc" := Dir(Staged(root, data))];
    assert "skgc" !in CopyItems;
    Kept(fs5, OldEntries(root), CopyItems, "skgc");
    InstalledSkgc(root, data, fs);
    forall x | x in CopyItems
      ensures Lookup(fs, [x]) == Lookup(root, [x]) && Lookup(fs, BackupDir + [x]) == Lookup(root, [x])
    {
      InstalledCopy(root, data, fs, x);
    }
    forall k | k != "skgc" && k !in CopyItems
      ensures Lookup(fs, [k]) == if k in entries then Some(entries[k]) else None
    {
      Kept(fs5, OldEntries(root), CopyItems, k);
    }
  }

  /** An entry not named in the items survives removing them and restoring
      them, and only such entries of `entries` do. */
  lemma Kept(entries: map<string, Node>, saved: map<string, Node>, items: seq<string>, k: string)
    requires k !in items
    ensures var r := Restored(Without(entries, items), saved, items);
      && (k in r <==> k in entries)
      && (k in r ==> r[k] == entries[k])
  {
  }

  lemma InstalledSkgc(root: Node, data: seq<bv8>, fs: Node)
    requires root.Dir? && fs.Dir? && "skgc" in fs.children && fs.children["skgc"] == Dir(Staged(root, data))
    ensures Lookup(fs, BackupDir) == Some(Dir(OldEntries(root)))
    ensures forall k :: k != "backup" && k != "download" ==> Lookup(fs, ["skgc", k]) == Lookup(root, ["skgc", k])
    ensures Lookup(fs, ZipFile) == Some(File(data))
  {
    var staged := Staged(root, data);
    forall k | k != "backup" && k != "download"
      ensures Lookup(fs, ["skgc", k]) == Lookup(root, ["skgc", k])
    {
      assert (k in staged <==> k in SkgcEntries(root)) && (k in staged ==> staged[k] == SkgcEntries(root)[k]);
    }
  }

  lemma InstalledCopy(root: Node, data: seq<bv8>, fs: Node, x: string)
    requires root.Dir? && fs.Dir? && x in CopyItems && x in OldEntries(root)
    requires "skgc" in fs.children && fs.children["skgc"] == Dir(Staged(root, data))
    requires x in fs.children && fs.children[x] == OldEntries(root)[x]
    ensures Lookup(fs, [x]) == Lookup(root, [x]) && Lookup(fs, BackupDir + [x]) == Lookup(root, [x])
  {
    assert Staged(root, data)["backup"] == Dir(OldEntries(root));
    LookupChild(fs, BackupDir, x);
  }
}
