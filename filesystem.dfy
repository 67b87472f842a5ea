/** The disk as the update procedure sees it: a tree of files and
    directories below the server directory, and the `os` / `shutil`
    operations skgc/update.py calls, each of which either fails with the
    error Python raises or changes the tree as a whole. */
module FileSystem {
  import opened Common

  /** A directory entry: a file holds bytes, a directory names its
      entries. */
  datatype Node = File(data: seq<bv8>) | Dir(children: map<string, Node>)

  /** A path of entry names, relative to the server directory. */
  type Path = seq<string>

  const EmptyDir: Node := Dir(map[])

  /** `p` is `q` or one of its ancestors. */
  predicate Prefix(p: Path, q: Path)
    ensures Prefix(p, q) ==> |p| <= |q|
  {
    p == [] || (q != [] && p[0] == q[0] && Prefix(p[1..], q[1..]))
  }

  /** Neither path lies inside the other. */
  predicate Disjoint(p: Path, q: Path) {
    !Prefix(p, q) && !Prefix(q, p)
  }

  /** The entry at `p`, if there is one. */
  function Lookup(n: Node, p: Path): Option<Node>
    decreases |p|
  {
    if p == [] then Some(n)
    else match n
      case File(_) => None
      case Dir(c) => if p[0] in c then Lookup(c[p[0]], p[1..]) else None
  }

  predicate IsFile(n: Node, p: Path) {
    Lookup(n, p).Some? && Lookup(n, p).value.File?
  }

  predicate IsDir(n: Node, p: Path) {
    Lookup(n, p).Some? && Lookup(n, p).value.Dir?
  }

  /** A proper ancestor of `p` is a file, so `p` cannot exist
      (`ENOTDIR`). */
  predicate UnderFile(n: Node, p: Path)
    decreases |p|
  {
    p != [] &&
    match n
    case File(_) => true
    case Dir(c) => p[0] in c && UnderFile(c[p[0]], p[1..])
  }

  /** A file sits at `p` or at one of its ancestors. */
  predicate FileOnPath(n: Node, p: Path) {
    UnderFile(n, p) || IsFile(n, p)
  }

  /** The error a system call raises for a path that does not exist. */
  function MissingError(n: Node, p: Path): Error {
    if UnderFile(n, p) then NotADirectoryError else FileNotFoundError
  }

  /** `n` with `x` placed at `p`, replacing what was there and creating the
      missing directories on the way; a file on the way is left alone (the
      operations below never ask for that). */
  function Put(n: Node, p: Path, x: Node): Node
    decreases |p|
  {
    if p == [] then x
    else match n
      case File(_) => n
      case Dir(c) => Dir(c[p[0] := Put(if p[0] in c then c[p[0]] else EmptyDir, p[1..], x)])
  }

  /** `n` without the entry at `p` (unchanged when there is none). */
  function Remove(n: Node, p: Path): Node
    requires p != []
    decreases |p|
  {
    match n
    case File(_) => n
    case Dir(c) =>
      if |p| == 1 then Dir(c - {p[0]})
      else if p[0] in c then Dir(c[p[0] := Remove(c[p[0]], p[1..])])
      else n
  }

  // ---------------------------------------------------------------------
  // The library calls, one function each.

  /** `os.makedirs(p, exist_ok=existOk)`. */
  function MakeDirs(n: Node, p: Path, existOk: bool): Result<Node> {
    if UnderFile(n, p) then Err(NotADirectoryError)
    else if IsFile(n, p) then Err(FileExistsError)
    else if Lookup(n, p).Some? then (if existOk then Ok(n) else Err(FileExistsError))
    else Ok(Put(n, p, EmptyDir))
  }

  /** `shutil.rmtree(p)`. */
  function RmTree(n: Node, p: Path): Result<Node>
    requires p != []
  {
    match Lookup(n, p)
    case None => Err(MissingError(n, p))
    case Some(File(_)) => Err(NotADirectoryError)
    case Some(Dir(_)) => Ok(Remove(n, p))
  }

  /** `os.remove(p)`. */
  function OsRemove(n: Node, p: Path): Result<Node>
    requires p != []
  {
    match Lookup(n, p)
    case None => Err(MissingError(n, p))
    case Some(Dir(_)) => Err(IsADirectoryError)
    case Some(File(_)) => Ok(Remove(n, p))
  }

  /** `open(p, "wb").write(data)`. */
  function WriteFile(n: Node, p: Path, data: seq<bv8>): Result<Node>
    requires p != []
  {
    if !IsDir(n, p[..|p| - 1]) then Err(MissingError(n, p))
    else if IsDir(n, p) then Err(IsADirectoryError)
    else Ok(Put(n, p, File(data)))
  }

  /** `shutil.move(src, dir)` into an existing directory `dir`: the entry
      keeps its name.  An existing entry of that name is a `shutil.Error`,
      checked before the source; then a missing source is the error the
      rename raises, and a directory moved into itself a `shutil.Error`. */
  function Move(n: Node, src: Path, dir: Path): Result<Node>
    requires src != [] && IsDir(n, dir)
  {
    var target := dir + [src[|src| - 1]];
    if Lookup(n, target).Some? then Err(ShutilError)
    else
      match Lookup(n, src)
      case None => Err(MissingError(n, src))
      case Some(x) =>
        if Prefix(src, target) then Err(ShutilError)
        else Ok(Put(Remove(n, src), target, x))
  }

  /** `shutil.copy(src, dir)` of a file into an existing directory:
      overwrites a file of the same name, refuses a directory. */
  function CopyFile(n: Node, src: Path, dir: Path): Result<Node>
    requires src != [] && IsFile(n, src) && IsDir(n, dir)
  {
    var target := dir + [src[|src| - 1]];
    if IsDir(n, target) then Err(IsADirectoryError)
    else Ok(Put(n, target, Lookup(n, src).value))
  }

  /** `shutil.copytree(src, target)`: the source must be an existing
      directory (it is scanned first, so a file raises `NotADirectoryError`)
      and the target must not exist. */
  function CopyTree(n: Node, src: Path, target: Path): Result<Node> {
    match Lookup(n, src)
    case None => Err(MissingError(n, src))
    case Some(x) =>
      if x.File? then Err(NotADirectoryError)
      else if Lookup(n, target).Some? then Err(FileExistsError)
      else if FileOnPath(n, target) then Err(MissingError(n, target))
      else Ok(Put(n, target, x))
  }

  /** Two trees clash where one has a file and the other a directory at the
      same path. */
  predicate Clash(disk: Node, archive: Node) {
    match (disk, archive)
    case (Dir(dc), Dir(ac)) => exists k :: k in ac && k in dc && Clash(dc[k], ac[k])
    case (File(_), File(_)) => false
    case _ => true
  }

  /** `archive` extracted over `disk`: directories merge, files from the
      archive replace files on disk. */
  function Merged(disk: Node, archive: Node): Node {
    match (disk, archive)
    case (Dir(dc), Dir(ac)) =>
      Dir(map k | k in dc.Keys + ac.Keys ::
        if k in ac && k in dc then Merged(dc[k], ac[k])
        else if k in ac then ac[k]
        else dc[k])
    case _ => archive
  }

  /** `shutil.unpack_archive(zip, dir)`, given the archive's entries
      (`None` for an archive that cannot be read). */
  function Unpack(n: Node, dir: Path, archive: Option<map<string, Node>>): Result<Node>
    requires IsDir(n, dir)
  {
    match archive
    case None => Err(ReadError)
    case Some(entries) =>
      var here := Lookup(n, dir).value;
      if Clash(here, Dir(entries)) then Err(FileExistsError)
      else Ok(Put(n, dir, Merged(here, Dir(entries))))
  }

  // ---------------------------------------------------------------------
  // Properties of the tree operations.

  /** What `Put` leaves at, below and beside the path it writes. */
  lemma {:induction false} LookupPut(n: Node, p: Path, x: Node, q: Path)
    ensures !UnderFile(n, p) && Prefix(p, q) ==> Lookup(Put(n, p, x), q) == Lookup(x, q[|p|..])
    ensures Disjoint(p, q) ==> Lookup(Put(n, p, x), q) == Lookup(n, q)
    decreases |p|
  {
    if p != [] && q != [] && n.Dir? {
      var c := n.children;
      var child := if p[0] in c then c[p[0]] else EmptyDir;
      if p[0] == q[0] {
        LookupPut(child, p[1..], x, q[1..]);
        if Prefix(p, q) {
          assert q[1..][|p| - 1..] == q[|p|..];
        } else if q[1..] == [] {
          assert Prefix(q[1..], p[1..]);
        }
      }
    }
  }

  /** `Put` leaves no file on the way to what it wrote. */
  lemma {:induction false} PutClearsPath(n: Node, p: Path, x: Node)
    requires !UnderFile(n, p)
    ensures !UnderFile(Put(n, p, x), p)
    decreases |p|
  {
    if p != [] {
      var c := n.children;
      PutClearsPath(if p[0] in c then c[p[0]] else EmptyDir, p[1..], x);
    }
  }

  /** Writing the same entry twice is writing it once. */
  lemma {:induction false} PutTwice(n: Node, p: Path, x: Node, y: Node)
    ensures Put(Put(n, p, y), p, x) == Put(n, p, x)
    decreases |p|
  {
    if p != [] && n.Dir? {
      var c := n.children;
      var child := if p[0] in c then c[p[0]] else EmptyDir;
      PutTwice(child, p[1..], x, y);
      var once := Put(child, p[1..], y);
      assert Put(n, p, y) == Dir(c[p[0] := once]);
      assert Put(Dir(c[p[0] := once]), p, x) == Dir(c[p[0] := once][p[0] := Put(once, p[1..], x)]);
      assert c[p[0] := once][p[0] := Put(once, p[1..], x)] == c[p[0] := Put(child, p[1..], x)];
    }
  }

  /** Writing over a removed entry is writing over the entry. */
  lemma {:induction false} PutRemove(n: Node, p: Path, x: Node)
    requires p != [] && !UnderFile(n, p)
    ensures Put(Remove(n, p), p, x) == Put(n, p, x)
    decreases |p|
  {
    var c := n.children;
    if |p| > 1 && p[0] in c {
      PutRemove(c[p[0]], p[1..], x);
    }
  }

  /** What `Remove` leaves at, below and beside the path it removes. */
  lemma {:induction false} LookupRemove(n: Node, p: Path, q: Path)
    requires p != []
    ensures Prefix(p, q) ==> Lookup(Remove(n, p), q).None?
    ensures Disjoint(p, q) ==> Lookup(Remove(n, p), q) == Lookup(n, q)
    decreases |p|
  {
    if q != [] && n.Dir? && p[0] == q[0] {
      if |p| == 1 {
        assert Prefix(p[1..], q[1..]);
      } else if p[0] in n.children {
        LookupRemove(n.children[p[0]], p[1..], q[1..]);
      }
    }
  }

  /** Removing an entry that is not there changes nothing. */
  lemma {:induction false} RemoveMissing(n: Node, p: Path)
    requires p != [] && Lookup(n, p).None?
    ensures Remove(n, p) == n
    decreases |p|
  {
    if n.Dir? && |p| > 1 && p[0] in n.children {
      RemoveMissing(n.children[p[0]], p[1..]);
    }
  }

  lemma {:induction false} PrefixRefl(p: Path)
    ensures Prefix(p, p)
    decreases |p|
  {
    if p != [] {
      PrefixRefl(p[1..]);
    }
  }

  /** An entry that exists has no file above it. */
  lemma {:induction false} FoundNotUnderFile(n: Node, p: Path)
    requires Lookup(n, p).Some?
    ensures !UnderFile(n, p)
    decreases |p|
  {
    if p != [] {
      FoundNotUnderFile(n.children[p[0]], p[1..]);
    }
  }

  /** Nothing above an entry of an existing directory is a file. */
  lemma {:induction false} DirChild(n: Node, d: Path, k: string)
    requires IsDir(n, d)
    ensures !UnderFile(n, d + [k])
    decreases |d|
  {
    if d != [] {
      assert (d + [k])[1..] == d[1..] + [k];
      DirChild(n.children[d[0]], d[1..], k);
    }
  }

  /** Removing an entry leaves no file above it. */
  lemma {:induction false} RemoveKeepsPath(n: Node, p: Path)
    requires p != [] && !UnderFile(n, p)
    ensures !UnderFile(Remove(n, p), p)
    decreases |p|
  {
    if |p| > 1 && n.Dir? && p[0] in n.children {
      RemoveKeepsPath(n.children[p[0]], p[1..]);
    }
  }

  /** `Put` leaves directories on the way to what it writes. */
  lemma {:induction false} PutAncestorDir(n: Node, p: Path, x: Node, q: Path)
    requires !UnderFile(n, p) && Prefix(q, p) && |q| < |p|
    ensures IsDir(Put(n, p, x), q)
    decreases |q|
  {
    if q != [] {
      var c := n.children;
      PutAncestorDir(if p[0] in c then c[p[0]] else EmptyDir, p[1..], x, q[1..]);
    }
  }

  /** Writing an entry of a directory updates that directory's listing. */
  lemma {:induction false} PutChild(n: Node, d: Path, k: string, x: Node)
    requires IsDir(n, d)
    ensures Lookup(Put(n, d + [k], x), d) == Some(Dir(Lookup(n, d).value.children[k := x]))
    decreases |d|
  {
    if d != [] {
      assert (d + [k])[1..] == d[1..] + [k];
      PutChild(n.children[d[0]], d[1..], k, x);
    }
  }

  /** Removing an entry of a directory updates that directory's listing. */
  lemma {:induction false} RemoveChild(n: Node, d: Path, k: string)
    requires IsDir(n, d)
    ensures Lookup(Remove(n, d + [k]), d) == Some(Dir(Lookup(n, d).value.children - {k}))
    decreases |d|
  {
    if d != [] {
      assert (d + [k])[1..] == d[1..] + [k];
      RemoveChild(n.children[d[0]], d[1..], k);
    }
  }

  /** An entry of `d` is found exactly when `d` is a directory listing it. */
  lemma {:induction false} LookupChild(n: Node, d: Path, k: string)
    ensures Lookup(n, d + [k]) ==
      if IsDir(n, d) && k in Lookup(n, d).value.children then Some(Lookup(n, d).value.children[k]) else None
    decreases |d|
  {
    if d != [] {
      assert (d + [k])[1..] == d[1..] + [k];
      if n.Dir? && d[0] in n.children {
        LookupChild(n.children[d[0]], d[1..], k);
      }
    } else {
      assert [] + [k] == [k];
    }
  }

  // ---------------------------------------------------------------------
  // What each library call does, in terms of what is found where.

  /** `os.makedirs`: fails exactly when a file lies on the path, or when
      the path exists and `exist_ok` is off; then a directory is found at
      the path (a new one empty) and no path beside it changes. */
  lemma MakeDirsOutcome(n: Node, p: Path, existOk: bool, q: Path)
    ensures var r := MakeDirs(n, p, existOk);
      && (r.Ok? <==> !FileOnPath(n, p) && (existOk || Lookup(n, p).None?))
      && (r.Err? && UnderFile(n, p) ==> r.error == NotADirectoryError)
      && (r.Err? && !UnderFile(n, p) ==> r.error == FileExistsError)
      && (r.Ok? ==> IsDir(r.value, p))
      && (r.Ok? && Lookup(n, p).None? ==> Lookup(r.value, p) == Some(EmptyDir))
      && (r.Ok? && Disjoint(p, q) ==> Lookup(r.value, q) == Lookup(n, q))
  {
    PrefixRefl(p);
    LookupPut(n, p, EmptyDir, p);
    LookupPut(n, p, EmptyDir, q);
    assert p[|p|..] == [];
  }

  /** `shutil.rmtree`: succeeds exactly on a directory, which is then gone
      with everything below it; no path beside it changes. */
  lemma RmTreeOutcome(n: Node, p: Path, q: Path)
    requires p != []
    ensures var r := RmTree(n, p);
      && (r.Ok? <==> IsDir(n, p))
      && (r.Err? && Lookup(n, p).None? ==> r.error == MissingError(n, p))
      && (r.Err? && Lookup(n, p).Some? ==> r.error == NotADirectoryError)
      && (r.Ok? && Prefix(p, q) ==> Lookup(r.value, q).None?)
      && (r.Ok? && Disjoint(p, q) ==> Lookup(r.value, q) == Lookup(n, q))
  {
    LookupRemove(n, p, q);
  }

  /** `os.remove`: succeeds exactly on a file, which is then gone; no path
      beside it changes. */
  lemma OsRemoveOutcome(n: Node, p: Path, q: Path)
    requires p != []
    ensures var r := OsRemove(n, p);
      && (r.Ok? <==> IsFile(n, p))
      && (r.Err? && Lookup(n, p).None? ==> r.error == MissingError(n, p))
      && (r.Err? && Lookup(n, p).Some? ==> r.error == IsADirectoryError)
      && (r.Ok? ==> Lookup(r.value, p).None?)
      && (r.Ok? && Disjoint(p, q) ==> Lookup(r.value, q) == Lookup(n, q))
  {
    PrefixRefl(p);
    LookupRemove(n, p, p);
    LookupRemove(n, p, q);
  }

  /** Writing a file: succeeds exactly when the parent is a directory and
      the path is not one; then the file holds the data and no path beside
      it changes. */
  lemma WriteFileOutcome(n: Node, p: Path, data: seq<bv8>, q: Path)
    requires p != []
    ensures var r := WriteFile(n, p, data);
      && (r.Ok? <==> IsDir(n, p[..|p| - 1]) && !IsDir(n, p))
      && (r.Ok? ==> Lookup(r.value, p) == Some(File(data)))
      && (r.Ok? && Disjoint(p, q) ==> Lookup(r.value, q) == Lookup(n, q))
  {
    var parent := p[..|p| - 1];
    assert p == parent + [p[|p| - 1]];
    if IsDir(n, parent) {
      DirChild(n, parent, p[|p| - 1]);
      PrefixRefl(p);
      LookupPut(n, p, File(data), p);
      assert p[|p|..] == [];
    }
    LookupPut(n, p, File(data), q);
  }

  /** `shutil.copy` of a file into a directory: succeeds exactly when no
      directory of that name is there; then the copy equals the source and
      no path beside it changes. */
  lemma CopyFileOutcome(n: Node, src: Path, dir: Path, q: Path)
    requires src != [] && IsFile(n, src) && IsDir(n, dir)
    ensures var r := CopyFile(n, src, dir); var target := dir + [src[|src| - 1]];
      && (r.Ok? <==> !IsDir(n, target))
      && (r.Err? ==> r.error == IsADirectoryError)
      && (r.Ok? ==> Lookup(r.value, target) == Lookup(n, src))
      && (r.Ok? && Disjoint(target, q) ==> Lookup(r.value, q) == Lookup(n, q))
  {
    var target := dir + [src[|src| - 1]];
    DirChild(n, dir, src[|src| - 1]);
    PrefixRefl(target);
    LookupPut(n, target, Lookup(n, src).value, target);
    LookupPut(n, target, Lookup(n, src).value, q);
    assert target[|target|..] == [];
  }

  /** `shutil.copytree`: succeeds exactly when the source is a directory,
      nothing is at the target and no file lies above it; a file source
      raises `NotADirectoryError`; then the target holds a
      copy of the source and no path beside it changes. */
  lemma CopyTreeOutcome(n: Node, src: Path, target: Path, q: Path)
    ensures var r := CopyTree(n, src, target);
      && (r.Ok? <==> Lookup(n, src).Some? && Lookup(n, src).value.Dir? && Lookup(n, target).None? && !FileOnPath(n, target))
      && (r.Err? && Lookup(n, src).None? ==> r.error == MissingError(n, src))
      && (Lookup(n, src).Some? && Lookup(n, src).value.File? ==> r == Err(NotADirectoryError))
      && (r.Ok? ==> Lookup(r.value, target) == Lookup(n, src))
      && (r.Ok? && Disjoint(target, q) ==> Lookup(r.value, q) == Lookup(n, q))
  {
    if Lookup(n, src).Some? {
      var x := Lookup(n, src).value;
      PrefixRefl(target);
      LookupPut(n, target, x, target);
      LookupPut(n, target, x, q);
      assert target[|target|..] == [];
    }
  }

  /** `shutil.move` into a directory: succeeds exactly when the source
      exists, the directory has no entry of its name and the source is not
      the directory or above it; then the entry is found under the
      directory and no longer at the source, and every path away from both
      is unchanged. */
  lemma MoveOutcome(n: Node, src: Path, dir: Path, q: Path)
    requires src != [] && IsDir(n, dir)
    ensures var r := Move(n, src, dir); var target := dir + [src[|src| - 1]];
      && (r.Ok? <==> Lookup(n, src).Some? && Lookup(n, target).None? && !Prefix(src, target))
      && (r.Err? && Lookup(n, src).Some? ==> r.error == ShutilError)
      && (Lookup(n, target).Some? ==> r == Err(ShutilError))
      && (r.Ok? ==> Lookup(r.value, target) == Lookup(n, src) && Lookup(r.value, src).None?)
      && (r.Ok? && Disjoint(src, q) && Disjoint(target, q) ==> Lookup(r.value, q) == Lookup(n, q))
  {
    var target := dir + [src[|src| - 1]];
    if Lookup(n, src).Some? && Lookup(n, target).None? && !Prefix(src, target) {
      var x := Lookup(n, src).value;
      var m := Remove(n, src);
      if Prefix(target, src) {
        LookupAbove(n, target, src);
        assert false;
      }
      DirChild(n, dir, src[|src| - 1]);
      RemoveUnderFile(n, src, target);
      PrefixRefl(target);
      PrefixRefl(src);
      LookupPut(m, target, x, target);
      LookupPut(m, target, x, src);
      LookupPut(m, target, x, q);
      LookupRemove(n, src, src);
      LookupRemove(n, src, q);
      assert target[|target|..] == [];
    }
  }

  /** An entry that exists lies below existing entries only. */
  lemma {:induction false} LookupAbove(n: Node, p: Path, q: Path)
    requires Prefix(p, q) && Lookup(n, q).Some?
    ensures Lookup(n, p).Some?
    decreases |p|
  {
    if p != [] {
      LookupAbove(n.children[p[0]], p[1..], q[1..]);
    }
  }

  /** Removing an entry puts no file on any path. */
  lemma {:induction false} RemoveUnderFile(n: Node, p: Path, q: Path)
    requires p != [] && !UnderFile(n, q)
    ensures !UnderFile(Remove(n, p), q)
    decreases |p|
  {
    if q != [] && n.Dir? && |p| > 1 && p[0] in n.children && p[0] == q[0] && q[0] in n.children {
      RemoveUnderFile(n.children[p[0]], p[1..], q[1..]);
    }
  }

  /** `shutil.unpack_archive` into a directory: fails exactly on an
      unreadable archive or one whose files and directories clash with the
      disk's; then the directory holds the merge of the two, and every path
      away from it is unchanged. */
  lemma UnpackOutcome(n: Node, dir: Path, archive: Option<map<string, Node>>, q: Path)
    requires IsDir(n, dir)
    ensures var r := Unpack(n, dir, archive);
      && (r.Ok? <==> archive.Some? && !Clash(Lookup(n, dir).value, Dir(archive.value)))
      && (r.Err? && archive.None? ==> r.error == ReadError)
      && (r.Err? && archive.Some? ==> r.error == FileExistsError)
      && (r.Ok? ==> Lookup(r.value, dir) == Some(Merged(Lookup(n, dir).value, Dir(archive.value))))
      && (r.Ok? && Disjoint(dir, q) ==> Lookup(r.value, q) == Lookup(n, q))
  {
    if archive.Some? {
      var x := Merged(Lookup(n, dir).value, Dir(archive.value));
      FoundNotUnderFile(n, dir);
      PrefixRefl(dir);
      LookupPut(n, dir, x, dir);
      LookupPut(n, dir, x, q);
      assert dir[|dir|..] == [];
    }
  }

  /** What extracting over a directory leaves in it: the entries of both;
      an entry only on disk is kept, an entry only in the archive is the
      archive's, and a file from the archive replaces what was there. */
  lemma MergedEntries(dc: map<string, Node>, ac: map<string, Node>)
    ensures var m := Merged(Dir(dc), Dir(ac)).children;
      && m.Keys == dc.Keys + ac.Keys
      && (forall k :: k in dc && k !in ac ==> m[k] == dc[k])
      && (forall k :: k in ac && (k !in dc || ac[k].File?) ==> m[k] == ac[k])
  {
  }
}
