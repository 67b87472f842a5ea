/** The few Python string operations the supervisor relies on, written out
    over `seq<char>`: `str.isspace`, `rstrip`, `strip`, `split(sep)`, the
    `in` test, `readlines` and the decimal rendering of an `int`. */
module Text {
  import opened Common

  /** `str.isspace()` for one character: the Unicode whitespace set that
      Python's `split()`, `strip()` and `rstrip()` use. */
  predicate IsSpace(c: char) {
    || c == ' ' || c == '\t' || c == '\n' || c == '\r' || c == '\U{0b}' || c == '\U{0c}'
    || c == '\U{1c}' || c == '\U{1d}' || c == '\U{1e}' || c == '\U{1f}'
    || c == '\U{85}' || c == '\U{a0}' || c == '\U{1680}'
    || ('\U{2000}' <= c <= '\U{200a}')
    || c == '\U{2028}' || c == '\U{2029}' || c == '\U{202f}' || c == '\U{205f}' || c == '\U{3000}'
  }

  /** `len(s.split()) == 0`: the string is empty or only whitespace. */
  predicate AllSpace(s: string) {
    forall i :: 0 <= i < |s| ==> IsSpace(s[i])
  }

  /** `s.rstrip()` */
  function RStrip(s: string): (r: string)
    ensures |r| <= |s| && r == s[..|r|]
    ensures r == [] || !IsSpace(r[|r| - 1])
    ensures forall i :: |r| <= i < |s| ==> IsSpace(s[i])
  {
    if s == [] || !IsSpace(s[|s| - 1]) then s
    else RStrip(s[..|s| - 1])
  }

  /** `s.lstrip()` */
  function LStrip(s: string): (r: string)
    ensures |r| <= |s| && r == s[|s| - |r|..]
    ensures r == [] || !IsSpace(r[0])
    ensures forall i :: 0 <= i < |s| - |r| ==> IsSpace(s[i])
  {
    if s == [] || !IsSpace(s[0]) then s
    else
      var r := LStrip(s[1..]);
      assert s[1..][|s| - 1 - |r|..] == s[|s| - |r|..];
      r
  }

  /** `s.strip()`: both ends. */
  function Strip(s: string): (r: string)
    ensures r == [] || (!IsSpace(r[0]) && !IsSpace(r[|r| - 1]))
  {
    var t := RStrip(s);
    var r := LStrip(t);
    assert r != [] ==> r[|r| - 1] == t[|t| - 1];
    r
  }

  /** `r` is `s[a..a + |r|]`, and everything around it is whitespace. */
  predicate Trimmed(s: string, r: string, a: int) {
    && 0 <= a && a + |r| <= |s| && r == s[a..a + |r|]
    && (forall i :: 0 <= i < a ==> IsSpace(s[i]))
    && (forall i :: a + |r| <= i < |s| ==> IsSpace(s[i]))
  }

  /** `strip` removes exactly the whitespace around the text: what remains
      is a slice of the input with only whitespace on either side. */
  lemma StripMeaning(s: string)
    ensures exists a :: Trimmed(s, Strip(s), a)
  {
    var t := RStrip(s);
    var r := LStrip(t);
    assert Strip(s) == r;
    TrimmedBoth(s, t, r);
  }

  /** Whitespace cut from the end of `s`, then from the start of what is
      left, leaves a slice of `s` with only whitespace around it. */
  lemma TrimmedBoth(s: string, t: string, r: string)
    requires |t| <= |s| && t == s[..|t|] && forall i :: |t| <= i < |s| ==> IsSpace(s[i])
    requires |r| <= |t| && r == t[|t| - |r|..] && forall i :: 0 <= i < |t| - |r| ==> IsSpace(t[i])
    ensures Trimmed(s, r, |t| - |r|)
  {
    var a := |t| - |r|;
    assert r == s[a..a + |r|];
    forall i | 0 <= i < a ensures IsSpace(s[i]) {
      assert s[i] == t[i];
    }
  }

  /** `len(s.split()) == 0` exactly when `s.strip()` is empty. */
  lemma AllSpaceStrip(s: string)
    ensures AllSpace(s) <==> Strip(s) == []
  {
    if AllSpace(s) {
      assert Trimmed(s, [], 0);
      StripOf(s, [], 0);
    } else {
      StripMeaning(s);
    }
  }

  /** A text with no whitespace at its ends is what `strip` leaves of
      itself with whitespace around it. */
  lemma StripOf(s: string, r: string, a: int)
    requires Trimmed(s, r, a)
    requires r == [] || (!IsSpace(r[0]) && !IsSpace(r[|r| - 1]))
    ensures Strip(s) == r
  {
    var n := if r == [] then 0 else a + |r|;
    RStripOf(s, n);
    var t := s[..n];
    var b := if r == [] then 0 else a;
    LStripOf(t, b);
    assert t[b..] == r;
  }

  /** `rstrip` stops at the last character that is not whitespace. */
  lemma RStripOf(s: string, n: nat)
    requires n <= |s| && (n == 0 || !IsSpace(s[n - 1]))
    requires forall i :: n <= i < |s| ==> IsSpace(s[i])
    ensures RStrip(s) == s[..n]
  {
  }

  /** `lstrip` stops at the first character that is not whitespace. */
  lemma LStripOf(s: string, a: nat)
    requires a <= |s| && (a == |s| || !IsSpace(s[a]))
    requires forall i :: 0 <= i < a ==> IsSpace(s[i])
    ensures LStrip(s) == s[a..]
  {
  }

  /** `sep` occurs in `s` starting at index `i`. */
  predicate OccursAt(s: string, sep: string, i: int) {
    0 <= i && i + |sep| <= |s| && s[i..i + |sep|] == sep
  }

  /** `s.find(sep, i)`, as an option: the first index from `i` on where
      `sep` occurs. */
  function FindFrom(s: string, sep: string, i: nat): (r: Option<nat>)
    ensures r.Some? ==> i <= r.value && OccursAt(s, sep, r.value)
    ensures r.Some? ==> forall j :: i <= j < r.value ==> !OccursAt(s, sep, j)
    ensures r.None? ==> forall j :: i <= j ==> !OccursAt(s, sep, j)
    decreases |s| - i
  {
    if i + |sep| > |s| then None
    else if OccursAt(s, sep, i) then Some(i)
    else FindFrom(s, sep, i + 1)
  }

  /** `s.find(sep)`, as an option: the first index where `sep` occurs. */
  function Find(s: string, sep: string): (r: Option<nat>)
    ensures r.Some? ==> OccursAt(s, sep, r.value)
    ensures r.Some? ==> forall j :: 0 <= j < r.value ==> !OccursAt(s, sep, j)
    ensures r.None? ==> forall j :: !OccursAt(s, sep, j)
  {
    FindFrom(s, sep, 0)
  }

  /** Python's `sub in s`. */
  predicate Contains(s: string, sub: string) {
    Find(s, sub).Some?
  }

  /** Joins parts with `sep` between them (Python's `sep.join(parts)`). */
  function Join(parts: seq<string>, sep: string): string {
    if |parts| == 0 then ""
    else if |parts| == 1 then parts[0]
    else parts[0] + sep + Join(parts[1..], sep)
  }

  /** `s.split(sep)` for a non-empty separator: the pieces between the
      non-overlapping occurrences of `sep`, scanning left to right.  What
      the pieces are is `SplitJoin`. */
  function Split(s: string, sep: string): (parts: seq<string>)
    requires |sep| > 0
    ensures |parts| >= 1
    decreases |s|
  {
    match Find(s, sep)
    case None => [s]
    case Some(i) => [s[..i]] + Split(s[i + |sep|..], sep)
  }

  /** Joining the pieces of a split with the separator gives back the
      text, and no piece holds the separator. */
  lemma {:induction false} SplitJoin(s: string, sep: string)
    requires |sep| > 0
    ensures var parts := Split(s, sep);
      && Join(parts, sep) == s
      && forall k :: 0 <= k < |parts| ==> !Contains(parts[k], sep)
    decreases |s|
  {
    match Find(s, sep)
    case None =>
    case Some(i) =>
      var head := s[..i];
      var tail := s[i + |sep|..];
      SplitJoin(tail, sep);
      HeadClean(s, sep, i);
      assert Split(s, sep) == [head] + Split(tail, sep);
      assert s == head + sep + tail;
      JoinCons(head, sep, tail, Split(tail, sep));
  }

  /** The text before the first `sep` holds no `sep`. */
  lemma HeadClean(s: string, sep: string, i: nat)
    requires |sep| > 0 && Find(s, sep) == Some(i)
    ensures !Contains(s[..i], sep)
  {
    forall j | OccursAt(s[..i], sep, j) ensures OccursAt(s, sep, j) {
      assert s[..i][j..j + |sep|] == s[j..j + |sep|];
    }
  }

  /** Putting one more clean piece in front of clean pieces that join into
      `tail`. */
  lemma JoinCons(head: string, sep: string, tail: string, rest: seq<string>)
    requires |rest| >= 1 && Join(rest, sep) == tail && !Contains(head, sep)
    requires forall k :: 0 <= k < |rest| ==> !Contains(rest[k], sep)
    ensures var parts := [head] + rest;
      && Join(parts, sep) == head + sep + tail
      && forall k :: 0 <= k < |parts| ==> !Contains(parts[k], sep)
  {
    var parts := [head] + rest;
    assert parts[1..] == rest;
    forall k | 0 <= k < |parts| ensures !Contains(parts[k], sep) {
      if k > 0 { assert parts[k] == rest[k - 1]; }
    }
  }

  /** `s.split(sep)[0]`: everything before the first `sep`, or all of `s`. */
  lemma {:induction false} SplitHead(s: string, sep: string)
    requires |sep| > 0
    ensures Find(s, sep).None? ==> Split(s, sep) == [s]
    ensures Find(s, sep).Some? ==> Split(s, sep)[0] == s[..Find(s, sep).value]
  {
  }

  /** The first piece of a split holds no `sep` and is a prefix of `s`,
      followed by `sep` unless it is all of `s`. */
  lemma SplitFirst(s: string, sep: string)
    requires |sep| > 0
    ensures var h := Split(s, sep)[0];
      && !Contains(h, sep) && |h| <= |s| && h == s[..|h|]
      && (h == s || (|h| + |sep| <= |s| && s[|h|..|h| + |sep|] == sep))
  {
    SplitHead(s, sep);
    SplitJoin(s, sep);
  }

  /** `s.split(sep)[-1]`: the text after the last occurrence of `sep`. */
  function AfterLast(s: string, sep: string): (r: string)
    requires |sep| > 0
    ensures !Contains(r, sep)
    ensures |r| <= |s| && r == s[|s| - |r|..]
    ensures Contains(s, sep) ==> |r| + |sep| <= |s| && s[|s| - |r| - |sep|..|s| - |r|] == sep
    ensures !Contains(s, sep) ==> r == s
  {
    LastPiece(s, sep);
    Split(s, sep)[|Split(s, sep)| - 1]
  }

  /** What the last piece of a split is. */
  lemma LastPiece(s: string, sep: string)
    requires |sep| > 0
    ensures var parts := Split(s, sep); var r := parts[|parts| - 1];
      && !Contains(r, sep)
      && |r| <= |s| && r == s[|s| - |r|..]
      && (Contains(s, sep) ==> |r| + |sep| <= |s| && s[|s| - |r| - |sep|..|s| - |r|] == sep)
      && (!Contains(s, sep) ==> r == s)
  {
    SplitJoin(s, sep);
    SplitCount(s, sep);
    JoinedSuffix(Split(s, sep), sep, s);
  }

  /** The last of pieces joined into `t`, none holding the separator, is a
      suffix of `t`, preceded by the separator when there is more than one
      piece. */
  lemma JoinedSuffix(parts: seq<string>, sep: string, t: string)
    requires |parts| >= 1 && Join(parts, sep) == t
    requires forall k :: 0 <= k < |parts| ==> !Contains(parts[k], sep)
    requires |parts| > 1 <==> Contains(t, sep)
    ensures var r := parts[|parts| - 1];
      && !Contains(r, sep)
      && |r| <= |t| && r == t[|t| - |r|..]
      && (Contains(t, sep) ==> |r| + |sep| <= |t| && t[|t| - |r| - |sep|..|t| - |r|] == sep)
      && (!Contains(t, sep) ==> r == t)
  {
    JoinLast(parts, sep);
  }

  /** The last piece of a join is a suffix of it, preceded by `sep` when
      there is more than one piece. */
  lemma {:induction false} JoinLast(parts: seq<string>, sep: string)
    requires |parts| >= 1
    ensures var j := Join(parts, sep); var l := parts[|parts| - 1];
      |l| <= |j| && j[|j| - |l|..] == l &&
      (|parts| > 1 ==> |l| + |sep| <= |j| && j[|j| - |l| - |sep|..|j| - |l|] == sep)
  {
    if |parts| > 1 {
      var l := parts[|parts| - 1];
      var tail := Join(parts[1..], sep);
      var front := parts[0] + sep;
      var j := front + tail;
      assert Join(parts, sep) == j;
      assert parts[1..][|parts[1..]| - 1] == l;
      if |parts| == 2 {
        assert tail == l;
        SliceOfAppend(parts[0], sep, 0, |sep|);
        assert j == parts[0] + (sep + l);
        SliceOfAppend(parts[0], sep + l, 0, |sep|);
        assert (sep + l)[0..|sep|] == sep;
      } else {
        JoinLast(parts[1..], sep);
        SliceOfAppend(front, tail, |tail| - |l| - |sep|, |tail| - |l|);
      }
      SliceOfAppend(front, tail, |tail| - |l|, |tail|);
    }
  }

  /** A slice of `tail` is the same slice of `front + tail`, shifted. */
  lemma SliceOfAppend(front: string, tail: string, a: nat, b: nat)
    requires a <= b <= |tail|
    ensures (front + tail)[|front| + a..|front| + b] == tail[a..b]
  {
  }

  /** A split yields more than one piece exactly when the separator occurs. */
  lemma {:induction false} SplitCount(s: string, sep: string)
    requires |sep| > 0
    ensures |Split(s, sep)| > 1 <==> Contains(s, sep)
  {
  }

  /** `readlines()` on a text stream: every line keeps its `\n`; the last
      line may lack one.  No newline translation is modelled. */
  function ReadLines(s: string): (lines: seq<string>)
    decreases |s|
  {
    if s == [] then []
    else
      match Find(s, "\n")
      case None => [s]
      case Some(i) => [s[..i + 1]] + ReadLines(s[i + 1..])
  }

  /** The lines `readlines` yields are non-empty, all but the last end in a
      newline, no line has a newline before its last character, and
      together they are the whole text. */
  lemma ReadLinesShape(s: string)
    ensures var lines := ReadLines(s);
      && Concat(lines) == s
      && (forall k :: 0 <= k < |lines| ==> lines[k] != [])
      && (forall k :: 0 <= k < |lines| - 1 ==> lines[k][|lines[k]| - 1] == '\n')
      && (forall k, j :: 0 <= k < |lines| && 0 <= j < |lines[k]| - 1 ==> lines[k][j] != '\n')
  {
    ReadLinesConcat(s);
    ReadLinesNonEmpty(s);
    ReadLinesTerminated(s);
    ReadLinesInner(s);
  }

  lemma {:induction false} ReadLinesInner(s: string)
    ensures var lines := ReadLines(s);
      forall k, j :: 0 <= k < |lines| && 0 <= j < |lines[k]| - 1 ==> lines[k][j] != '\n'
    decreases |s|
  {
    if s != [] {
      match Find(s, "\n")
      case None =>
        assert ReadLines(s) == [s];
        forall j | 0 <= j < |s| ensures s[j] != '\n' {
          NewlineAt(s, j);
        }
      case Some(i) =>
        var tail := s[i + 1..];
        ReadLinesInner(tail);
        ReadLinesUnfold(s, i);
        var rest := ReadLines(tail);
        var lines := [s[..i + 1]] + rest;
        forall k, j | 0 <= k < |lines| && 0 <= j < |lines[k]| - 1 ensures lines[k][j] != '\n' {
          if k == 0 {
            NewlineAt(s, j);
            assert lines[0][j] == s[j];
          } else {
            assert lines[k] == rest[k - 1];
          }
        }
    }
  }

  /** A newline at `j` is an occurrence of `"\n"` there. */
  lemma NewlineAt(s: string, j: nat)
    requires j < |s|
    ensures s[j] == '\n' <==> OccursAt(s, "\n", j)
  {
    assert s[j..j + 1] == [s[j]];
  }

  lemma {:induction false} ReadLinesConcat(s: string)
    ensures Concat(ReadLines(s)) == s
    decreases |s|
  {
    if s != [] {
      match Find(s, "\n")
      case None =>
      case Some(i) =>
        var tail := s[i + 1..];
        ReadLinesConcat(tail);
        ReadLinesUnfold(s, i);
        var lines := [s[..i + 1]] + ReadLines(tail);
        assert lines[0] == s[..i + 1] && lines[1..] == ReadLines(tail);
        assert s == s[..i + 1] + tail;
    }
  }

  lemma {:induction false} ReadLinesNonEmpty(s: string)
    ensures forall k :: 0 <= k < |ReadLines(s)| ==> ReadLines(s)[k] != []
    decreases |s|
  {
    if s != [] {
      match Find(s, "\n")
      case None =>
      case Some(i) =>
        var tail := s[i + 1..];
        ReadLinesNonEmpty(tail);
        ReadLinesUnfold(s, i);
        var rest := ReadLines(tail);
        var lines := [s[..i + 1]] + rest;
        forall k | 0 < k < |lines| ensures lines[k] == rest[k - 1] { }
    }
  }

  lemma {:induction false} ReadLinesTerminated(s: string)
    ensures var lines := ReadLines(s);
      forall k :: 0 <= k < |lines| - 1 ==> lines[k] != [] && lines[k][|lines[k]| - 1] == '\n'
    decreases |s|
  {
    if s != [] {
      match Find(s, "\n")
      case None =>
      case Some(i) =>
        var tail := s[i + 1..];
        ReadLinesTerminated(tail);
        ReadLinesUnfold(s, i);
        var rest := ReadLines(tail);
        var lines := [s[..i + 1]] + rest;
        assert s[i..i + 1] == "\n";
        forall k | 0 < k < |lines| ensures lines[k] == rest[k - 1] { }
    }
  }

  /** The concatenation of a sequence of strings. */
  function Concat(lines: seq<string>): string {
    if lines == [] then "" else lines[0] + Concat(lines[1..])
  }

  lemma {:induction false} ConcatAppend(a: seq<string>, b: seq<string>)
    ensures Concat(a + b) == Concat(a) + Concat(b)
  {
    if a != [] {
      assert (a + b)[1..] == a[1..] + b;
      ConcatAppend(a[1..], b);
    } else {
      assert a + b == b;
    }
  }

  /** The first occurrence of `sep` in `a` is also its first occurrence in
      any extension of `a`. */
  lemma {:induction false} FindExtend(a: string, b: string, sep: string)
    requires Find(a, sep).Some?
    ensures Find(a + b, sep) == Find(a, sep)
  {
    var i := Find(a, sep).value;
    assert (a + b)[i..i + |sep|] == a[i..i + |sep|];
    assert OccursAt(a + b, sep, i);
    forall j | 0 <= j < i ensures !OccursAt(a + b, sep, j) {
      assert j + |sep| <= |a| ==> (a + b)[j..j + |sep|] == a[j..j + |sep|];
      assert !OccursAt(a, sep, j);
    }
  }

  lemma AppendAssoc<T>(p: seq<T>, x: seq<T>, y: seq<T>)
    ensures p + (x + y) == (p + x) + y
  {
  }

  lemma DropAppend(a: string, b: string, k: nat)
    requires k <= |a|
    ensures (a + b)[k..] == a[k..] + b
  {
  }

  /** One step of `readlines`: the text up to and including the first
      newline is a line. */
  lemma ReadLinesUnfold(s: string, i: nat)
    requires Find(s, "\n") == Some(i)
    ensures ReadLines(s) == [s[..i + 1]] + ReadLines(s[i + 1..])
  {
  }

  /** Reading lines is compositional at a line boundary: text that is empty
      or ends in `\n` reads as its own lines followed by the rest's. */
  lemma {:induction false} ReadLinesAppend(a: string, b: string)
    requires a == [] || a[|a| - 1] == '\n'
    ensures ReadLines(a + b) == ReadLines(a) + ReadLines(b)
    decreases |a|
  {
    if a == [] {
      assert a + b == b;
    } else {
      assert OccursAt(a, "\n", |a| - 1) by { assert a[|a| - 1..|a|] == [a[|a| - 1]]; }
      var i := Find(a, "\n").value;
      FindExtend(a, b, "\n");
      var ab := a + b;
      var head, rest := a[..i + 1], a[i + 1..];
      ReadLinesUnfold(ab, i);
      ReadLinesUnfold(a, i);
      assert ab[..i + 1] == head;
      DropAppend(a, b, i + 1);
      assert rest == [] || rest[|rest| - 1] == '\n';
      ReadLinesAppend(rest, b);
      AppendAssoc([head], ReadLines(rest), ReadLines(b));
    }
  }

  /** Text that grows at its end reads as at least as many lines, each
      line read before being a prefix of the line in the same place read
      after (only the last one can have grown). */
  lemma {:induction false} ReadLinesGrow(a: string, c: string)
    ensures var la := ReadLines(a); var lb := ReadLines(a + c);
      && |la| <= |lb|
      && (forall i :: 0 <= i < |la| ==> la[i] <= lb[i])
      && (forall i :: 0 <= i < |la| - 1 ==> la[i] == lb[i])
    decreases |a|
  {
    if a != [] {
      var b := a + c;
      match Find(a, "\n")
      case Some(i) =>
        FindExtend(a, c, "\n");
        ReadLinesUnfold(a, i);
        ReadLinesUnfold(b, i);
        var head := a[..i + 1];
        assert b[..i + 1] == head;
        DropAppend(a, c, i + 1);
        var rest := a[i + 1..];
        ReadLinesGrow(rest, c);
        var ra := ReadLines(rest);
        var rb := ReadLines(rest + c);
        assert ReadLines(a) == [head] + ra && ReadLines(b) == [head] + rb;
        GrowCons(head, ra, rb);
      case None =>
        ReadLinesGrowLast(a, c);
    }
  }

  /** The relation `ReadLinesGrow` states survives one more common line in
      front. */
  lemma GrowCons(head: string, ra: seq<string>, rb: seq<string>)
    requires |ra| <= |rb|
    requires forall i :: 0 <= i < |ra| ==> ra[i] <= rb[i]
    requires forall i :: 0 <= i < |ra| - 1 ==> ra[i] == rb[i]
    ensures var la := [head] + ra; var lb := [head] + rb;
      && |la| <= |lb|
      && (forall i :: 0 <= i < |la| ==> la[i] <= lb[i])
      && (forall i :: 0 <= i < |la| - 1 ==> la[i] == lb[i])
  {
    var la := [head] + ra;
    var lb := [head] + rb;
    forall k | 0 <= k < |la| ensures la[k] <= lb[k] {
      if k > 0 { assert la[k] == ra[k - 1] && lb[k] == rb[k - 1]; }
    }
    forall k | 0 <= k < |la| - 1 ensures la[k] == lb[k] {
      if k > 0 { assert la[k] == ra[k - 1] && lb[k] == rb[k - 1]; }
    }
  }

  /** `ReadLinesGrow` for a text that is one unfinished line. */
  lemma ReadLinesGrowLast(a: string, c: string)
    requires a != [] && Find(a, "\n").None?
    ensures ReadLines(a) == [a]
    ensures |ReadLines(a + c)| >= 1 && a <= ReadLines(a + c)[0]
  {
    var b := a + c;
    NewlineInPrefix(a, c);
    match Find(b, "\n")
    case None =>
      assert ReadLines(b) == [b];
    case Some(j) =>
      ReadLinesUnfold(b, j);
      assert a <= b[..j + 1];
  }

  /** A first newline of `a + c` that lies within `a` is a newline of `a`. */
  lemma NewlineInPrefix(a: string, c: string)
    ensures var f := Find(a + c, "\n"); f.Some? && f.value < |a| ==> OccursAt(a, "\n", f.value)
  {
    var f := Find(a + c, "\n");
    if f.Some? && f.value < |a| {
      assert (a + c)[f.value..f.value + 1] == a[f.value..f.value + 1];
    }
  }

  /** Reading a single line that ends in its only newline gives that line. */
  lemma {:induction false} ReadOneLine(line: string)
    requires line != [] && line[|line| - 1] == '\n'
    requires forall k :: 0 <= k < |line| - 1 ==> line[k] != '\n'
    ensures ReadLines(line) == [line]
  {
    var i := |line| - 1;
    assert OccursAt(line, "\n", i) by { assert line[i..i + 1] == [line[i]]; }
    forall j | 0 <= j < i ensures !OccursAt(line, "\n", j) {
      assert line[j..j + 1] == [line[j]];
    }
    assert Find(line, "\n") == Some(i);
    assert line[..i + 1] == line;
    assert line[i + 1..] == [];
    assert ReadLines(line) == [line] + ReadLines([]);
  }

  function DigitChar(d: nat): (c: char)
    requires d < 10
    ensures '0' <= c <= '9'
  {
    "0123456789"[d]
  }

  /** The decimal digits of a natural number, most significant first. */
  function Digits(n: nat): (r: string)
    ensures r != []
    ensures forall k :: 0 <= k < |r| ==> '0' <= r[k] <= '9'
  {
    if n < 10 then [DigitChar(n)] else Digits(n / 10) + [DigitChar(n % 10)]
  }

  /** `str(i)` / `f"{i}"` for a Python `int`. */
  function Decimal(i: int): (r: string)
    ensures r != []
    ensures forall k :: 0 <= k < |r| ==> r[k] == '-' || '0' <= r[k] <= '9'
  {
    if i < 0 then "-" + Digits(-i) else Digits(i)
  }

  /** The number a text of decimal digits denotes. */
  function DigitsValue(s: string): int {
    if s == [] then 0 else DigitsValue(s[..|s| - 1]) * 10 + (s[|s| - 1] as int - '0' as int)
  }

  /** `int(s)` for the texts `str` writes: an optional `-` and digits. */
  function DecimalValue(s: string): int {
    if s != [] && s[0] == '-' then -DigitsValue(s[1..]) else DigitsValue(s)
  }

  lemma {:induction false} DigitsRoundTrip(n: nat)
    ensures DigitsValue(Digits(n)) == n
  {
    var d := n % 10;
    assert DigitChar(d) as int - '0' as int == d by {
      assert "0123456789"[d] as int == '0' as int + d;
    }
    if n >= 10 {
      DigitsRoundTrip(n / 10);
      var r := Digits(n / 10) + [DigitChar(d)];
      assert r[..|r| - 1] == Digits(n / 10);
    }
  }

  /** `int(str(i)) == i`: the text `Decimal` writes denotes `i`, so
      different integers are written differently. */
  lemma DecimalRoundTrip(i: int)
    ensures DecimalValue(Decimal(i)) == i
  {
    if i < 0 {
      DigitsRoundTrip(-i);
      assert ("-" + Digits(-i))[1..] == Digits(-i);
    } else {
      DigitsRoundTrip(i);
      assert Digits(i)[0] != '-';
    }
  }
}
