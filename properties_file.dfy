/** The `key=value` codec of skgc/edit_properties_file.py: `PropertiesFile`
    parses `server.properties` into a dict and `save` writes the dict back.
    A Python dict remembers insertion order, so it is modelled as a sequence
    of (key, value) pairs in that order; assigning an existing key keeps its
    place. */
module PropertiesFile {
  import opened Common
  import opened Text

  /** A `dict[str, str]` in insertion order. */
  type Props = seq<(string, string)>

  predicate DistinctKeys(d: Props) {
    forall i, j :: 0 <= i < j < |d| ==> d[i].0 != d[j].0
  }

  /** `d.get(k)` */
  function Get(d: Props, k: string): (r: Option<string>)
    ensures r.None? <==> forall i :: 0 <= i < |d| ==> d[i].0 != k
    ensures r.Some? ==> (k, r.value) in d
  {
    if d == [] then None
    else if d[0].0 == k then Some(d[0].1)
    else
      var r := Get(d[1..], k);
      assert forall i :: 1 <= i < |d| ==> d[i] == d[1..][i - 1];
      r
  }

  /** With distinct keys, the value of an entry is what `Get` returns. */
  lemma {:induction false} GetAt(d: Props, i: nat)
    requires DistinctKeys(d) && i < |d|
    ensures Get(d, d[i].0) == Some(d[i].1)
  {
    if i > 0 {
      assert d[1..][i - 1] == d[i];
      GetAt(d[1..], i - 1);
    }
  }

  /** `d[k] = v`: the key now maps to `v`, every other key keeps its value,
      and the keys already present keep their places; a new key goes last. */
  function Set(d: Props, k: string, v: string): (r: Props)
    ensures Get(r, k) == Some(v)
    ensures forall k' :: k' != k ==> Get(r, k') == Get(d, k')
    ensures |r| == if Get(d, k).Some? then |d| else |d| + 1
    ensures forall i :: 0 <= i < |d| ==> r[i].0 == d[i].0
  {
    if d == [] then [(k, v)]
    else if d[0].0 == k then [(k, v)] + d[1..]
    else
      var rest := Set(d[1..], k, v);
      var r := [d[0]] + rest;
      assert r[1..] == rest;
      r
  }

  /** Assigning a key that is absent appends exactly that entry. */
  lemma {:induction false} SetAbsent(d: Props, k: string, v: string)
    requires Get(d, k).None?
    ensures Set(d, k, v) == d + [(k, v)]
  {
    if d != [] {
      SetAbsent(d[1..], k, v);
      AppendAssoc([d[0]], d[1..], [(k, v)]);
      assert [d[0]] + d[1..] == d;
    }
  }

  /** Assignment keeps the keys distinct. */
  lemma {:induction false} SetDistinct(d: Props, k: string, v: string)
    requires DistinctKeys(d)
    ensures DistinctKeys(Set(d, k, v))
  {
    if Get(d, k).None? {
      SetAbsent(d, k, v);
    }
  }

  /** Every entry after an assignment is either the assigned one or an
      entry that was there before, in the same place. */
  lemma {:induction false} SetEntries(d: Props, k: string, v: string)
    ensures var r := Set(d, k, v);
      forall i :: 0 <= i < |r| ==> r[i] == (k, v) || (i < |d| && r[i] == d[i])
  {
    if d != [] && d[0].0 != k {
      SetEntries(d[1..], k, v);
      var rest := Set(d[1..], k, v);
      var r := Set(d, k, v);
      assert r == [d[0]] + rest;
      forall i | 1 <= i < |r| ensures r[i] == (k, v) || (i < |d| && r[i] == d[i]) {
        assert r[i] == rest[i - 1];
        assert i - 1 < |d[1..]| ==> d[1..][i - 1] == d[i];
      }
    }
  }

  /** `line.split("#")[0]`: the part of a line before its first `#`. */
  function Uncommented(line: string): (r: string)
    ensures !Contains(r, "#")
    ensures |r| <= |line| && r == line[..|r|]
    ensures r == line || line[|r|] == '#'
  {
    SplitFirst(line, "#");
    var r := Split(line, "#")[0];
    assert r != line ==> line[|r|..|r| + 1] == "#";
    r
  }

  /** One pass of the parsing loop: a line whose uncommented part is blank
      adds nothing; otherwise the stripped text is split on `=` into the key
      and the value, and a line without `=` raises `IndexError` (`items[1]`).
      What this means is `ParseLineMeaning`. */
  function ParseLine(line: string): Result<Entry>
  {
    var content := Uncommented(line);
    if AllSpace(content) then Ok(None)
    else
      var items := Split(Strip(content), "=");
      if |items| < 2 then Err(IndexError)
      else Ok(Some((items[0], items[1])))
  }

  /** `k=v` is how the stripped content `t` begins: neither part holds an
      `=`, and `t` ends after `v` or goes on with a second `=`. */
  predicate KeyValueOf(t: string, k: string, v: string) {
    && !Contains(k, "=") && !Contains(v, "=")
    && |k| + 1 + |v| <= |t|
    && t[..|k| + 1 + |v|] == k + "=" + v
    && (|t| == |k| + 1 + |v| || t[|k| + 1 + |v|] == '=')
  }

  /** A line adds nothing exactly when its uncommented part is blank, fails
      exactly when its stripped content has no `=`, and otherwise yields the
      key before the first `=` and the value up to the second `=` or the
      end, the rest of the line being dropped. */
  lemma ParseLineMeaning(line: string)
    ensures var r := ParseLine(line); var content := Uncommented(line);
      && (r == Ok(None) <==> AllSpace(content))
      && (r.Err? <==> !AllSpace(content) && !Contains(Strip(content), "="))
      && (r.Ok? && r.value.Some? ==> KeyValueOf(Strip(content), r.value.value.0, r.value.value.1))
  {
    var content := Uncommented(line);
    if AllSpace(content) {
      assert ParseLine(line) == Ok(None);
    } else {
      var t := Strip(content);
      var items := Split(t, "=");
      SplitJoin(t, "=");
      SplitCount(t, "=");
      ItemsMeaning(items, t);
      if |items| < 2 {
        assert ParseLine(line) == Err(IndexError);
      } else {
        assert ParseLine(line) == Ok(Some((items[0], items[1])));
      }
    }
  }

  /** What the first two pieces of `t` split on `=` say about `t`. */
  lemma ItemsMeaning(items: seq<string>, t: string)
    requires |items| >= 1 && Join(items, "=") == t
    requires forall k :: 0 <= k < |items| ==> !Contains(items[k], "=")
    requires |items| > 1 <==> Contains(t, "=")
    ensures |items| >= 2 ==> KeyValueOf(t, items[0], items[1])
  {
    if |items| >= 2 {
      SplitPair(items);
    }
  }

  /** What the first two pieces of a split say about the joined text. */
  lemma {:induction false} SplitPair(items: seq<string>)
    requires |items| >= 2
    ensures var t := Join(items, "="); var n := |items[0]| + 1 + |items[1]|;
      n <= |t| && t[..n] == items[0] + "=" + items[1] && (|t| == n || t[n] == '=')
  {
    var rest := Join(items[1..], "=");
    assert Join(items, "=") == items[0] + "=" + rest;
    if |items| > 2 {
      assert rest == items[1] + "=" + Join(items[2..], "=");
      AppendAssoc(items[0] + "=", items[1], "=" + Join(items[2..], "="));
    } else {
      assert rest == items[1];
    }
  }

  /** What one line yields: an entry, or nothing for a blank line. */
  type Entry = Option<(string, string)>

  /** What one line does to the dict being built. */
  function Apply(d: Props, entry: Entry): Props {
    match entry
    case None => d
    case Some((k, v)) => Set(d, k, v)
  }

  /** The dict a parsing loop has built after reading `lines` in order,
      each through `parseLine`; the first line that fails stops it with its
      error.  The lemmas below hold for any line parser, so they are stated
      here once; the file's parser is `Parse`. */
  function ParseWith(lines: seq<string>, parseLine: string -> Result<Entry>): Result<Props>
  {
    if lines == [] then Ok([])
    else
      var d :- ParseWith(lines[..|lines| - 1], parseLine);
      var entry :- parseLine(lines[|lines| - 1]);
      Ok(Apply(d, entry))
  }

  /** The parsing loop of `PropertiesFile.__init__`. */
  function Parse(lines: seq<string>): Result<Props> {
    ParseWith(lines, ParseLine)
  }

  /** A successful parse is the parse of all lines but the last, then the
      last line applied to it. */
  lemma ParseLast(lines: seq<string>, parseLine: string -> Result<Entry>)
    requires lines != [] && ParseWith(lines, parseLine).Ok?
    ensures ParseWith(lines[..|lines| - 1], parseLine).Ok? && parseLine(lines[|lines| - 1]).Ok?
    ensures ParseWith(lines, parseLine).value
         == Apply(ParseWith(lines[..|lines| - 1], parseLine).value, parseLine(lines[|lines| - 1]).value)
  {
  }

  /** The line parsed as `e` assigns key `k`. */
  predicate DefinesKey(e: Result<Entry>, k: string) {
    e.Ok? && e.value.Some? && e.value.value.0 == k
  }

  /** Parsing keeps distinct keys. */
  lemma {:induction false} ParseDistinct(lines: seq<string>, parseLine: string -> Result<Entry>)
    requires ParseWith(lines, parseLine).Ok?
    ensures DistinctKeys(ParseWith(lines, parseLine).value)
  {
    if lines != [] {
      ParseLast(lines, parseLine);
      var front := lines[..|lines| - 1];
      ParseDistinct(front, parseLine);
      var entry := parseLine(lines[|lines| - 1]).value;
      if entry.Some? {
        SetDistinct(ParseWith(front, parseLine).value, entry.value.0, entry.value.1);
      }
    }
  }

  /** Last wins: the value of a key is the one on the last line that
      assigns it. */
  lemma {:induction false} LastWins(lines: seq<string>, parseLine: string -> Result<Entry>, i: nat, k: string, v: string)
    requires ParseWith(lines, parseLine).Ok?
    requires i < |lines| && parseLine(lines[i]) == Ok(Some((k, v)))
    requires forall j :: i < j < |lines| ==> !DefinesKey(parseLine(lines[j]), k)
    ensures Get(ParseWith(lines, parseLine).value, k) == Some(v)
  {
    ParseLast(lines, parseLine);
    var n := |lines| - 1;
    var front := lines[..n];
    var d := ParseWith(front, parseLine).value;
    var entry := parseLine(lines[n]).value;
    if i < n {
      assert front[i] == lines[i];
      assert forall j :: i < j < |front| ==> front[j] == lines[j];
      LastWins(front, parseLine, i, k, v);
      assert !DefinesKey(parseLine(lines[n]), k);
      match entry
      case None =>
      case Some((k', v')) =>
        assert k' != k;
        assert Get(Set(d, k', v'), k) == Get(d, k);
    } else {
      assert entry == Some((k, v));
    }
  }

  /** A key that no line assigns is absent from the result. */
  lemma {:induction false} KeyAbsent(lines: seq<string>, parseLine: string -> Result<Entry>, k: string)
    requires ParseWith(lines, parseLine).Ok?
    requires forall j :: 0 <= j < |lines| ==> !DefinesKey(parseLine(lines[j]), k)
    ensures Get(ParseWith(lines, parseLine).value, k).None?
  {
    if lines != [] {
      ParseLast(lines, parseLine);
      var n := |lines| - 1;
      var front := lines[..n];
      assert forall j :: 0 <= j < |front| ==> front[j] == lines[j];
      KeyAbsent(front, parseLine, k);
      assert !DefinesKey(parseLine(lines[n]), k);
    }
  }

  /** A parse succeeds when the parse of all lines but the last does and
      the last line is well formed. */
  lemma ParseOkStep(lines: seq<string>, parseLine: string -> Result<Entry>)
    requires lines != []
    ensures ParseWith(lines, parseLine).Ok?
        <==> ParseWith(lines[..|lines| - 1], parseLine).Ok? && parseLine(lines[|lines| - 1]).Ok?
  {
  }

  /** The parse succeeds exactly when every line is well formed. */
  lemma {:induction false} ParseSucceeds(lines: seq<string>, parseLine: string -> Result<Entry>)
    ensures ParseWith(lines, parseLine).Ok? <==> forall j :: 0 <= j < |lines| ==> parseLine(lines[j]).Ok?
  {
    if lines != [] {
      var n := |lines| - 1;
      var front := lines[..n];
      ParseSucceeds(front, parseLine);
      ParseOkStep(lines, parseLine);
      assert forall j :: 0 <= j < n ==> front[j] == lines[j];
    }
  }

  /** Everything from the first `#` on is ignored. */
  lemma {:induction false} CommentIgnored(before: string, after: string)
    requires !Contains(before, "#")
    ensures ParseLine(before + "#" + after) == ParseLine(before)
  {
    var line := before + "#" + after;
    var i := |before|;
    assert OccursAt(line, "#", i) by { assert line[i..i + 1] == "#"; }
    forall j | 0 <= j < i ensures !OccursAt(line, "#", j) {
      assert !OccursAt(before, "#", j);
      assert line[j..j + 1] == before[j..j + 1];
    }
    assert Find(line, "#") == Some(i);
    SplitHead(line, "#");
    assert line[..i] == before;
    SplitHead(before, "#");
  }

  /** The text of one dict entry as `save` writes it. */
  function EntryLine(e: (string, string)): string {
    e.0 + "=" + e.1 + "\n"
  }

  /** The whole text `save` writes: one `key=value\n` line per entry, in
      dict order. */
  function Serialize(d: Props): string {
    if d == [] then "" else Serialize(d[..|d| - 1]) + EntryLine(d[|d| - 1])
  }

  /** `PropertiesFile(path)`: reads the lines of the file and fills the dict
      in a loop.  The file's text is given. */
  method Load(text: string) returns (r: Result<Props>)
    ensures r == Parse(ReadLines(text))
  {
    var lines := ReadLines(text);
    var data: Props := [];
    for i := 0 to |lines|
      invariant Parse(lines[..i]) == Ok(data)
    {
      var line := lines[i];
      assert lines[..i + 1] == lines[..i] + [line];
      ParseStep(lines[..i], ParseLine, line);
      var lineWithoutComment := Uncommented(line);
      if AllSpace(lineWithoutComment) {
        assert ParseLine(line) == Ok(None);
        continue;
      }
      var items := Split(Strip(lineWithoutComment), "=");
      if |items| < 2 {
        assert ParseLine(line) == Err(IndexError);
        ParseStopsAt(lines, ParseLine, i + 1);
        return Err(IndexError);
      }
      assert ParseLine(line) == Ok(Some((items[0], items[1])));
      data := Set(data, items[0], items[1]);
    }
    assert lines[..|lines|] == lines;
    return Ok(data);
  }

  /** One more line after a successful parse: its error, or its entry
      applied. */
  lemma ParseStep(lines: seq<string>, parseLine: string -> Result<Entry>, line: string)
    requires ParseWith(lines, parseLine).Ok?
    ensures parseLine(line).Err? ==> ParseWith(lines + [line], parseLine) == Err(parseLine(line).error)
    ensures parseLine(line).Ok? ==>
      ParseWith(lines + [line], parseLine) == Ok(Apply(ParseWith(lines, parseLine).value, parseLine(line).value))
  {
    assert (lines + [line])[..|lines|] == lines;
  }

  /** Once a prefix of the lines fails to parse, so does every extension,
      with the same error. */
  lemma {:induction false} ParseStopsAt(lines: seq<string>, parseLine: string -> Result<Entry>, i: nat)
    requires i <= |lines| && ParseWith(lines[..i], parseLine).Err?
    ensures ParseWith(lines, parseLine) == ParseWith(lines[..i], parseLine)
    decreases |lines| - i
  {
    if i < |lines| {
      var front := lines[..|lines| - 1];
      assert front[..i] == lines[..i];
      ParseStopsAt(front, parseLine, i);
    } else {
      assert lines[..i] == lines;
    }
  }

  /** `PropertiesFile.save`: accumulates the text in a loop, one line per
      entry in dict order, and writes it. */
  method Save(d: Props) returns (text: string)
    ensures text == Serialize(d)
  {
    text := "";
    for i := 0 to |d|
      invariant text == Serialize(d[..i])
    {
      assert d[..i + 1][..i] == d[..i];
      var (key, value) := d[i];
      text := text + key + "=" + value + "\n";
    }
    assert d[..|d|] == d;
  }

  /** An entry `save` can write so that parsing reads it back unchanged: no
      `#`, `=` or newline in key or value, no leading whitespace in the key
      and no trailing whitespace in the value. */
  predicate PlainEntry(e: (string, string)) {
    && (forall c :: c in e.0 || c in e.1 ==> c != '#' && c != '=' && c != '\n')
    && (e.0 == [] || !IsSpace(e.0[0]))
    && (e.1 == [] || !IsSpace(e.1[|e.1| - 1]))
  }

  predicate Plain(d: Props) {
    DistinctKeys(d) && forall i :: 0 <= i < |d| ==> PlainEntry(d[i])
  }

  /** A single-character separator occurs exactly where that character is. */
  lemma OccursAtChar(s: string, c: char, i: int)
    ensures OccursAt(s, [c], i) <==> 0 <= i < |s| && s[i] == c
  {
    if 0 <= i < |s| {
      assert s[i..i + 1] == [s[i]];
    }
  }

  /** Where the first `c` is, `Find` says so; without `c`, it finds nothing. */
  lemma FindChar(s: string, c: char, i: nat)
    requires i <= |s|
    requires forall j :: 0 <= j < i ==> s[j] != c
    requires i == |s| || s[i] == c
    ensures i == |s| ==> Find(s, [c]).None?
    ensures i < |s| ==> Find(s, [c]) == Some(i)
  {
    forall j ensures OccursAt(s, [c], j) <==> 0 <= j < |s| && s[j] == c {
      OccursAtChar(s, c, j);
    }
  }

  /** The written line carries no `#`, so nothing is cut as a comment. */
  lemma UncommentedEntry(e: (string, string))
    requires PlainEntry(e)
    ensures Uncommented(EntryLine(e)) == EntryLine(e)
  {
    var line := EntryLine(e);
    forall j | 0 <= j < |line| ensures line[j] != '#' {
      if j < |e.0| { assert line[j] in e.0; }
      else if |e.0| < j < |e.0| + 1 + |e.1| { assert line[j] == e.1[j - |e.0| - 1]; assert line[j] in e.1; }
    }
    FindChar(line, '#', |line|);
    SplitHead(line, "#");
  }

  /** Stripping the written line removes only its newline. */
  lemma StripEntry(e: (string, string))
    requires PlainEntry(e)
    ensures Strip(EntryLine(e)) == e.0 + "=" + e.1
  {
    var body := e.0 + "=" + e.1;
    var line := EntryLine(e);
    assert line == body + "\n";
    assert line[..|line| - 1] == body;
    assert body[|body| - 1] == (if e.1 == [] then '=' else e.1[|e.1| - 1]);
    assert RStrip(line) == body;
    assert body[0] == (if e.0 == [] then '=' else e.0[0]);
  }

  /** The body of a written line splits on `=` into key and value. */
  lemma SplitEntry(e: (string, string))
    requires PlainEntry(e)
    ensures Split(e.0 + "=" + e.1, "=") == [e.0, e.1]
  {
    var (k, v) := e;
    var body := k + "=" + v;
    forall j | 0 <= j < |k| ensures body[j] != '=' { assert body[j] in k; }
    FindChar(body, '=', |k|);
    assert Find(body, "=") == Some(|k|);
    assert body[..|k|] == k && body[|k| + 1..] == v;
    forall j | 0 <= j < |v| ensures v[j] != '=' { assert v[j] in v; }
    FindChar(v, '=', |v|);
    assert Find(v, "=").None?;
    assert Split(v, "=") == [v];
    assert Split(body, "=") == [k] + Split(v, "=");
  }

  /** Each written line parses back to its entry. */
  lemma {:induction false} EntryLineParses(e: (string, string))
    requires PlainEntry(e)
    ensures ParseLine(EntryLine(e)) == Ok(Some(e))
  {
    var line := EntryLine(e);
    UncommentedEntry(e);
    assert !IsSpace(line[|e.0|]);
    assert !AllSpace(line);
    StripEntry(e);
    SplitEntry(e);
    var t := Strip(Uncommented(line));
    assert Split(t, "=") == [e.0, e.1];
  }

  /** A written line ends in its only newline. */
  lemma EntryLineShape(e: (string, string))
    requires PlainEntry(e)
    ensures var line := EntryLine(e);
      line != [] && line[|line| - 1] == '\n' &&
      forall j :: 0 <= j < |line| - 1 ==> line[j] != '\n'
  {
    var line := EntryLine(e);
    forall j | 0 <= j < |line| - 1 ensures line[j] != '\n' {
      if j < |e.0| { assert line[j] in e.0; }
      else if |e.0| < j { assert line[j] == e.1[j - |e.0| - 1]; assert line[j] in e.1; }
    }
  }

  /** The lines `save` writes, one per entry. */
  function EntryLines(d: Props): (r: seq<string>)
    ensures |r| == |d|
  {
    if d == [] then [] else EntryLines(d[..|d| - 1]) + [EntryLine(d[|d| - 1])]
  }

  /** The last character of non-empty serialised text is a newline. */
  lemma {:induction false} SerializeEndsInNewline(d: Props)
    ensures Serialize(d) == [] || Serialize(d)[|Serialize(d)| - 1] == '\n'
  {
  }

  /** `save` emits exactly one line per entry, in order, and nothing else. */
  lemma {:induction false} SerializeLines(d: Props)
    requires forall i :: 0 <= i < |d| ==> PlainEntry(d[i])
    ensures ReadLines(Serialize(d)) == EntryLines(d)
  {
    if d != [] {
      var front := d[..|d| - 1];
      var line := EntryLine(d[|d| - 1]);
      SerializeLines(front);
      SerializeEndsInNewline(front);
      ReadLinesAppend(Serialize(front), line);
      EntryLineShape(d[|d| - 1]);
      ReadOneLine(line);
    }
  }

  /** Round trip: reading back what `save` wrote gives the same dict, keys
      in the same order. */
  lemma {:induction false} RoundTrip(d: Props)
    requires Plain(d)
    ensures Parse(ReadLines(Serialize(d))) == Ok(d)
  {
    SerializeLines(d);
    RoundTripLines(d);
  }

  /** Appending a well-formed line to lines that parse applies that line
      to their dict. */
  lemma ParseSnoc(lines: seq<string>, parseLine: string -> Result<Entry>, line: string)
    requires ParseWith(lines, parseLine).Ok? && parseLine(line).Ok?
    ensures ParseWith(lines + [line], parseLine) == Ok(Apply(ParseWith(lines, parseLine).value, parseLine(line).value))
  {
    assert (lines + [line])[..|lines|] == lines;
  }

  lemma {:induction false} RoundTripLines(d: Props)
    requires Plain(d)
    ensures Parse(EntryLines(d)) == Ok(d)
  {
    if d != [] {
      var n := |d| - 1;
      var front := d[..n];
      assert Plain(front);
      RoundTripLines(front);
      EntryLineParses(d[n]);
      ParseSnoc(EntryLines(front), ParseLine, EntryLine(d[n]));
      assert Get(front, d[n].0).None? by {
        forall i | 0 <= i < |front| ensures front[i].0 != d[n].0 {
          assert front[i] == d[i];
        }
      }
      SetAbsent(front, d[n].0, d[n].1);
      assert front + [d[n]] == d;
    }
  }
}
