/**
 * The `.env` handling of `create-project`: the file is read into an ordered map of
 * `KEY=value` entries, `VITE_SITE_NAME` is set to the display name, and the map is written
 * back one `key=value` line per entry.
 */
module EnvFile {
  import opened Wrappers
  import opened Strings
  import opened Seqs

  type Entry = (string, string)

  /** A JavaScript `Map<string, string>`: its entries in insertion order. */
  type EnvMap = seq<Entry>

  function Keys(m: EnvMap): seq<string> {
    seq(|m|, i requires 0 <= i < |m| => m[i].0)
  }

  /** A `Map` never holds a key twice. */
  predicate UniqueKeys(m: EnvMap) {
    NoDuplicates(Keys(m))
  }

  /** `m.get(k)` */
  function Lookup(m: EnvMap, k: string): (r: Option<string>)
    ensures r.Some? <==> k in Keys(m)
  {
    if k in Keys(m) then Some(m[FirstIndex(Keys(m), k)].1) else None
  }

  /** `m.set(k, v)`: a present key keeps its position and takes the new value; a new key is
      appended. */
  function MapSet(m: EnvMap, k: string, v: string): (r: EnvMap)
    requires UniqueKeys(m)
    ensures UniqueKeys(r)
    ensures Keys(r) == if k in Keys(m) then Keys(m) else Keys(m) + [k]
    ensures Lookup(r, k) == Some(v)
    ensures forall j | j != k :: Lookup(r, j) == Lookup(m, j)
    ensures k !in Keys(m) ==> r == m + [(k, v)]
    ensures forall i | 0 <= i < |r| :: r[i] == (k, v) || r[i] in m
  {
    if k in Keys(m) then
      var i := FirstIndex(Keys(m), k);
      var r := m[i := (k, v)];
      assert Keys(r) == Keys(m);
      assert forall j | j != k && j in Keys(m) :: FirstIndex(Keys(m), j) != i;
      r
    else
      var r := m + [(k, v)];
      assert Keys(r) == Keys(m) + [k];
      assert forall j | j in Keys(m) :: FirstIndex(Keys(r), j) == FirstIndex(Keys(m), j) by {
        forall j | j in Keys(m) ensures FirstIndex(Keys(r), j) == FirstIndex(Keys(m), j) {
          assert Keys(r)[..|m|] == Keys(m);
          FirstIndexOfPrefix(Keys(r), |m|, j);
        }
      }
      r
  }

  /** Setting a key to the value it already has changes nothing. */
  lemma MapSetSame(m: EnvMap, k: string, v: string)
    requires UniqueKeys(m) && Lookup(m, k) == Some(v)
    ensures MapSet(m, k, v) == m
  {
    var i := FirstIndex(Keys(m), k);
    assert m[i] == (k, v);
  }

  /** One line of the parsing loop: `None` when the line is blank, a `#` comment, or has
      nothing before its first `=`; otherwise the key before the first `=`, trimmed, and
      everything after it. */
  function ParseLine(line: string): Option<Entry> {
    var trimmed := Trim(line);
    if trimmed == "" || StartsWith(trimmed, "#") then None
    else
      var parts := Split(trimmed, '=');
      var key := parts[0];
      if key == "" then None else Some((Trim(key), Join(parts[1..], '=')))
  }

  /** The map after one parsed line. */
  function Apply(m: EnvMap, e: Option<Entry>): (r: EnvMap)
    requires UniqueKeys(m)
    ensures UniqueKeys(r)
  {
    match e
    case None => m
    case Some((k, v)) => MapSet(m, k, v)
  }

  /** The map the parsing loop has built after the given lines. */
  function ParseLines(lines: seq<string>): (m: EnvMap)
    ensures UniqueKeys(m)
  {
    if lines == [] then [] else Apply(ParseLines(lines[..|lines| - 1]), ParseLine(lines[|lines| - 1]))
  }

  function ParseEnv(content: string): EnvMap {
    ParseLines(Split(content, '\n'))
  }

  function EntryLine(e: Entry): string {
    e.0 + "=" + e.1
  }

  function Lines(m: EnvMap): seq<string> {
    seq(|m|, i requires 0 <= i < |m| => EntryLine(m[i]))
  }

  /** `newEnvLines.join('\n') + '\n'` */
  function Render(m: EnvMap): string {
    Join(Lines(m), '\n') + "\n"
  }

  const SiteNameKey := "VITE_SITE_NAME"

  /** The content `createOrUpdateEnvFile` writes, given the current file's content if any. */
  function UpdatedEnv(existing: Option<string>, displayName: string): string {
    Render(MapSet(ParseEnv(existing.GetOr("")), SiteNameKey, displayName))
  }

  /** `createOrUpdateEnvFile`: returns what it writes to `.env`. */
  method CreateOrUpdateEnvFile(existing: Option<string>, displayName: string) returns (written: string)
    ensures written == UpdatedEnv(existing, displayName)
  {
    var envContent := "";
    if existing.Some? {
      envContent := existing.value;
    }
    var envLines := Split(envContent, '\n');
    var envMap: EnvMap := [];
    for i := 0 to |envLines|
      invariant envMap == ParseLines(envLines[..i])
    {
      assert envLines[..i + 1][..i] == envLines[..i];
      var trimmedLine := Trim(envLines[i]);
      if trimmedLine != "" && !StartsWith(trimmedLine, "#") {
        var parts := Split(trimmedLine, '=');
        var key := parts[0];
        if key != "" {
          envMap := MapSet(envMap, Trim(key), Join(parts[1..], '='));
        }
      }
    }
    assert envLines[..|envLines|] == envLines;
    envMap := MapSet(envMap, SiteNameKey, displayName);
    var newEnvLines: seq<string> := [];
    for i := 0 to |envMap|
      invariant newEnvLines == Lines(envMap)[..i]
    {
      newEnvLines := newEnvLines + [envMap[i].0 + "=" + envMap[i].1];
    }
    assert Lines(envMap)[..|envMap|] == Lines(envMap);
    written := Join(newEnvLines, '\n') + "\n";
  }

  /** Keys the parser can produce and read back: not empty, no `=` or newline, not starting
      with `#`, no whitespace at either end. */
  predicate IsEnvKey(k: string) {
    && k != "" && '=' !in k && '\n' !in k && k[0] != '#'
    && !IsWhitespace(k[0]) && !IsWhitespace(k[|k| - 1])
  }

  /** Values that survive a write and a read: no newline, no trailing whitespace. */
  predicate IsEnvValue(v: string) {
    '\n' !in v && (v == "" || !IsWhitespace(v[|v| - 1]))
  }

  predicate WellFormed(m: EnvMap) {
    UniqueKeys(m) && forall i | 0 <= i < |m| :: IsEnvKey(m[i].0) && IsEnvValue(m[i].1)
  }

  /** A line written for a well-formed entry parses back to that entry. */
  lemma ParseEntryLine(k: string, v: string)
    requires IsEnvKey(k) && IsEnvValue(v)
    ensures ParseLine(EntryLine((k, v))) == Some((k, v))
  {
    var line := EntryLine((k, v));
    assert line[0] == k[0];
    assert line[|line| - 1] == if v == "" then '=' else v[|v| - 1];
    TrimUnchanged(line);
    assert line[..1] != "#" by {
      assert line[..1][0] == k[0];
    }
    SplitAtFirst(k, v, '=');
    TrimUnchanged(k);
    JoinSplit(v, '=');
  }

  /** Every entry the parser produces from a line without a newline is well formed. */
  lemma ParseLineWellFormed(line: string)
    requires '\n' !in line
    ensures match ParseLine(line)
      case Some((k, v)) => IsEnvKey(k) && IsEnvValue(v)
      case None => true
  {
    var t := Trim(line);
    TrimChars(line);
    if t != "" && !StartsWith(t, "#") {
      var parts := Split(t, '=');
      var key := parts[0];
      if key != "" {
        JoinSplit(t, '=');
        var value := Join(parts[1..], '=');
        if |parts| == 1 {
          assert t == key;
        } else {
          assert t == key + "=" + value;
        }
        assert key[0] == t[0];
        assert t[..1][0] == t[0];
        TrimKeepsHead(key);
        TrimChars(key);
        var k := Trim(key);
        assert forall c | c in key :: c in t;
        assert value != "" ==> value[|value| - 1] == t[|t| - 1];
        assert forall c | c in value :: c in t;
        assert '=' !in key;
        assert IsEnvKey(k);
      }
    }
  }

  /** Whatever the file held, the parsed map is well formed. */
  lemma {:induction false} ParseLinesWellFormed(lines: seq<string>)
    requires forall l | l in lines :: '\n' !in l
    ensures WellFormed(ParseLines(lines))
  {
    if lines != [] {
      var init := lines[..|lines| - 1];
      ParseLinesWellFormed(init);
      ParseLineWellFormed(lines[|lines| - 1]);
    }
  }

  /** Reading the lines written for a well-formed map gives the map back. */
  lemma {:induction false} ParseEntryLines(m: EnvMap)
    requires WellFormed(m)
    ensures ParseLines(Lines(m)) == m
  {
    if m != [] {
      var init := m[..|m| - 1];
      var last := m[|m| - 1];
      assert Keys(init) == Keys(m)[..|m| - 1];
      assert WellFormed(init);
      ParseEntryLines(init);
      assert Lines(m)[..|m| - 1] == Lines(init);
      ParseEntryLine(last.0, last.1);
      assert last.0 !in Keys(init) by {
        assert Keys(m)[|m| - 1] == last.0;
      }
      assert init + [last] == m;
    }
  }

  /** The written file splits into one line per entry, then an empty last piece. */
  lemma RenderSplits(m: EnvMap)
    requires WellFormed(m) && m != []
    ensures Split(Render(m), '\n') == Lines(m) + [""]
  {
    var lines := Lines(m);
    forall l | l in lines + [""] ensures '\n' !in l {
      if l in lines {
        var i :| 0 <= i < |lines| && lines[i] == l;
        assert l == m[i].0 + "=" + m[i].1;
      }
    }
    JoinAppend(lines, [""], '\n');
    assert Join([""], '\n') == "";
    assert Join(lines + [""], '\n') == Render(m);
    SplitJoin(lines + [""], '\n');
  }

  /** Parsing a rendered well-formed map gives back the same ordered map. An empty map is
      written as a single newline, which parses back to the empty map. */
  lemma RenderRoundTrip(m: EnvMap)
    requires WellFormed(m)
    ensures ParseEnv(Render(m)) == m
  {
    if m == [] {
      assert Render(m) == "\n";
      assert Split("\n", '\n') == ["", ""];
      assert ParseLines(["", ""][..1]) == [];
    } else {
      RenderSplits(m);
      var lines := Lines(m) + [""];
      assert lines[..|lines| - 1] == Lines(m);
      ParseEntryLines(m);
    }
  }

  /** The display name comes trimmed from a typed line, so it is a value that survives. */
  lemma TrimmedLineIsEnvValue(line: string)
    requires '\n' !in line
    ensures IsEnvValue(Trim(line))
  {
    TrimChars(line);
  }

  /** After the update, reading the file gives `VITE_SITE_NAME` the display name; every other
      key keeps its value, the keys keep their order, and a new key comes last. */
  lemma UpdateSetsSiteName(existing: Option<string>, displayName: string)
    requires IsEnvValue(displayName)
    ensures var before := ParseEnv(existing.GetOr(""));
      var after := ParseEnv(UpdatedEnv(existing, displayName));
      && Lookup(after, SiteNameKey) == Some(displayName)
      && (forall j | j != SiteNameKey :: Lookup(after, j) == Lookup(before, j))
      && Keys(after) == if SiteNameKey in Keys(before) then Keys(before) else Keys(before) + [SiteNameKey]
  {
    var before := ParseEnv(existing.GetOr(""));
    UpdatedWellFormed(before, displayName);
    RenderRoundTrip(MapSet(before, SiteNameKey, displayName));
  }

  lemma UpdatedWellFormed(before: EnvMap, displayName: string)
    requires WellFormed(before) || exists content :: before == ParseEnv(content)
    requires IsEnvValue(displayName)
    ensures WellFormed(MapSet(before, SiteNameKey, displayName))
  {
    if !WellFormed(before) {
      var content :| before == ParseEnv(content);
      ParseLinesWellFormed(Split(content, '\n'));
    }
    assert IsEnvKey(SiteNameKey);
  }

  /** Running the update twice with the same display name writes the same file twice. */
  lemma UpdateIdempotent(existing: Option<string>, displayName: string)
    requires IsEnvValue(displayName)
    ensures UpdatedEnv(Some(UpdatedEnv(existing, displayName)), displayName) == UpdatedEnv(existing, displayName)
  {
    var before := ParseEnv(existing.GetOr(""));
    UpdatedWellFormed(before, displayName);
    var m := MapSet(before, SiteNameKey, displayName);
    RenderRoundTrip(m);
    MapSetSame(m, SiteNameKey, displayName);
  }

  /** Blank lines and comment lines contribute nothing. */
  lemma SkippedLines(line: string)
    requires IsBlank(line) || StartsWith(Trim(line), "#")
    ensures ParseLine(line) == None
  {
    TrimBlankIff(line);
  }
}
