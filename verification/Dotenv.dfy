/** Literal KEY=VALUE files, as internal/agent/dotenv.go reads them. */
module Dotenv {
  import opened Text

  datatype Parts = Parts(before: string, after: string, found: bool)

  /** strings.Cut(s, "="). */
  function Cut(s: string): (r: Parts)
    ensures r.found <==> '=' in s
    ensures r.found ==> s == r.before + "=" + r.after && '=' !in r.before
  {
    if s == [] then Parts(s, "", false)
    else if s[0] == '=' then Parts("", s[1..], true)
    else
      var rest := Cut(s[1..]);
      if rest.found then Parts([s[0]] + rest.before, rest.after, true) else Parts(s, "", false)
  }

  /** There is one way to split a text at its first equals sign. */
  lemma {:induction false} CutIsFirst(s: string, before: string, after: string)
    requires s == before + "=" + after && '=' !in before
    ensures Cut(s) == Parts(before, after, true)
    decreases |s|
  {
    if before != [] {
      assert s[0] == before[0] && s[1..] == before[1..] + "=" + after;
      CutIsFirst(s[1..], before[1..], after);
    } else {
      assert s[0] == '=' && s[1..] == after;
    }
  }

  // ---- lines ----------------------------------------------------------------------------------

  const MAX_LINE: nat := 65536    // bufio.MaxScanTokenSize

  /** What unicode.IsSpace accepts. */
  predicate IsSpace(c: char) {
    || '\t' <= c <= '\r' || c == ' ' || c == '\U{85}' || c == '\U{A0}' || c == '\U{1680}'
    || '\U{2000}' <= c <= '\U{200A}' || c == '\U{2028}' || c == '\U{2029}' || c == '\U{202F}' || c == '\U{205F}' || c == '\U{3000}'
  }

  function TrimLeft(s: string): string {
    if s != [] && IsSpace(s[0]) then TrimLeft(s[1..]) else s
  }

  function TrimSpace(s: string): string {
    TrimRight(TrimLeft(s))
  }

  function TrimRight(s: string): string {
    if s != [] && IsSpace(s[|s| - 1]) then TrimRight(s[..|s| - 1]) else s
  }

  function DropReturn(line: string): string {
    if line != [] && line[|line| - 1] == '\r' then line[..|line| - 1] else line
  }

  /** The lines between line feeds, without a last empty one. */
  function RawLines(input: string): (lines: seq<string>)
    ensures forall i :: 0 <= i < |lines| ==> '\n' !in lines[i]
  {
    SplitLines("", input)
  }

  function SplitLines(line: string, rest: string): (lines: seq<string>)
    requires '\n' !in line
    ensures forall i :: 0 <= i < |lines| ==> '\n' !in lines[i]
    decreases |rest|
  {
    if rest == [] then (if line == [] then [] else [line])
    else if rest[0] == '\n' then [line] + SplitLines("", rest[1..])
    else SplitLines(line + [rest[0]], rest[1..])
  }

  function Unlines(lines: seq<string>): string {
    if lines == [] then "" else lines[0] + "\n" + Unlines(lines[1..])
  }

  /** Splitting loses nothing: ending every line with a line feed gives the input back, up to its own last one. */
  lemma {:induction false} SplitKeepsText(line: string, rest: string)
    requires '\n' !in line
    ensures var text := line + rest;
            Unlines(SplitLines(line, rest)) == if text == "" || text[|text| - 1] == '\n' then text else text + "\n"
    decreases |rest|
  {
    if rest == [] {
      assert line + rest == line;
      if line != [] {
        assert [line][1..] == [];
        assert line[|line| - 1] in line;
      }
    } else if rest[0] == '\n' {
      SplitKeepsText("", rest[1..]);
      assert "" + rest[1..] == rest[1..];
      assert line + rest == line + "\n" + rest[1..];
    } else {
      SplitKeepsText(line + [rest[0]], rest[1..]);
      assert line + rest == (line + [rest[0]]) + rest[1..];
    }
  }

  // ---- entries --------------------------------------------------------------------------------

  predicate Letter(c: char) {
    'A' <= c <= 'Z' || c == '_'
  }

  /** [A-Z_][A-Z0-9_]* */
  predicate ValidKey(key: string) {
    && key != ""
    && Letter(key[0])
    && forall i :: 0 <= i < |key| ==> Letter(key[i]) || '0' <= key[i] <= '9'
  }

  method ValidEnvironmentKey(key: string) returns (valid: bool)
    ensures valid == ValidKey(key)
  {
    if key == "" {
      return false;
    }
    for i := 0 to |key|
      invariant forall j :: 0 <= j < i ==> Letter(key[j]) || (j > 0 && '0' <= key[j] <= '9')
    {
      if Letter(key[i]) {
        continue;
      }
      if i > 0 && '0' <= key[i] <= '9' {
        continue;
      }
      return false;
    }
    return true;
  }

  datatype Line = Blank | Assignment(key: string, value: string) | Malformed | TooLong
  {
    predicate Fault() {
      Malformed? || TooLong?
    }
  }

  /** What a raw line means. */
  function Meaning(raw: string): Line {
    var line := TrimSpace(DropReturn(raw));
    var parts := Cut(line);
    if ByteLength(raw) >= MAX_LINE then TooLong
    else if line == "" || line[0] == '#' then Blank
    else if parts.found && ValidKey(parts.before) then Assignment(parts.before, parts.after)
    else Malformed
  }

  predicate AllSpace(s: string) {
    forall i :: 0 <= i < |s| ==> IsSpace(s[i])
  }

  predicate Trimmed(s: string) {
    s != "" ==> !IsSpace(s[0]) && !IsSpace(s[|s| - 1])
  }

  lemma {:induction false} TrimsLeft(left: string, s: string)
    requires AllSpace(left) && (s != "" ==> !IsSpace(s[0]))
    ensures TrimLeft(left + s) == s
  {
    if left != "" {
      assert (left + s)[1..] == left[1..] + s;
      TrimsLeft(left[1..], s);
    } else {
      assert left + s == s;
    }
  }

  lemma {:induction false} TrimsRight(s: string, right: string)
    requires AllSpace(right) && (s != "" ==> !IsSpace(s[|s| - 1]))
    ensures TrimRight(s + right) == s
    decreases |right|
  {
    if right != "" {
      var n := |right| - 1;
      assert (s + right)[..|s + right| - 1] == s + right[..n];
      TrimsRight(s, right[..n]);
    } else {
      assert s + right == s;
    }
  }

  lemma {:induction false} SpaceTrimsAway(s: string)
    requires AllSpace(s)
    ensures TrimLeft(s) == ""
  {
    if s != "" {
      SpaceTrimsAway(s[1..]);
    }
  }

  /** Trimming takes away exactly the surrounding space. */
  lemma TrimSpaceIs(left: string, core: string, right: string)
    requires AllSpace(left) && AllSpace(right) && Trimmed(core)
    ensures TrimSpace(left + core + right) == core
  {
    if core == "" {
      assert left + core + right == left + right;
      SpaceTrimsAway(left + right);
    } else {
      assert left + core + right == left + (core + right);
      TrimsLeft(left, core + right);
      TrimsRight(core, right);
    }
  }

  /** Every line short enough means what it says between its surrounding space: nothing or a comment, an assignment to a
      valid key up to the first equals sign, or else a fault. */
  lemma MeaningIs(left: string, core: string, right: string)
    requires AllSpace(left) && AllSpace(right) && Trimmed(core)
    ensures var raw := left + core + right;
            if ByteLength(raw) >= 64 * 1024 then Meaning(raw) == TooLong
            else if core == "" || core[0] == '#' then Meaning(raw) == Blank
            else
              && (Meaning(raw).Malformed? || Meaning(raw).Assignment?)
              && (forall key, value :: ValidKey(key) && core == key + "=" + value ==> Meaning(raw) == Assignment(key, value))
              && (Meaning(raw).Assignment? ==> ValidKey(Meaning(raw).key) && core == Meaning(raw).key + "=" + Meaning(raw).value)
  {
    hide ByteLength, TrimSpace, Cut;
    var raw := left + core + right;
    var rest := if right != "" && right[|right| - 1] == '\r' then right[..|right| - 1] else right;
    if core == "" {
      var space := left + right;
      assert raw == space && AllSpace(DropReturn(raw));
      TrimSpaceIs(DropReturn(raw), "", "");
      assert DropReturn(raw) + "" + "" == DropReturn(raw);
    } else {
      assert DropReturn(raw) == left + core + rest;
      TrimSpaceIs(left, core, rest);
    }
    forall key, value | ValidKey(key) && core == key + "=" + value && core != "" && core[0] != '#' && ByteLength(raw) < MAX_LINE
      ensures Meaning(raw) == Assignment(key, value)
    {
      CutIsFirst(core, key, value);
    }
  }

  function Meanings(input: string): seq<Line> {
    var raw := RawLines(input);
    seq(|raw|, i requires 0 <= i < |raw| => Meaning(raw[i]))
  }

  datatype Parsed = Values(values: map<string, string>) | InvalidEntry(line: nat) | ReadFailed

  predicate LastAssignment(lines: seq<Line>, i: nat) {
    && i < |lines| && lines[i].Assignment?
    && forall j :: i < j < |lines| && lines[j].Assignment? ==> lines[j].key != lines[i].key
  }

  /** Each assigned key has its last value, and no other key has one. */
  ghost predicate LastValues(lines: seq<Line>, values: map<string, string>) {
    && (forall i: nat :: LastAssignment(lines, i) ==> lines[i].key in values && values[lines[i].key] == lines[i].value)
    && (forall key :: key in values ==> exists i :: 0 <= i < |lines| && lines[i].Assignment? && lines[i].key == key)
  }

  predicate FirstFault(lines: seq<Line>, i: nat) {
    i < |lines| && lines[i].Fault() && forall j :: 0 <= j < i ==> !lines[j].Fault()
  }

  /** The outcome a file has: its last values, unless some line is at fault, and then the first such line decides. */
  ghost predicate Outcome(lines: seq<Line>, r: Parsed) {
    match r
    case Values(values) => (forall i :: 0 <= i < |lines| ==> !lines[i].Fault()) && LastValues(lines, values)
    case InvalidEntry(n) => n >= 1 && FirstFault(lines, n - 1) && lines[n - 1].Malformed?
    case ReadFailed => exists i: nat :: FirstFault(lines, i) && lines[i].TooLong?
  }

  method ParseDotenv(input: string) returns (r: Parsed)
    ensures Outcome(Meanings(input), r)
  {
    hide TrimSpace, ByteLength, Cut;
    var raw := RawLines(input);
    var values: map<string, string> := map[];
    var lineNumber := 0;
    ghost var lines := Meanings(input);
    assert lines[..0] == [];
    while lineNumber < |raw| && ByteLength(raw[lineNumber]) < MAX_LINE
      invariant lineNumber <= |raw|
      invariant forall i :: 0 <= i < lineNumber ==> !lines[i].Fault()
      invariant LastValues(lines[..lineNumber], values)
    {
      lineNumber := lineNumber + 1;
      var line := TrimSpace(DropReturn(raw[lineNumber - 1]));
      ghost var meaning := lines[lineNumber - 1];
      assert lines[..lineNumber] == lines[..lineNumber - 1] + [meaning];
      if line == "" || line[0] == '#' {
        LastValuesGrow(lines[..lineNumber - 1], values, meaning);
        continue;
      }
      var parts := Cut(line);
      var valid := ValidEnvironmentKey(parts.before);
      if !parts.found || !valid {
        assert FirstFault(lines, lineNumber - 1);
        return InvalidEntry(lineNumber);
      }
      LastValuesGrow(lines[..lineNumber - 1], values, meaning);
      values := values[parts.before := parts.after];
    }
    if lineNumber < |raw| {
      assert FirstFault(lines, lineNumber);
      return ReadFailed;
    }
    assert lines[..lineNumber] == lines;
    return Values(values);
  }

  lemma LastValuesGrow(lines: seq<Line>, values: map<string, string>, next: Line)
    requires LastValues(lines, values) && !next.Fault()
    ensures LastValues(lines + [next], if next.Assignment? then values[next.key := next.value] else values)
  {
    var all := lines + [next];
    var after := if next.Assignment? then values[next.key := next.value] else values;
    forall i: nat | LastAssignment(all, i) ensures all[i].key in after && after[all[i].key] == all[i].value {
      if i < |lines| {
        assert next.Assignment? ==> all[|lines|].key != all[i].key;
        forall j | i < j < |lines| && lines[j].Assignment? ensures lines[j].key != lines[i].key {
          assert all[j] == lines[j];
        }
        assert LastAssignment(lines, i);
      }
    }
    forall key | key in after ensures exists i :: 0 <= i < |all| && all[i].Assignment? && all[i].key == key {
      if next.Assignment? && key == next.key {
        assert all[|lines|].key == key;
      } else {
        var i :| 0 <= i < |lines| && lines[i].Assignment? && lines[i].key == key;
        assert all[i].key == key;
      }
    }
  }

  lemma {:induction false} LastOne(lines: seq<Line>, i: nat) returns (last: nat)
    requires i < |lines| && lines[i].Assignment?
    ensures LastAssignment(lines, last) && lines[last].key == lines[i].key
    decreases |lines| - i
  {
    if LastAssignment(lines, i) {
      last := i;
    } else {
      var j :| i < j < |lines| && lines[j].Assignment? && lines[j].key == lines[i].key;
      last := LastOne(lines, j);
    }
  }

  /** A file has exactly one outcome. */
  lemma OutcomeIsUnique(lines: seq<Line>, a: Parsed, b: Parsed)
    requires Outcome(lines, a) && Outcome(lines, b)
    ensures a == b
  {
    if a.Values? && b.Values? {
      SameValues(lines, a.values, b.values);
      SameValues(lines, b.values, a.values);
      assert a.values == b.values;
    }
  }

  lemma SameValues(lines: seq<Line>, a: map<string, string>, b: map<string, string>)
    requires LastValues(lines, a) && LastValues(lines, b)
    ensures forall key :: key in a ==> key in b && a[key] == b[key]
  {
    forall key | key in a ensures key in b && a[key] == b[key] {
      var i :| 0 <= i < |lines| && lines[i].Assignment? && lines[i].key == key;
      var last := LastOne(lines, i);
    }
  }

  /** Every key of a parsed file can be a variable's name: it holds no equals sign. */
  lemma ParsedKeysAreValid(input: string, values: map<string, string>)
    requires Outcome(Meanings(input), Values(values))
    ensures forall key :: key in values ==> ValidKey(key) && '=' !in key
  {
    hide TrimSpace, ByteLength, Cut;
    var lines := Meanings(input);
    forall key | key in values ensures ValidKey(key) && '=' !in key {
      var i :| 0 <= i < |lines| && lines[i].Assignment? && lines[i].key == key;
    }
  }
}
