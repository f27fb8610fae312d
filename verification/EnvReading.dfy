/**
 * What an env file means, by its text: how the text falls into lines, what one line assigns,
 * and which of several assignments holds.
 */
module EnvReading {
  import opened EnvFile
  import opened Objects
  import opened Options
  import opened Text

  /** The line assigns this value to this key: the text around its first `=`, each side trimmed, and not a comment. */
  ghost predicate Assigns(line: string, key: string, value: string) {
    exists left, right :: ParsesAs(line, left, right) && key == Trim(left) && value == Trim(right)
  }

  predicate ParsesAs(line: string, left: string, right: string) {
    Trim(line) == left + "=" + right && left != "" && '=' !in left && left[0] != '#'
  }

  lemma FirstEquals(left: string, right: string)
    requires '=' !in left
    ensures IndexOf(left + "=" + right, '=') == |left|
    ensures (left + "=" + right)[..|left|] == left && (left + "=" + right)[|left| + 1..] == right
  {
    var t := left + "=" + right;
    var i := IndexOf(t, '=');
    assert t[|left|] == '=' && forall k | 0 <= k < |left| :: t[k] == left[k] && left[k] in left;
    assert forall k | 0 <= k < i :: t[..i][k] == t[k];
  }

  lemma ParsedParts(line: string, left: string, right: string)
    requires ParsesAs(line, left, right)
    ensures ParseLine(line) == Some((Trim(left), Trim(right)))
  {
    FirstEquals(left, right);
    assert (left + "=" + right)[0] == left[0];
  }

  /** A line is read as an assignment exactly when it is one; every other line is skipped. */
  lemma ParseLineIff(line: string, key: string, value: string)
    ensures ParseLine(line) == Some((key, value)) <==> Assigns(line, key, value)
  {
    var t := Trim(line);
    var eq := IndexOf(t, '=');
    if t != "" && t[0] != '#' && eq >= 1 {
      var left, right := t[..eq], t[eq + 1..];
      assert t == left + "=" + right && left[0] == t[0];
      assert ParsesAs(line, left, right);
    }
    forall left, right | ParsesAs(line, left, right)
      ensures ParseLine(line) == Some((Trim(left), Trim(right)))
    {
      ParsedParts(line, left, right);
    }
  }

  // ---------------------------------------------------------------------------- lines

  lemma CutEndsStep(a: string, pieces: seq<string>)
    requires pieces != []
    ensures CutEnds([a] + pieces) == [DropCarriageReturn(a)] + CutEnds(pieces)
  {
  }

  lemma LinesStep(a: string, b: string)
    requires '\n' !in a
    ensures Lines(a + "\n" + b) == [DropCarriageReturn(a)] + Lines(b)
  {
    SplitConcat(a, '\n', b);
    SplitWhole(a, '\n');
    CutEndsStep(a, Split(b, '\n'));
  }

  /** A line ends at a newline, with or without a carriage return in front of it; the last needs no end. */
  lemma LinesAre(line: string, rest: string)
    requires '\n' !in line
    ensures Lines(line) == [line]
    ensures Lines(line + "\r\n" + rest) == [line] + Lines(rest)
    ensures line == "" || line[|line| - 1] != '\r' ==> Lines(line + "\n" + rest) == [line] + Lines(rest)
  {
    SplitWhole(line, '\n');
    LinesStep(line, rest);
    LinesStep(line + "\r", rest);
    assert line + "\r\n" + rest == (line + "\r") + "\n" + rest;
    assert (line + "\r")[..|line|] == line;
  }

  // ---------------------------------------------------------------- which value holds

  predicate AssignsKey(line: string, key: string) {
    ParseLine(line).Some? && ParseLine(line).value.0 == key
  }

  ghost predicate LastWith(lines: seq<string>, i: nat, holds: string -> bool) {
    i < |lines| && holds(lines[i]) && forall j | i < j < |lines| :: !holds(lines[j])
  }

  lemma SameLast(front: seq<string>, line: string, i: nat, holds: string -> bool)
    requires !holds(line)
    ensures LastWith(front + [line], i, holds) <==> LastWith(front, i, holds)
  {
    var lines := front + [line];
    assert lines[|front|] == line && forall j | 0 <= j < |front| :: lines[j] == front[j];
  }

  /** Line `i` is the last that assigns the key. */
  ghost predicate LastAssignment(lines: seq<string>, i: nat, key: string) {
    LastWith(lines, i, line => AssignsKey(line, key))
  }

  lemma {:induction false} ParseSnoc(env: Env, lines: seq<string>, line: string)
    ensures
      var before := ParseLines(env, lines);
      ParseLines(env, lines + [line]) ==
        if ParseLine(line).Some? then Put(before, ParseLine(line).value, Exact) else before
    decreases |lines|
  {
    if lines == [] {
      assert lines + [line] == [line] && [line][1..] == [];
    } else {
      assert (lines + [line])[0] == lines[0] && (lines + [line])[1..] == lines[1..] + [line];
      var entry := ParseLine(lines[0]);
      ParseSnoc(if entry.Some? then Put(env, entry.value, Exact) else env, lines[1..], line);
    }
  }

  lemma PutLooksUp(env: Env, entry: (string, string), key: string)
    requires Unique(env, Exact)
    ensures
      var (before, after) := (Position(env, key, Exact), Position(Put(env, entry, Exact), key, Exact));
      if key == entry.0 then after >= 0 && Put(env, entry, Exact)[after].1 == entry.1
      else (after >= 0 <==> before >= 0) && (before >= 0 ==> Put(env, entry, Exact)[after] == env[before])
  {
    var at, put := Position(env, entry.0, Exact), Put(env, entry, Exact);
    var before, after := Position(env, key, Exact), Position(put, key, Exact);
    if key == entry.0 {
      var i := if at < 0 then |env| else at;
      assert put[i] == entry;
    } else if before >= 0 {
      assert put[before] == env[before];
    }
    if after >= 0 && key != entry.0 {
      assert put[after].0 != entry.0 && put[after] == env[after];
    }
  }

  lemma {:induction false} ReadUnique(lines: seq<string>)
    ensures Unique(ParseLines([], lines), Exact)
  {
    if lines != [] {
      var front, line := lines[..|lines| - 1], lines[|lines| - 1];
      assert lines == front + [line];
      ReadUnique(front);
      ParseSnoc([], front, line);
    }
  }

  /** The key holds the value of the last line that assigns it, and is absent when none does. */
  ghost predicate HoldsLast(lines: seq<string>, env: Env, key: string) {
    && (forall i: nat | LastAssignment(lines, i, key) ::
          Position(env, key, Exact) >= 0 && env[Position(env, key, Exact)].1 == ParseLine(lines[i]).value.1)
    && ((forall i: nat :: !LastAssignment(lines, i, key)) ==> Position(env, key, Exact) < 0)
  }

  lemma AssigningLine(front: seq<string>, line: string, env: Env, key: string)
    requires Unique(env, Exact) && AssignsKey(line, key)
    ensures HoldsLast(front + [line], Put(env, ParseLine(line).value, Exact), key)
  {
    var lines := front + [line];
    assert lines[|front|] == line;
    assert LastAssignment(lines, |front|, key);
    forall i: nat | LastAssignment(lines, i, key) ensures i == |front| {
    }
    PutLooksUp(env, ParseLine(line).value, key);
  }

  lemma OtherLine(front: seq<string>, line: string, before: Env, env: Env, key: string)
    requires !AssignsKey(line, key) && HoldsLast(front, before, key)
    requires
      var (p, q) := (Position(before, key, Exact), Position(env, key, Exact));
      (q >= 0 <==> p >= 0) && (p >= 0 ==> env[q] == before[p])
    ensures HoldsLast(front + [line], env, key)
  {
    var lines := front + [line];
    forall i: nat ensures LastAssignment(lines, i, key) <==> LastAssignment(front, i, key) {
      SameLast(front, line, i, l => AssignsKey(l, key));
    }
    assert forall i: nat | i < |front| :: lines[i] == front[i];
  }

  /** A key holds the value of the last line that assigns it, and is absent exactly when no line does. */
  lemma {:induction false} LastAssignmentHolds(lines: seq<string>, key: string)
    ensures HoldsLast(lines, ParseLines([], lines), key)
  {
    if lines != [] {
      var front, line := lines[..|lines| - 1], lines[|lines| - 1];
      assert lines == front + [line];
      ReadUnique(front);
      LastAssignmentHolds(front, key);
      ParseSnoc([], front, line);
      var before := ParseLines([], front);
      if AssignsKey(line, key) {
        AssigningLine(front, line, before, key);
      } else {
        if ParseLine(line).Some? {
          PutLooksUp(before, ParseLine(line).value, key);
        }
        OtherLine(front, line, before, ParseLines([], lines), key);
      }
    }
  }

  // ---------------------------------------------------------------------- what is written

  lemma {:induction false} JoinSnoc(parts: seq<string>, last: string, sep: string)
    requires parts != []
    ensures Join(parts + [last], sep) == Join(parts, sep) + sep + last
  {
    if |parts| == 1 {
      assert (parts + [last])[1..] == [last] && [last][1..] == [];
    } else {
      assert (parts + [last])[0] == parts[0] && (parts + [last])[1..] == parts[1..] + [last];
      JoinSnoc(parts[1..], last, sep);
    }
  }

  lemma WrittenSnoc(env: Env, entry: (string, string))
    ensures WrittenLines(env + [entry]) == WrittenLines(env) + [entry.0 + "=" + entry.1]
  {
  }

  /** The file is a comment, an empty line, and a line for every variable in order, each ended by a newline. */
  lemma SerializedText(env: Env, key: string, value: string)
    ensures Serialize([]) == "# Auto-generated by OmniRoute bootstrap" + "\n" + "\n"
    ensures Serialize(env + [(key, value)]) == Serialize(env) + (key + "=" + value) + "\n"
  {
    var head, lines, line := [COMMENT, ""], WrittenLines(env), key + "=" + value;
    WrittenSnoc(env, (key, value));
    assert FileLines(env + [(key, value)]) == head + lines + [line] + [""];
    JoinSnoc(head + lines + [line], "", "\n");
    JoinSnoc(head + lines, line, "\n");
    JoinSnoc(head + lines, "", "\n");
    assert FileLines([]) == [COMMENT] + [""] + [""];
    JoinSnoc([COMMENT] + [""], "", "\n");
    JoinSnoc([COMMENT], "", "\n");
    assert [COMMENT][1..] == [];
  }
}
