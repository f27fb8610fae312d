/**
 * The KEY=VALUE file that keeps the desktop app's generated secrets: its reader, its writer,
 * and the bootstrap that fills in missing secrets at every start.
 */
module EnvFile {
  import opened Objects
  import opened Options
  import opened Text

  /** An environment: variables in insertion order. */
  type Env = Fields<string>

  // --------------------------------------------------------------------- the reader

  function DropCarriageReturn(piece: string): string {
    if piece != "" && piece[|piece| - 1] == '\r' then piece[..|piece| - 1] else piece
  }

  /** Every piece but the last without the carriage return it may end in. */
  function CutEnds(pieces: seq<string>): seq<string> {
    seq(|pieces|, i requires 0 <= i < |pieces| => if i < |pieces| - 1 then DropCarriageReturn(pieces[i]) else pieces[i])
  }

  /** The pieces between line ends, where a line end is a newline with or without a carriage return. */
  function Lines(text: string): seq<string> {
    CutEnds(Split(text, '\n'))
  }

  function ParseLine(line: string): Option<(string, string)> {
    var t := Trim(line);
    var eq := IndexOf(t, '=');
    if t == "" || t[0] == '#' || eq < 1 then None
    else Some((Trim(t[..eq]), Trim(t[eq + 1..])))
  }

  function ParseLines(env: Env, lines: seq<string>): Env
    decreases |lines|
  {
    if lines == [] then env
    else
      var entry := ParseLine(lines[0]);
      ParseLines(if entry.Some? then Put(env, entry.value, Exact) else env, lines[1..])
  }

  /** What the file holds; a missing file holds nothing. */
  function Parse(file: Option<string>): Env {
    if file.None? then [] else ParseLines([], Lines(file.value))
  }

  method ParseEnvFile(file: Option<string>) returns (env: Env)
    ensures env == Parse(file)
  {
    env := [];
    if file.None? {
      return;
    }
    var lines := Lines(file.value);
    for i := 0 to |lines|
      invariant ParseLines(env, lines[i..]) == Parse(file)
    {
      assert lines[i..][0] == lines[i] && lines[i..][1..] == lines[i + 1..];
      var t := Trim(lines[i]);
      if t == "" || t[0] == '#' {
        continue;
      }
      var eq := IndexOf(t, '=');
      if eq < 1 {
        continue;
      }
      env := Put(env, (Trim(t[..eq]), Trim(t[eq + 1..])), Exact);
    }
  }

  // --------------------------------------------------------------------- the writer

  function Line(entry: (string, string)): string {
    entry.0 + "=" + entry.1
  }

  const COMMENT := "# Auto-generated by OmniRoute bootstrap"

  function WrittenLines(env: Env): seq<string> {
    seq(|env|, i requires 0 <= i < |env| => Line(env[i]))
  }

  function FileLines(env: Env): seq<string> {
    [COMMENT, ""] + WrittenLines(env) + [""]
  }

  function Serialize(env: Env): string {
    Join(FileLines(env), "\n")
  }

  // ---------------------------------------------------------------- what can be read

  /** A variable the format can carry. */
  predicate Storable(entry: (string, string)) {
    && entry.0 != "" && Trimmed(entry.0) && entry.0[0] != '#' && '=' !in entry.0 && '\n' !in entry.0
    && Trimmed(entry.1) && '\n' !in entry.1
  }

  ghost predicate AllStorable(env: Env) {
    forall i | 0 <= i < |env| :: Storable(env[i])
  }

  lemma {:induction false} TrimKeepsFirst(s: string)
    requires s != "" && !IsSpace(s[0])
    ensures TrimEnd(s) != "" && TrimEnd(s)[0] == s[0]
  {
    if IsSpace(s[|s| - 1]) {
      TrimKeepsFirst(s[..|s| - 1]);
    }
  }

  lemma ParsedLineIsStorable(line: string)
    requires '\n' !in line
    ensures ParseLine(line).Some? ==> Storable(ParseLine(line).value)
  {
    var t := Trim(line);
    TrimIdempotent(line);
    TrimWithin(line);
    var eq := IndexOf(t, '=');
    if t != "" && t[0] != '#' && eq >= 1 {
      var key, value := t[..eq], t[eq + 1..];
      TrimIdempotent(key);
      TrimIdempotent(value);
      TrimWithin(key);
      TrimWithin(value);
      TrimKeepsFirst(key);
    }
  }

  lemma PutStorable(env: Env, entry: (string, string))
    requires Unique(env, Exact) && AllStorable(env) && Storable(entry)
    ensures Unique(Put(env, entry, Exact), Exact) && AllStorable(Put(env, entry, Exact))
  {
  }

  lemma {:induction false} ParseLinesStorable(env: Env, lines: seq<string>)
    requires Unique(env, Exact) && AllStorable(env)
    requires forall l | l in lines :: '\n' !in l
    ensures Unique(ParseLines(env, lines), Exact) && AllStorable(ParseLines(env, lines))
    decreases |lines|
  {
    if lines != [] {
      assert lines[0] in lines;
      ParsedLineIsStorable(lines[0]);
      var entry := ParseLine(lines[0]);
      if entry.Some? {
        PutStorable(env, entry.value);
      }
      ParseLinesStorable(if entry.Some? then Put(env, entry.value, Exact) else env, lines[1..]);
    }
  }

  /** Every map the reader can return holds distinct, storable variables. */
  lemma ParsedIsStorable(file: Option<string>)
    ensures Unique(Parse(file), Exact) && AllStorable(Parse(file))
  {
    if file.Some? {
      SplitPieces(file.value, '\n');
      var pieces, lines := Split(file.value, '\n'), Lines(file.value);
      forall l | l in lines ensures '\n' !in l {
        var i :| 0 <= i < |lines| && lines[i] == l;
        assert pieces[i] in pieces;
      }
      ParseLinesStorable([], lines);
    }
  }

  // --------------------------------------------------------------------- round trip

  /** A line written for a storable variable reads back as that variable. */
  lemma ParseWrittenLine(entry: (string, string))
    requires Storable(entry)
    ensures ParseLine(Line(entry)) == Some(entry)
    ensures '\n' !in Line(entry) && DropCarriageReturn(Line(entry)) == Line(entry)
  {
    var (key, value) := entry;
    var line := Line(entry);
    assert line[|line| - 1] == if value == "" then '=' else value[|value| - 1];
    TrimFixes(line);
    var eq := |key|;
    assert line[eq] == '=' && line[..eq] == key && line[eq + 1..] == value;
    assert forall k | 0 <= k < eq :: line[k] == key[k] && key[k] in key;
    var first := IndexOf(line, '=');
    assert '=' in line;
    assert forall k | 0 <= k < first :: line[k] == line[..first][k];
    assert first == eq;
    TrimFixes(key);
    TrimFixes(value);
  }

  lemma CommentIsSkipped(line: string)
    requires line == "" || (line[0] == '#' && !IsSpace(line[|line| - 1]))
    ensures ParseLine(line) == None
  {
    TrimFixes(line);
  }

  /** Reading written lines adds their variables one by one. */
  lemma {:induction false} ParseWrittenLines(env: Env, more: Env, after: seq<string>)
    requires Unique(env + more, Exact) && AllStorable(more)
    ensures ParseLines(env, WrittenLines(more) + after) == ParseLines(env + more, after)
    decreases |more|
  {
    if more == [] {
      assert WrittenLines(more) + after == after && env + more == env;
    } else {
      var rest := more[1..];
      assert WrittenLines(more) + after == [Line(more[0])] + (WrittenLines(rest) + after);
      assert env + more == env + [more[0]] + rest;
      ParseWrittenLine(more[0]);
      assert Put(env, more[0], Exact) == env + [more[0]] by {
        assert forall i | 0 <= i < |env| :: (env + more)[i] == env[i];
        assert (env + more)[|env|] == more[0];
      }
      ParseWrittenLines(env + [more[0]], rest, after);
    }
  }

  lemma CommentShape()
    ensures COMMENT[0] == '#' && !IsSpace(COMMENT[|COMMENT| - 1]) && '\n' !in COMMENT &&
              DropCarriageReturn(COMMENT) == COMMENT
  {
    assert COMMENT[|COMMENT| - 1] == 'p';
  }

  lemma ParseSkips(env: Env, line: string, rest: seq<string>)
    requires ParseLine(line) == None
    ensures ParseLines(env, [line] + rest) == ParseLines(env, rest)
  {
    assert ([line] + rest)[1..] == rest;
  }

  lemma ParseFileLines(comment: string, env: Env)
    requires comment != "" && comment[0] == '#' && !IsSpace(comment[|comment| - 1])
    requires Unique(env, Exact) && AllStorable(env)
    ensures ParseLines([], [comment, ""] + WrittenLines(env) + [""]) == env
  {
    CommentIsSkipped(comment);
    CommentIsSkipped("");
    var body := WrittenLines(env) + [""];
    assert [comment, ""] + WrittenLines(env) + [""] == [comment] + ([""] + body);
    ParseSkips([], comment, [""] + body);
    ParseSkips([], "", body);
    assert [] + env == env;
    ParseWrittenLines([], env, [""]);
    assert [""] == [""] + [];
    ParseSkips(env, "", []);
  }

  lemma LinesOfSerialized(env: Env)
    requires AllStorable(env)
    ensures Lines(Serialize(env)) == FileLines(env)
  {
    var lines := FileLines(env);
    CommentShape();
    forall i | 0 <= i < |lines| ensures '\n' !in lines[i] && DropCarriageReturn(lines[i]) == lines[i] {
      if 2 <= i < |lines| - 1 {
        ParseWrittenLine(env[i - 2]);
      }
    }
    forall l | l in lines ensures '\n' !in l {
      var i :| 0 <= i < |lines| && lines[i] == l;
    }
    SplitJoin(lines, '\n');
  }

  /** Writer and reader undo each other on exactly the maps the reader can return. */
  lemma RoundTripIff(env: Env)
    ensures Parse(Some(Serialize(env))) == env <==> Unique(env, Exact) && AllStorable(env)
  {
    if Unique(env, Exact) && AllStorable(env) {
      LinesOfSerialized(env);
      CommentShape();
      ParseFileLines(COMMENT, env);
    }
    ParsedIsStorable(Some(Serialize(env)));
  }
}
