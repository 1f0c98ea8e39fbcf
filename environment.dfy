/** The `.env` reader of packages/trs/src/lib/environment.js: `parseEnvFile` and the merge
    of per-file results in `readEnvFiles`. Reading the files is I/O: a file's content is a
    parameter, `None` for a file that cannot be read. */
module Environment {
  import opened Strings

  type Env = map<string, string>

  /** The separators of `/\n|\r/u`: each of the two characters splits on its own. */
  const NewlineChars: set<char> := {'\n', '\r'}

  function Lines(str: string): seq<string> {
    Split(str, NewlineChars)
  }

  /** What one line does to the parse. */
  datatype LineAction = Stop | Skip | Entry(key: string, value: string)

  /** One matching pair of surrounding double or single quotes is removed; a value that is
      a lone quote character counts as starting and ending with it and becomes empty. */
  function Unquote(value: string): string {
    if (StartsWith(value, "\"") && EndsWith(value, "\""))
       || (StartsWith(value, "'") && EndsWith(value, "'"))
    then (if |value| >= 2 then value[1..|value| - 1] else "")
    else value
  }

  /** Assigning a string to `env.__proto__` on a plain object changes nothing. */
  function Assign(env: Env, key: string, value: string): Env {
    if key == "__proto__" then env else env[key := value]
  }

  /** The body of the loop of `parseEnvFile` (environment.js:21-43), for one line. */
  function ParseLine(line: string): LineAction {
    var ln := Trim(line);
    if ln == [] then Stop
    else if StartsWith(ln, "#") then Skip
    else
      var parts := Split(ln, {'='});
      var key := parts[0];
      if key != [] && |parts| > 1 then Entry(Trim(key), Unquote(Trim(Join(parts[1..], "="))))
      else Skip
  }

  /** The effect of the lines on `env`, from the first line on. */
  function ParseLines(lines: seq<string>, env: Env): Env {
    if lines == [] then env
    else match ParseLine(lines[0])
         case Stop => env
         case Skip => ParseLines(lines[1..], env)
         case Entry(k, v) => ParseLines(lines[1..], Assign(env, k, v))
  }

  function ParseEnv(str: string): Env {
    ParseLines(Lines(str), map[])
  }

  /** `parseEnvFile(str)` (environment.js:16-47). */
  method ParseEnvFile(str: string) returns (env: Env)
    ensures env == ParseEnv(str)
  {
    var lines := Lines(str);
    env := map[];
    var i := 0;
    while i < |lines|
      invariant 0 <= i <= |lines|
      invariant ParseLines(lines[i..], env) == ParseEnv(str)
    {
      assert lines[i..][0] == lines[i] && lines[i..][1..] == lines[i + 1..];
      var ln := Trim(lines[i]);
      if ln == [] {
        break;
      }
      if StartsWith(ln, "#") {
        i := i + 1;
        continue;
      }
      var parts := Split(ln, {'='});
      var key, values := parts[0], parts[1..];
      if key != [] && |values| > 0 {
        var trimmed := Trim(Join(values, "="));
        var value := trimmed;
        if StartsWith(value, "\"") && EndsWith(value, "\"") {
          value := if |value| >= 2 then value[1..|value| - 1] else "";
        } else if StartsWith(value, "'") && EndsWith(value, "'") {
          value := if |value| >= 2 then value[1..|value| - 1] else "";
        }
        assert value == Unquote(trimmed);
        assert ParseLine(lines[i]) == Entry(Trim(key), value);
        env := Assign(env, Trim(key), value);
      } else {
        assert ParseLine(lines[i]) == Skip;
      }
      i := i + 1;
    }
  }

  /** Once a line is blank after trimming, nothing after it contributes. */
  lemma {:induction false} BlankLineStops(pre: seq<string>, blank: string, post: seq<string>, env: Env)
    requires Trim(blank) == []
    ensures ParseLines(pre + [blank] + post, env) == ParseLines(pre, env)
  {
    if pre == [] {
      assert ([blank] + post)[0] == blank;
    } else {
      assert (pre + [blank] + post)[0] == pre[0];
      assert (pre + [blank] + post)[1..] == pre[1..] + [blank] + post;
      match ParseLine(pre[0])
      case Stop =>
      case Skip => BlankLineStops(pre[1..], blank, post, env);
      case Entry(k, v) => BlankLineStops(pre[1..], blank, post, Assign(env, k, v));
    }
  }

  /** A CRLF file is read up to its first line break only: the `\r` and the `\n` split
      separately and leave an empty line between them. */
  lemma CrlfStopsAfterFirstLine(first: string, rest: string)
    requires NoneIn(first, NewlineChars)
    ensures ParseEnv(first + "\r\n" + rest) == ParseLines([first], map[])
  {
    assert first + "\r\n" + rest == first + ['\r'] + ("" + ['\n'] + rest);
    SplitAtSep(first, '\r', "" + ['\n'] + rest, NewlineChars);
    SplitAtSep("", '\n', rest, NewlineChars);
    assert Lines(first + "\r\n" + rest) == [first] + [""] + Lines(rest);
    assert Trim("") == [];
    BlankLineStops([first], "", Lines(rest), map[]);
  }

  /** Comment lines are skipped. */
  lemma CommentIsSkipped(line: string)
    requires StartsWith(Trim(line), "#")
    ensures ParseLine(line) == Skip
  {
  }

  /** A non-blank line without `=` is skipped, and so is one whose key is empty. */
  lemma LineWithoutKeyIsSkipped(line: string)
    requires Trim(line) != []
    requires NoneIn(Trim(line), {'='}) || Trim(line)[0] == '='
    ensures ParseLine(line) == Skip
  {
    var ln := Trim(line);
    if NoneIn(ln, {'='}) {
      SplitNoSep(ln, {'='});
    } else {
      assert ln == [] + ['='] + ln[1..];
      SplitAtSep([], '=', ln[1..], {'='});
    }
  }

  /** An entry line `key=value`: the key is the trimmed text before the first `=`, the value
      everything after it (further `=` included), trimmed and unquoted. `Bob=` gives the
      empty value. */
  lemma EntryLine(line: string, key: string, value: string)
    requires Trim(line) == key + "=" + value
    requires key != [] && key[0] != '#' && NoneIn(key, {'='})
    ensures ParseLine(line) == Entry(Trim(key), Unquote(Trim(value)))
  {
    var ln := Trim(line);
    assert ln == key + ['='] + value;
    SplitAtSep(key, '=', value, {'='});
    var parts := Split(ln, {'='});
    assert parts[0] == key && parts[1..] == Split(value, {'='});
    JoinSplit(value, '=');
    assert ln[0] == key[0];
  }

  /** Exactly one matching pair of quotes is removed; nothing inside is unescaped. */
  lemma UnquotePairs(inner: string)
    ensures Unquote("\"" + inner + "\"") == inner
    ensures Unquote("'" + inner + "'") == inner
  {
    var d := "\"" + inner + "\"";
    var q := "'" + inner + "'";
    assert d[1..|d| - 1] == inner && d[..1] == "\"" && d[|d| - 1..] == "\"";
    assert q[1..|q| - 1] == inner && q[..1] == "'" && q[|q| - 1..] == "'";
  }

  /** A value with quotes that do not match is kept as it is. */
  lemma UnquoteMismatched(value: string)
    requires |value| >= 2
    requires (value[0] == '"' && value[|value| - 1] == '\'') || (value[0] == '\'' && value[|value| - 1] == '"')
    ensures Unquote(value) == value
  {
  }

  /** The parse of a line in front of others. */
  lemma ParseLinesCons(line: string, rest: seq<string>, env: Env)
    ensures ParseLines([line] + rest, env) == match ParseLine(line)
      case Stop => env
      case Skip => ParseLines(rest, env)
      case Entry(k, v) => ParseLines(rest, Assign(env, k, v))
  {
    assert ([line] + rest)[0] == line && ([line] + rest)[1..] == rest;
  }

  /** Of two entries with the same key, the later one wins. */
  lemma LaterEntryWins(l1: string, l2: string, env: Env)
    requires ParseLine(l1).Entry? && ParseLine(l2).Entry?
    requires ParseLine(l1).key == ParseLine(l2).key != "__proto__"
    ensures ParseLines([l1, l2], env) == env[ParseLine(l2).key := ParseLine(l2).value]
  {
    var a1, a2 := ParseLine(l1), ParseLine(l2);
    var env1 := Assign(env, a1.key, a1.value);
    assert [l1, l2] == [l1] + [l2] && [l2] == [l2] + [];
    ParseLinesCons(l1, [l2], env);
    ParseLinesCons(l2, [], env1);
    assert env1[a2.key := a2.value] == env[a2.key := a2.value];
  }

  /** A key that the format can carry: non-empty, no surrounding whitespace, no `=`, no line
      break, not a comment, and not the ignored `__proto__`. */
  predicate SimpleKey(k: string) {
    && k != [] && k[0] != '#' && !IsJsWhitespace(k[0]) && !IsJsWhitespace(k[|k| - 1])
    && NoneIn(k, {'='}) && NoneIn(k, NewlineChars) && k != "__proto__"
  }

  /** The line `KEY="value"` that writes one entry. */
  function QuotedLine(k: string, v: string): string {
    k + "=" + "\"" + v + "\""
  }

  function QuotedLines(entries: seq<(string, string)>): seq<string> {
    if entries == [] then [] else [QuotedLine(entries[0].0, entries[0].1)] + QuotedLines(entries[1..])
  }

  /** The map built by assigning the entries in order. */
  function AssignAll(env: Env, entries: seq<(string, string)>): Env
    decreases |entries|
  {
    if entries == [] then env else AssignAll(env[entries[0].0 := entries[0].1], entries[1..])
  }

  /** Writing entries as double-quoted lines joined by `\n` and parsing the text gives the
      entries back, later duplicates winning; values may hold `=`, quotes and surrounding
      spaces, but no line break. */
  lemma RoundTrip(entries: seq<(string, string)>)
    requires forall i | 0 <= i < |entries| :: SimpleKey(entries[i].0) && NoneIn(entries[i].1, NewlineChars)
    ensures ParseEnv(Join(QuotedLines(entries), "\n")) == AssignAll(map[], entries)
  {
    var lines := QuotedLines(entries);
    QuotedLinesShape(entries);
    if entries == [] {
      assert Lines("") == [""];
    } else {
      SplitJoin(lines, '\n', NewlineChars);
      ParseQuotedLines(entries, map[]);
    }
  }

  lemma {:induction false} QuotedLinesShape(entries: seq<(string, string)>)
    requires forall i | 0 <= i < |entries| :: SimpleKey(entries[i].0) && NoneIn(entries[i].1, NewlineChars)
    ensures |QuotedLines(entries)| == |entries|
    ensures forall i | 0 <= i < |entries| ::
      QuotedLines(entries)[i] == QuotedLine(entries[i].0, entries[i].1)
      && NoneIn(QuotedLines(entries)[i], NewlineChars)
  {
    if entries != [] {
      QuotedLinesShape(entries[1..]);
      var k, v := entries[0].0, entries[0].1;
      var l := QuotedLine(k, v);
      forall j | 0 <= j < |l|
        ensures l[j] !in NewlineChars
      {
        if j < |k| { assert l[j] == k[j]; }
        else if |k| + 2 <= j < |l| - 1 { assert l[j] == v[j - |k| - 2]; }
      }
    }
  }

  /** One quoted line parses to its entry. */
  lemma QuotedLineParses(k: string, v: string)
    requires SimpleKey(k)
    ensures ParseLine(QuotedLine(k, v)) == Entry(k, v)
  {
    var l := QuotedLine(k, v);
    var value := "\"" + v + "\"";
    assert l == k + "=" + value;
    TrimNoop(l);
    TrimNoop(value);
    TrimNoop(k);
    EntryLine(l, k, value);
    UnquotePairs(v);
  }

  lemma {:induction false} ParseQuotedLines(entries: seq<(string, string)>, env: Env)
    requires forall i | 0 <= i < |entries| :: SimpleKey(entries[i].0) && NoneIn(entries[i].1, NewlineChars)
    ensures ParseLines(QuotedLines(entries), env) == AssignAll(env, entries)
  {
    if entries != [] {
      QuotedLineParses(entries[0].0, entries[0].1);
      ParseQuotedLines(entries[1..], env[entries[0].0 := entries[0].1]);
    }
  }

  /** `Object.assign` of every per-file map into `{}`, in list order (environment.js:77). */
  function MergeAll(envs: seq<Env>): Env {
    if envs == [] then map[] else MergeAll(envs[..|envs| - 1]) + envs[|envs| - 1]
  }

  /** `readEnvFiles` (environment.js:56-78) with the file contents given in list order;
      a file that cannot be read contributes `{}`. */
  method ReadEnvFiles(contents: seq<Option<string>>) returns (env: Env)
    ensures env == MergeAll(FileEnvs(contents))
  {
    var envs: seq<Env> := [];
    for i := 0 to |contents|
      invariant envs == FileEnvs(contents[..i])
    {
      var parsed: Env := map[];
      if contents[i].Some? {
        parsed := ParseEnvFile(contents[i].value);
      }
      envs := envs + [parsed];
      assert contents[..i + 1][..i] == contents[..i];
    }
    assert contents[..|contents|] == contents;
    env := map[];
    for i := 0 to |envs|
      invariant env == MergeAll(envs[..i])
    {
      env := env + envs[i];
      assert envs[..i + 1][..i] == envs[..i];
    }
    assert envs[..|envs|] == envs;
  }

  /** The per-file maps, `{}` for an unreadable file. */
  function FileEnvs(contents: seq<Option<string>>): (r: seq<Env>)
    ensures |r| == |contents|
  {
    if contents == [] then []
    else FileEnvs(contents[..|contents| - 1])
         + [match contents[|contents| - 1] case Some(c) => ParseEnv(c) case None => map[]]
  }

  /** A key is in the merged map iff some file defines it, and its value comes from the last
      file that does. */
  lemma {:induction false} MergeAllLastWins(envs: seq<Env>, k: string)
    ensures k in MergeAll(envs) <==> exists i | 0 <= i < |envs| :: k in envs[i]
    ensures forall j | 0 <= j < |envs| && k in envs[j] && (forall i | j < i < |envs| :: k !in envs[i]) ::
      MergeAll(envs)[k] == envs[j][k]
  {
    if envs != [] {
      var n := |envs| - 1;
      var init := envs[..n];
      MergeAllLastWins(init, k);
      assert forall i | 0 <= i < n :: init[i] == envs[i];
      if k !in envs[n] {
        forall j | 0 <= j < |envs| && k in envs[j] && (forall i | j < i < |envs| :: k !in envs[i])
          ensures MergeAll(envs)[k] == envs[j][k]
        {
          assert j < n;
          assert init[j] == envs[j];
        }
      }
    }
  }
}
