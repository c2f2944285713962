/**
 * The sync action: read the configured interpreter and data-preparation
 * script, run the script in the repository, and when it succeeds issue
 * `git add`, `git commit` and `git push`, logging what each produced.
 *
 * Processes are not run here: the outcome of every spawn is an input, and the
 * action returns the effects it performs, in order.
 */
module Sync {
  import opened Wrappers
  import opened LogFormat

  /** The environment variable holding "<interpreter>;<script>". */
  const ScriptPathVariable: string := "CDN_REPO_SYNC_FILES_SCRIPT_PATH"

  // The messages given to `expect` for the panics of the action: an unset variable,
  // a value with no ';' (an `Option`, so the message is shown alone), a script that cannot be spawned.
  const NotSetMessage: string := "CDN_REPO_SYNC_FILES_SCRIPT_PATH environment variable not set"
  const MissingScriptMessage: string := "Missing script path"
  const ScriptSpawnMessage: string := "Failed to execute Python script"

  // ---------------------------------------------------------------------------
  // Reading the configuration

  /** The prefix before the first `sep`, and the rest after it if there is one (Rust's `splitn(2, sep)`). */
  function SplitOnce(s: string, sep: char): (parts: (string, Option<string>))
    ensures sep !in parts.0
    ensures parts.1.None? <==> sep !in s
    ensures parts.1.None? ==> parts.0 == s
    ensures parts.1.Some? ==> s == parts.0 + [sep] + parts.1.value
  {
    if s == [] then ([], None)
    else if s[0] == sep then ([], Some(s[1..]))
    else
      var rest := SplitOnce(s[1..], sep);
      ([s[0]] + rest.0, rest.1)
  }

  /** `s` with every `c` removed (Rust's `replace(c, "")`). */
  function Without(s: string, c: char): (r: string)
    ensures c !in r
    ensures c !in s ==> r == s
    ensures forall x :: x in r ==> x in s
  {
    if s == [] then []
    else if s[0] == c then Without(s[1..], c)
    else [s[0]] + Without(s[1..], c)
  }

  /** `s` with every `from` turned into `to`. */
  function ReplaceChar(s: string, from: char, to: char): (r: string)
    ensures |r| == |s|
    ensures forall i :: 0 <= i < |s| ==> r[i] == if s[i] == from then to else s[i]
  {
    if s == [] then [] else [if s[0] == from then to else s[0]] + ReplaceChar(s[1..], from, to)
  }

  /** The interpreter to run and the script to run it on. */
  datatype Config = Config(interpreter: string, script: string)

  /**
   * The configuration from the variable's value: the interpreter is what comes
   * before the first ';' with the quotes removed; the script is the rest with
   * the quotes removed and backslashes turned into forward slashes. A value
   * with no ';' has no script path.
   */
  function ParseConfig(value: string): (c: Option<Config>)
    ensures c.None? <==> ';' !in value
    ensures c.Some? ==> ';' !in c.value.interpreter && '"' !in c.value.interpreter
    ensures c.Some? ==> '"' !in c.value.script && '\\' !in c.value.script
  {
    var (python, rest) := SplitOnce(value, ';');
    if rest.None? then None
    else
      var script := ReplaceChar(Without(rest.value, '"'), '\\', '/');
      assert forall i :: 0 <= i < |script| ==> script[i] != '\\';
      Some(Config(Without(python, '"'), script))
  }

  /** The variable's value that names a configuration directly. */
  function Render(c: Config): string {
    c.interpreter + ";" + c.script
  }

  /** A configuration that parsing leaves as it is. */
  predicate Plain(c: Config) {
    ';' !in c.interpreter && '"' !in c.interpreter && '"' !in c.script && '\\' !in c.script
  }

  lemma ReplaceCharAbsent(s: string, from: char, to: char)
    requires from !in s
    ensures ReplaceChar(s, from, to) == s
  {
  }

  /** Parsing gives back the configuration a plain value was written from. */
  lemma ParseConfigRoundTrip(c: Config)
    requires Plain(c)
    ensures ParseConfig(Render(c)) == Some(c)
  {
    var value := Render(c);
    var parts := SplitOnce(value, ';');
    assert value == c.interpreter + [';'] + c.script;
    SplitOnceUnique(value, ';', c.interpreter, c.script);
    ReplaceCharAbsent(c.script, '\\', '/');
  }

  /** Writing out what parsed from a value free of quotes and backslashes gives the value back. */
  lemma RenderParsed(value: string)
    requires ';' in value && '"' !in value && '\\' !in value
    ensures ParseConfig(value).Some? && Render(ParseConfig(value).value) == value
  {
    var parts := SplitOnce(value, ';');
    assert '"' !in parts.0 && '"' !in parts.1.value && '\\' !in parts.1.value by {
      assert value == parts.0 + [';'] + parts.1.value;
      forall i | 0 <= i < |parts.1.value| ensures parts.1.value[i] == value[|parts.0| + 1 + i] { }
    }
    ReplaceCharAbsent(parts.1.value, '\\', '/');
  }

  /** Removing a character works piece by piece: the other characters stay, in order. */
  lemma {:induction false} WithoutAppend(a: string, b: string, c: char)
    ensures Without(a + b, c) == Without(a, c) + Without(b, c)
    decreases |a|
  {
    if a == [] {
      assert a + b == b;
    } else {
      assert (a + b)[0] == a[0] && (a + b)[1..] == a[1..] + b;
      WithoutAppend(a[1..], b, c);
    }
  }

  /** On one character, removal drops it exactly when it is the removed one. */
  lemma WithoutOne(x: char, c: char)
    ensures Without([x], c) == if x == c then [] else [x]
  {
    assert [x][1..] == [];
  }

  /**
   * What any value with a ';' parses to: the interpreter is the part before the
   * first ';' with the quotes removed, the script is the part after it with the
   * quotes removed and every backslash turned into a slash.
   */
  lemma ParseConfigContent(head: string, tail: string)
    requires ';' !in head
    ensures ParseConfig(head + ";" + tail) ==
      Some(Config(Without(head, '"'), ReplaceChar(Without(tail, '"'), '\\', '/')))
  {
    assert head + ";" + tail == head + [';'] + tail;
    SplitOnceUnique(head + ";" + tail, ';', head, tail);
  }

  /**
   * A quoted value in the usual Windows form: the interpreter's own
   * backslashes stay, the script's backslash becomes a slash.
   */
  lemma QuotedWindowsValue(interpreter: string, dir: string, file: string)
    requires '"' !in interpreter && ';' !in interpreter
    requires '"' !in dir && '\\' !in dir && '"' !in file && '\\' !in file
    ensures ParseConfig(("\"" + interpreter + "\"") + ";" + ("\"" + (dir + "\\" + file) + "\"")) ==
      Some(Config(interpreter, dir + "/" + file))
  {
    Unquote(interpreter);
    SlashedScript(dir, file);
    ParseConfigContent("\"" + interpreter + "\"", "\"" + (dir + "\\" + file) + "\"");
  }

  /** The script part of such a value: quotes gone, the backslash turned into a slash. */
  lemma SlashedScript(dir: string, file: string)
    requires '"' !in dir && '\\' !in dir && '"' !in file && '\\' !in file
    ensures ReplaceChar(Without("\"" + (dir + "\\" + file) + "\"", '"'), '\\', '/') == dir + "/" + file
  {
    var script := dir + "\\" + file;
    assert '"' !in script;
    Unquote(script);
    ReplaceCharAppend(dir + "\\", file, '\\', '/');
    ReplaceCharAppend(dir, "\\", '\\', '/');
    ReplaceCharAbsent(dir, '\\', '/');
    ReplaceCharAbsent(file, '\\', '/');
    assert ReplaceChar("\\", '\\', '/') == "/";
  }

  lemma ReplaceCharAppend(a: string, b: string, from: char, to: char)
    ensures ReplaceChar(a + b, from, to) == ReplaceChar(a, from, to) + ReplaceChar(b, from, to)
  {
    var r, ra, rb := ReplaceChar(a + b, from, to), ReplaceChar(a, from, to), ReplaceChar(b, from, to);
    assert |r| == |ra + rb|;
    forall i | 0 <= i < |r| ensures r[i] == (ra + rb)[i] {
      if i < |a| { assert (a + b)[i] == a[i]; } else { assert (a + b)[i] == b[i - |a|]; }
    }
  }

  /** Removing the quotes around a quote-free text gives the text. */
  lemma Unquote(p: string)
    requires '"' !in p
    ensures Without("\"" + p + "\"", '"') == p
  {
    WithoutAppend("\"" + p, "\"", '"');
    WithoutAppend("\"", p, '"');
    WithoutOne('"', '"');
  }

  /** The split at the first separator is the only one whose prefix has no separator. */
  lemma {:induction false} SplitOnceUnique(s: string, sep: char, head: string, tail: string)
    requires s == head + [sep] + tail && sep !in head
    ensures SplitOnce(s, sep) == (head, Some(tail))
    decreases |head|
  {
    if head == [] {
      assert s[0] == sep && s[1..] == tail;
    } else {
      assert s[0] == head[0] != sep;
      assert s[1..] == head[1..] + [sep] + tail;
      SplitOnceUnique(s[1..], sep, head[1..], tail);
      assert [s[0]] + head[1..] == head;
    }
  }

  // ---------------------------------------------------------------------------
  // Trimming process output

  /** The characters Unicode calls White_Space, which Rust's `str::trim` removes. */
  predicate IsWhitespace(c: char) {
    ('\U{0009}' <= c <= '\U{000D}') || c == '\U{0020}' || c == '\U{0085}' || c == '\U{00A0}' ||
    c == '\U{1680}' || ('\U{2000}' <= c <= '\U{200A}') || c == '\U{2028}' || c == '\U{2029}' ||
    c == '\U{202F}' || c == '\U{205F}' || c == '\U{3000}'
  }

  function TrimStart(s: string): (r: string)
    ensures |r| <= |s| && r == s[|s| - |r|..]
    ensures forall i :: 0 <= i < |s| - |r| ==> IsWhitespace(s[i])
    ensures r == [] || !IsWhitespace(r[0])
  {
    if s != [] && IsWhitespace(s[0]) then TrimStart(s[1..]) else s
  }

  function TrimEnd(s: string): (r: string)
    ensures |r| <= |s| && r == s[..|r|]
    ensures forall i :: |r| <= i < |s| ==> IsWhitespace(s[i])
    ensures r == [] || !IsWhitespace(r[|r| - 1])
  {
    if s != [] && IsWhitespace(s[|s| - 1]) then TrimEnd(s[..|s| - 1]) else s
  }

  /** Leading and trailing whitespace removed (Rust's `str::trim`). */
  function Trim(s: string): (r: string)
    ensures |r| <= |s|
    ensures r == [] || (!IsWhitespace(r[0]) && !IsWhitespace(r[|r| - 1]))
  {
    TrimEnd(TrimStart(s))
  }

  /** What trimming drops is whitespace at either end; what it keeps is the middle of `s`, in order. */
  lemma TrimKeepsMiddle(s: string)
    ensures var i, r := |s| - |TrimStart(s)|, Trim(s);
      i + |r| <= |s| && r == s[i..i + |r|] &&
      (forall k :: 0 <= k < i ==> IsWhitespace(s[k])) &&
      (forall k :: i + |r| <= k < |s| ==> IsWhitespace(s[k]))
  {
    var t := TrimStart(s);
    var i := |s| - |t|;
    var r := TrimEnd(t);
    assert t == s[i..];
    assert r == t[..|r|];
    forall k | i + |r| <= k < |s| ensures IsWhitespace(s[k]) {
      assert s[k] == t[k - i];
    }
  }

  /** Trimming twice is trimming once. */
  lemma TrimIdempotent(s: string)
    ensures Trim(Trim(s)) == Trim(s)
  {
    var r := Trim(s);
    assert TrimStart(r) == r;
    assert TrimEnd(r) == r;
  }

  // ---------------------------------------------------------------------------
  // Processes and effects

  /** How a process ended: its exit code if it has one, and how Rust displays the status. */
  datatype ExitStatus = ExitStatus(code: Option<int>, shown: string)
  {
    predicate Success() { code == Some(0) }
  }

  /** What a finished process produced, its streams already decoded. */
  datatype Output = Output(status: ExitStatus, stdout: string, stderr: string)

  /**
   * The result of spawning a process and waiting for it; a failure carries
   * the `Debug` rendering of the `io::Error`.
   */
  datatype Spawn = Spawned(output: Output) | SpawnFailed(error: string)

  /** A process to start: program, arguments and working directory (None: the watcher's own). */
  datatype Command = Command(program: string, args: seq<string>, dir: Option<string>)

  /** What the action does, in order: start a process, write a log message, print a console line. */
  datatype Effect = Start(command: Command) | Write(message: string) | Print(line: string)

  /** How the action ended. A panic ends the whole watcher. */
  datatype Outcome = Synced | ScriptFailed | Panicked(message: string)

  /** The panic message of `Result::expect`: the message given, then the error's `Debug` rendering. */
  function ExpectFailed(message: string, error: string): string {
    message + ": " + error
  }

  /** How `Debug` shows the error `std::env::var` returns for a variable that is not set. */
  const NotPresent := "NotPresent"

  function ScriptCommand(repo: string, c: Config): Command {
    Command(c.interpreter, [c.script], Some(repo))
  }

  function CommitMessage(t: DateTime): string {
    "auto: synchronize and update files at " + FormatTimestamp(t)
  }

  function GitAdd(repo: string): Command {
    Command("git", ["-C", repo, "add", "."], None)
  }

  function GitCommit(repo: string, message: string): Command {
    Command("git", ["-C", repo, "commit", "-m", message], None)
  }

  function GitPush(repo: string): Command {
    Command("git", ["-C", repo, "push", "origin", "master"], None)
  }

  /** What is logged of a git step's output: its trimmed stdout, when there is any; never stderr. */
  function ProcessOutputLog(o: Output): (logged: seq<Effect>)
    ensures |logged| <= 1
    ensures logged != [] <==> o.stdout != []
    ensures logged != [] ==> logged[0] == Write(Trim(o.stdout))
  {
    if o.stdout != [] then [Write(Trim(o.stdout))] else []
  }

  /**
   * The log of one git step, written after all three have run: nothing if it
   * could not be spawned, else a header and its output.
   */
  function StepLog(header: string, step: Spawn): seq<Effect> {
    match step
    case SpawnFailed(_) => []
    case Spawned(o) => [Write(header)] + ProcessOutputLog(o)
  }

  function Commands(effects: seq<Effect>): (cs: seq<Command>)
    ensures |cs| <= |effects|
  {
    if effects == [] then []
    else (if effects[0].Start? then [effects[0].command] else []) + Commands(effects[1..])
  }

  function Messages(effects: seq<Effect>): (ms: seq<string>)
    ensures |ms| <= |effects|
  {
    if effects == [] then []
    else (if effects[0].Write? then [effects[0].message] else []) + Messages(effects[1..])
  }

  /** The effects before the script runs: the console line, then the script's start. */
  function ScriptStarted(repo: string, c: Config): seq<Effect> {
    [Print("Running Python script: " + c.script), Start(ScriptCommand(repo, c))]
  }

  /** The three log entries of a failed script: its status and both of its streams. */
  function ScriptFailureLog(o: Output): seq<Effect> {
    [Write("Python script failed with status: " + o.status.shown),
     Write("Python script output: " + o.stdout),
     Write("Python script error output: " + o.stderr)]
  }

  /** The three git commands, in order. */
  function GitStarted(repo: string, now: DateTime): seq<Effect> {
    [Start(GitAdd(repo)), Start(GitCommit(repo, CommitMessage(now))), Start(GitPush(repo))]
  }

  /**
   * One sync. `variable` is the value of the configuration variable, if set;
   * `now` is the local time used in the commit message; the spawn results are
   * what the script and the three git commands returned.
   */
  method RunGit(repo: string, variable: Option<string>, now: DateTime,
                script: Spawn, add: Spawn, commit: Spawn, push: Spawn)
    returns (effects: seq<Effect>, outcome: Outcome)
    ensures variable.None? ==> effects == [] && outcome == Panicked(ExpectFailed(NotSetMessage, NotPresent))
    ensures variable.Some? && ';' !in variable.value ==>
      effects == [] && outcome == Panicked(MissingScriptMessage)
    ensures variable.Some? && ';' in variable.value && script.SpawnFailed? ==>
      effects == ScriptStarted(repo, ParseConfig(variable.value).value) &&
      outcome == Panicked(ExpectFailed(ScriptSpawnMessage, script.error))
    ensures variable.Some? && ';' in variable.value && script.Spawned? && !script.output.status.Success() ==>
      effects == ScriptStarted(repo, ParseConfig(variable.value).value) + ScriptFailureLog(script.output) &&
      outcome == ScriptFailed
    ensures variable.Some? && ';' in variable.value && script.Spawned? && script.output.status.Success() ==>
      effects == ScriptStarted(repo, ParseConfig(variable.value).value) + GitStarted(repo, now) +
        StepLog("--- git add ---", add) + StepLog("--- git commit ---", commit) + StepLog("--- git push ---", push) &&
      outcome == Synced
  {
    if variable.None? {
      return [], Panicked(ExpectFailed(NotSetMessage, NotPresent));
    }
    var config := ParseConfig(variable.value);
    if config.None? {
      return [], Panicked(MissingScriptMessage);
    }
    var c := config.value;
    effects := [Print("Running Python script: " + c.script)];
    effects := effects + [Start(ScriptCommand(repo, c))];
    assert effects == ScriptStarted(repo, c);
    if script.SpawnFailed? {
      return effects, Panicked(ExpectFailed(ScriptSpawnMessage, script.error));
    }
    var output := script.output;
    if !output.status.Success() {
      effects := effects + [Write("Python script failed with status: " + output.status.shown)];
      effects := effects + [Write("Python script output: " + output.stdout)];
      effects := effects + [Write("Python script error output: " + output.stderr)];
      assert effects == ScriptStarted(repo, c) + ScriptFailureLog(output);
      return effects, ScriptFailed;
    }
    var message := CommitMessage(now);
    effects := effects + [Start(GitAdd(repo))];
    effects := effects + [Start(GitCommit(repo, message))];
    effects := effects + [Start(GitPush(repo))];
    assert effects == ScriptStarted(repo, c) + GitStarted(repo, now);
    effects := effects + StepLog("--- git add ---", add);
    effects := effects + StepLog("--- git commit ---", commit);
    effects := effects + StepLog("--- git push ---", push);
    outcome := Synced;
  }
  // ---------------------------------------------------------------------------
  // What a sync issues and logs, read back from its effects

  lemma {:induction false} CommandsAppend(a: seq<Effect>, b: seq<Effect>)
    ensures Commands(a + b) == Commands(a) + Commands(b)
  {
    if a == [] {
      assert a + b == b;
    } else {
      var ab := a + b;
      assert ab[0] == a[0] && ab[1..] == a[1..] + b;
      CommandsAppend(a[1..], b);
      var head := if a[0].Start? then [a[0].command] else [];
      assert Commands(ab) == head + (Commands(a[1..]) + Commands(b));
      assert head + (Commands(a[1..]) + Commands(b)) == (head + Commands(a[1..])) + Commands(b);
    }
  }

  lemma {:induction false} MessagesAppend(a: seq<Effect>, b: seq<Effect>)
    ensures Messages(a + b) == Messages(a) + Messages(b)
  {
    if a == [] {
      assert a + b == b;
    } else {
      var ab := a + b;
      assert ab[0] == a[0] && ab[1..] == a[1..] + b;
      MessagesAppend(a[1..], b);
      var head := if a[0].Write? then [a[0].message] else [];
      assert Messages(ab) == head + (Messages(a[1..]) + Messages(b));
      assert head + (Messages(a[1..]) + Messages(b)) == (head + Messages(a[1..])) + Messages(b);
    }
  }

  /** Reading back commands and messages distributes over concatenation. */
  lemma ReadBackAppend(a: seq<Effect>, b: seq<Effect>)
    ensures Commands(a + b) == Commands(a) + Commands(b)
    ensures Messages(a + b) == Messages(a) + Messages(b)
  {
    CommandsAppend(a, b);
    MessagesAppend(a, b);
  }

  lemma ReadBackOne(e: Effect)
    ensures Commands([e]) == (if e.Start? then [e.command] else [])
    ensures Messages([e]) == (if e.Write? then [e.message] else [])
  {
    assert [e][1..] == [];
  }

  /** Logging a git step never starts a process. */
  lemma StepLogStartsNothing(header: string, step: Spawn)
    ensures Commands(StepLog(header, step)) == []
  {
    if step.Spawned? {
      ReadBackOne(Write(header));
      if step.output.stdout != [] {
        ReadBackOne(Write(Trim(step.output.stdout)));
        ReadBackAppend([Write(header)], [Write(Trim(step.output.stdout))]);
      }
    }
  }

  /** A git step's header, then its trimmed stdout if there is any, are written only when the step was spawned. */
  lemma StepLogWrites(header: string, step: Spawn)
    ensures step.SpawnFailed? ==> Messages(StepLog(header, step)) == []
    ensures step.Spawned? && step.output.stdout == [] ==> Messages(StepLog(header, step)) == [header]
    ensures step.Spawned? && step.output.stdout != [] ==>
      Messages(StepLog(header, step)) == [header, Trim(step.output.stdout)]
  {
    if step.Spawned? {
      ReadBackOne(Write(header));
      if step.output.stdout != [] {
        ReadBackOne(Write(Trim(step.output.stdout)));
        ReadBackAppend([Write(header)], [Write(Trim(step.output.stdout))]);
      }
    }
  }

  /** Reading back five effects one by one. */
  lemma ReadBackFive(e1: Effect, e2: Effect, e3: Effect, e4: Effect, e5: Effect)
    ensures Commands([e1, e2, e3, e4, e5]) ==
      Commands([e1]) + (Commands([e2]) + (Commands([e3]) + (Commands([e4]) + Commands([e5]))))
    ensures Messages([e1, e2, e3, e4, e5]) ==
      Messages([e1]) + (Messages([e2]) + (Messages([e3]) + (Messages([e4]) + Messages([e5]))))
  {
    ReadBackAppend([e4], [e5]);
    assert [e4] + [e5] == [e4, e5];
    ReadBackAppend([e3], [e4, e5]);
    assert [e3] + [e4, e5] == [e3, e4, e5];
    ReadBackAppend([e2], [e3, e4, e5]);
    assert [e2] + [e3, e4, e5] == [e2, e3, e4, e5];
    ReadBackAppend([e1], [e2, e3, e4, e5]);
    assert [e1] + [e2, e3, e4, e5] == [e1, e2, e3, e4, e5];
  }

  /** A failed script issues no git command and writes exactly its three diagnostics. */
  lemma ScriptFailureIssuesNoGit(repo: string, c: Config, o: Output)
    ensures Commands(ScriptStarted(repo, c) + ScriptFailureLog(o)) == [ScriptCommand(repo, c)]
    ensures Messages(ScriptStarted(repo, c) + ScriptFailureLog(o)) ==
      ["Python script failed with status: " + o.status.shown,
       "Python script output: " + o.stdout,
       "Python script error output: " + o.stderr]
  {
    var e := ScriptStarted(repo, c) + ScriptFailureLog(o);
    assert e == [e[0], e[1], e[2], e[3], e[4]];
    ReadBackFive(e[0], e[1], e[2], e[3], e[4]);
    ReadBackOne(e[0]);
    ReadBackOne(e[1]);
    ReadBackOne(e[2]);
    ReadBackOne(e[3]);
    ReadBackOne(e[4]);
  }

  /** Before any step is logged, a successful script is followed by git add, commit and push, in that order. */
  lemma GitCommandsInOrder(repo: string, c: Config, now: DateTime)
    ensures Commands(ScriptStarted(repo, c) + GitStarted(repo, now)) ==
      [ScriptCommand(repo, c), GitAdd(repo), GitCommit(repo, CommitMessage(now)), GitPush(repo)]
    ensures Messages(ScriptStarted(repo, c) + GitStarted(repo, now)) == []
  {
    var e := ScriptStarted(repo, c) + GitStarted(repo, now);
    assert e == [e[0], e[1], e[2], e[3], e[4]];
    ReadBackFive(e[0], e[1], e[2], e[3], e[4]);
    ReadBackOne(e[0]);
    ReadBackOne(e[1]);
    ReadBackOne(e[2]);
    ReadBackOne(e[3]);
    ReadBackOne(e[4]);
  }

  /**
   * After a successful script the commands are the script, then git add,
   * commit and push, in that order, and the log holds the three steps' entries in order.
   */
  lemma GitStepsInOrder(repo: string, c: Config, now: DateTime, add: Spawn, commit: Spawn, push: Spawn)
    ensures var e := ScriptStarted(repo, c) + GitStarted(repo, now) +
        StepLog("--- git add ---", add) + StepLog("--- git commit ---", commit) + StepLog("--- git push ---", push);
      Commands(e) == [ScriptCommand(repo, c), GitAdd(repo), GitCommit(repo, CommitMessage(now)), GitPush(repo)] &&
      Messages(e) == Messages(StepLog("--- git add ---", add)) + Messages(StepLog("--- git commit ---", commit)) +
        Messages(StepLog("--- git push ---", push))
  {
    var sg := ScriptStarted(repo, c) + GitStarted(repo, now);
    var a, m, p := StepLog("--- git add ---", add), StepLog("--- git commit ---", commit), StepLog("--- git push ---", push);
    GitCommandsInOrder(repo, c, now);
    StepLogStartsNothing("--- git add ---", add);
    StepLogStartsNothing("--- git commit ---", commit);
    StepLogStartsNothing("--- git push ---", push);
    ReadBackAppend(sg, a);
    assert Commands(sg + a) == Commands(sg) && Messages(sg + a) == Messages(a);
    ReadBackAppend(sg + a, m);
    assert Commands(sg + a + m) == Commands(sg) && Messages(sg + a + m) == Messages(a) + Messages(m);
    ReadBackAppend(sg + a + m, p);
  }

  /** The commit message ends with the sync's local time, which reads back unchanged. */
  lemma CommitMessageCarriesTime(t: DateTime)
    requires t.Valid()
    ensures |CommitMessage(t)| == 57
    ensures ParseTimestamp(CommitMessage(t)[38..]) == Some(t)
  {
    assert CommitMessage(t)[38..] == FormatTimestamp(t);
    TimestampRoundTrip(t);
  }
}
