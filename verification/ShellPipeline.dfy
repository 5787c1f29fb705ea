/** The Pipeline object of waf-tools/shellcmd.py: parse a token list, then run what was parsed. */
module ShellPipeline {
  import opened Prelude
  import opened ShellSyntax
  import opened Seqs
  import P = ShellParse
  import R = ShellRun
  import Resources = ShellResources

  // ------------------------------------------------------------------------------ parse

  lemma {:induction false} OnceFailedAlwaysFailed(tokens: seq<string>, k: nat)
    requires k <= |tokens| && P.RunMachine(tokens[..k]).None?
    ensures P.RunMachine(tokens).None?
    decreases |tokens|
  {
    if k < |tokens| {
      var init := tokens[..|tokens| - 1];
      assert init[..k] == tokens[..k];
      OnceFailedAlwaysFailed(init, k);
    } else {
      assert tokens[..k] == tokens;
    }
  }

  lemma MachineStep(tokens: seq<string>, k: nat)
    requires k < |tokens| && P.RunMachine(tokens[..k]).Some?
    ensures P.RunMachine(tokens[..k + 1]) == P.Advance(P.RunMachine(tokens[..k]).value, tokens[k])
  {
    assert tokens[..k + 1][..k] == tokens[..k];
  }

  class Pipeline {
    var currentCommand: Option<Node>
    var pipeline: seq<Node>

    constructor ()
      ensures currentCommand == None && pipeline == []
    {
      currentCommand, pipeline := None, [];
    }

    /** The state of the parser, as one value. */
    ghost function State(mode: P.Mode, envVars: map<string, string>): P.Machine
      reads this
    {
      P.Machine(mode, currentCommand, pipeline, envVars)
    }

    method CommitCommand()
      requires currentCommand.Some?
      modifies this
      ensures pipeline == old(pipeline) + [old(currentCommand).value] && currentCommand == None
    {
      pipeline := pipeline + [currentCommand.value];
      currentCommand := None;
    }

    /** Commit, and append the operator that ended the command. */
    method CommitWith(op: Node)
      requires currentCommand.Some?
      modifies this
      ensures pipeline == old(pipeline) + [old(currentCommand).value, op] && currentCommand == None
    {
      ghost var node := currentCommand.value;
      CommitCommand();
      pipeline := pipeline + [op];
      assert [node] + [op] == [node, op];
      Assoc(old(pipeline), [node], [op]);
    }

    /** Lines 139-153. */
    method AtBegin(token: string, env: map<string, string>)
      returns (ok: bool, mode: P.Mode, envVars: map<string, string>)
      modifies this
      ensures P.AtBegin(old(State(P.BEGIN, env)), token) == if ok then Some(State(mode, envVars)) else None
    {
      ok, mode, envVars := true, P.BEGIN, env;
      var envVarMatch := EnvMatch(token);
      if envVarMatch.Some? {
        envVars := env[envVarMatch.value.0 := envVarMatch.value.1];
      } else {
        if currentCommand.Some? {
          return false, mode, envVars;
        }
        if token == "cd" {
          currentCommand := Some(Chdir(None));
          if env != map[] {
            return false, mode, envVars;
          }
          mode := P.CHDIR;
        } else {
          var commandEnv := None;
          if env != map[] {
            commandEnv := Some(env);
            envVars := map[];
          }
          currentCommand := Some(Command([token], None, Inherit, Inherit, commandEnv));
          mode := P.COMMAND;
        }
      }
    }

    /** Lines 155-179. */
    method AfterName(token: string, ghost env: map<string, string>) returns (ok: bool, mode: P.Mode)
      requires currentCommand.Some? && currentCommand.value.Command?
      modifies this
      ensures P.AfterName(old(State(P.COMMAND, env)), old(currentCommand).value, token)
        == if ok then Some(State(mode, env)) else None
    {
      ok, mode := true, P.COMMAND;
      var c := currentCommand.value;
      match MeaningOf(token)
      case ToStdout => mode := P.STDOUT_FILE;
      case ToStderr => mode := P.STDERR_FILE;
      case ErrToOut =>
        if c.stderr != Inherit {
          return false, mode;
        }
        currentCommand := Some(c.(stderr := STDOUT));
      case FromStdin => mode := P.STDIN_FILE;
      case PipeSign =>
        if c.stdout != Inherit {
          return false, mode;
        }
        currentCommand := Some(c.(stdout := PIPE));
        CommitWith(Pipe);
        mode := P.BEGIN;
      case AndSign =>
        CommitWith(And);
        mode := P.BEGIN;
      case OrSign =>
        CommitWith(Or);
        mode := P.BEGIN;
      case Plain =>
        currentCommand := Some(c.(argv := c.argv + [token]));
    }

    /** Lines 181-187. */
    method AfterCd(token: string, ghost env: map<string, string>) returns (ok: bool, mode: P.Mode)
      requires currentCommand.Some? && currentCommand.value.Chdir?
      modifies this
      ensures P.Advance(old(State(P.CHDIR, env)), token) == if ok then Some(State(mode, env)) else None
    {
      ok, mode := true, P.CHDIR;
      if MeaningOf(token).AndSign? {
        CommitWith(And);
        mode := P.BEGIN;
      } else {
        if currentCommand.value.dir.Some? {
          return false, mode;
        }
        currentCommand := Some(Chdir(Some(token)));
      }
    }

    /** Lines 188-199. */
    method FileName(before: P.Mode, token: string, ghost env: map<string, string>) returns (ok: bool, mode: P.Mode)
      requires currentCommand.Some? && currentCommand.value.Command?
      requires before.STDOUT_FILE? || before.STDERR_FILE? || before.STDIN_FILE?
      modifies this
      ensures P.FileName(old(State(before, env)), old(currentCommand).value, token)
        == if ok then Some(State(mode, env)) else None
    {
      mode := P.COMMAND;
      var c := currentCommand.value;
      if before.STDOUT_FILE? {
        ok := c.stdout == Inherit;
        currentCommand := Some(c.(stdout := File(token)));
      } else if before.STDERR_FILE? {
        ok := c.stderr == Inherit;
        currentCommand := Some(c.(stderr := File(token)));
      } else {
        ok := c.stdin == None;
        currentCommand := Some(c.(stdin := Some(token)));
      }
    }

    /** The mode says what kind of node is being built. */
    ghost predicate Consistent(mode: P.Mode)
      reads this
    {
      match mode
      case BEGIN => currentCommand == None
      case CHDIR => currentCommand.Some? && currentCommand.value.Chdir?
      case _ => currentCommand.Some? && currentCommand.value.Command?
    }

    /** Lines 137-199: one token. */
    method Step(before: P.Mode, token: string, env: map<string, string>)
      returns (ok: bool, mode: P.Mode, envVars: map<string, string>)
      requires Consistent(before)
      modifies this
      ensures P.Advance(old(State(before, env)), token) == if ok then Some(State(mode, envVars)) else None
      ensures ok ==> Consistent(mode)
    {
      envVars := env;
      match before
      case BEGIN => ok, mode, envVars := AtBegin(token, env);
      case COMMAND => ok, mode := AfterName(token, env);
      case CHDIR => ok, mode := AfterCd(token, env);
      case _ => ok, mode := FileName(before, token, env);
    }

    /** The pipeline that the grammar gives the tokens, or an assertion failure if it gives none. */
    method Parse(tokens: seq<string>) returns (r: P.Result)
      modifies this
      ensures r == P.Parse(tokens)
      ensures r.Parsed? ==> pipeline == r.nodes && currentCommand == None && P.WellFormed(pipeline)
    {
      currentCommand, pipeline := None, [];
      var mode, envVars, ok := P.BEGIN, map[], true;
      for i := 0 to |tokens|
        invariant Consistent(mode) && P.RunMachine(tokens[..i]) == Some(State(mode, envVars))
      {
        MachineStep(tokens, i);
        ok, mode, envVars := Step(mode, tokens[i], envVars);
        if !ok {
          OnceFailedAlwaysFailed(tokens, i + 1);
          return P.AssertionError;
        }
      }
      assert tokens[..|tokens|] == tokens;
      if currentCommand.None? {
        return P.AssertionError;
      }
      CommitCommand();
      P.ParsedIsWellFormed(tokens);
      return P.Parsed(pipeline);
    }

    // ------------------------------------------------------------------------------ run

    /** Lines 203-212: wait for the whole group; its status is that of its last process. */
    static method ExecPipedCommands(exits: R.Exits, commands: seq<nat>, os: R.OS) returns (retval: int, after: R.OS)
      ensures after == R.WaitAll(os, commands)
      ensures retval == if commands == [] then 0 else exits(commands[|commands| - 1])
    {
      var retvals: seq<int> := [];
      after := os;
      for i := 0 to |commands|
        invariant R.WaitAll(after, commands[i..]) == R.WaitAll(os, commands)
        invariant |retvals| == i && forall j :: 0 <= j < i ==> retvals[j] == exits(commands[j])
      {
        after := R.Emit(after, R.Wait(commands[i]));
        retvals := retvals + [exits(commands[i])];
        assert commands[i..][1..] == commands[i + 1..];
      }
      retval := 0;
      for j := 0 to |retvals|
        invariant retval == 0 && forall k :: 0 <= k < j ==> retvals[k] == 0
      {
        if retvals[j] != 0 {
          retval := retvals[|retvals| - 1];
          break;
        }
      }
    }

    /** Lines 301-304, and again 316-319 and 334-337. */
    static method CloseFiles(files: seq<R.Handle>, os: R.OS) returns (after: R.OS)
      ensures after == R.CloseAll(os, files)
    {
      after := os;
      for i := 0 to |files|
        invariant R.CloseAll(after, files[i..]) == R.CloseAll(os, files)
      {
        assert files[i..][1..] == files[i + 1..];
        if files[i] != R.DevNull {
          after := R.Emit(after, R.Close(files[i].n));
        }
      }
    }

    /** Lines 252-260, and again 262-274: open the file of an output stream. */
    static method OpenOut(sink: Sink, files: seq<R.Handle>, os: R.OS)
      returns (target: R.Target, files': seq<R.Handle>, os': R.OS)
      ensures target == R.TargetOf(os, sink)
      ensures forall st: R.Run :: st.files == files && st.os == os ==>
        R.OpenSink(st, sink) == st.(files := files', os := os')
    {
      files', os' := files, os;
      match sink
      case Inherit => target := R.Default;
      case PIPE => target := R.ToPipe;
      case STDOUT => target := R.Target.ToStdout;
      case File(name) =>
        var f;
        if name == "NUL:" || name == "/dev/null" {
          f := R.DevNull;
        } else {
          f := R.Opened(os.handles);
          os' := R.OpenNext(os, name, true);
        }
        target, files' := R.ToFile(f), files + [f];
    }

    /** Lines 242-291: open what the command redirects, and start its process. */
    static method StartCommand(cmd: Node, st: R.Run) returns (next: R.Run)
      requires cmd.Command? && (st.inPipe ==> st.piped != [])
      ensures next == R.Start(st, cmd)
    {
      var files, os := st.files, st.os;
      var stdin, stdout, stderr;
      if st.inPipe {
        stdin := R.FromPipe(st.piped[|st.piped| - 1]);
      } else if cmd.stdin.Some? {
        stdin := R.FromFile(R.Opened(os.handles));
        files := files + [R.Opened(os.handles)];
        os := R.OpenNext(os, cmd.stdin.value, false);
      } else {
        stdin := R.Terminal;
      }
      ghost var a := st.(files := files, os := os);
      stdout, files, os := OpenOut(cmd.stdout, files, os);
      ghost var b := a.(files := files, os := os);
      stderr, files, os := OpenOut(cmd.stderr, files, os);
      ghost var d := b.(files := files, os := os);
      assert a == R.OpenStdin(st, cmd.stdin) && b == R.OpenSink(a, cmd.stdout) && d == R.OpenSink(b, cmd.stderr);
      var procCwd := if st.cwd == "." then None else Some(st.cwd);
      var proc := os.pids;
      os := R.Emit(os, R.Spawn(proc, cmd.argv, stdin, stdout, stderr, cmd.envVars, procCwd)).(pids := proc + 1);
      next := st.(files := files, os := os, piped := st.piped + [proc]);
    }

    /** Wait for the current group, then close its files. */
    static method FinishGroup(exits: R.Exits, st: R.Run) returns (retval: int, next: R.Run)
      requires st.piped != []
      ensures retval == exits(st.piped[|st.piped| - 1]) && next == R.Finish(st)
    {
      var os;
      retval, os := ExecPipedCommands(exits, st.piped, st.os);
      os := CloseFiles(st.files, os);
      next := st.(os := os, files := [], piped := [], inPipe := false);
    }

    /**
      Run what was parsed. The status is right-nested short-circuit evaluation of the groups; every
      process is waited for and every file closed exactly once; and each process is started as its
      command says.
    */
    method Run(exits: R.Exits) returns (outcome: R.Outcome, os: R.OS)
      requires P.WellFormed(pipeline)
      ensures R.Alternates(pipeline)
      ensures (outcome, os) == (R.RunFrom(exits, pipeline, R.START).1, R.RunFrom(exits, pipeline, R.START).0.os)
      ensures outcome == R.EvalRight(exits, R.GroupsOf(pipeline, 0))
      ensures outcome.Returned? ==> Resources.Tidy(os)
      ensures Resources.StartsExactly(os.log, R.Started(exits, R.GroupsOf(pipeline, 0)))
      ensures Resources.SpawnsMatch(os.log, Resources.StagesOf(pipeline, ".", false), 0)
    {
      WellFormedAlternates(pipeline);
      RunIsRight(exits, pipeline);
      var nodes, st, thisRetval := pipeline, R.START, 0;
      while nodes != []
        invariant R.Alternates(nodes) && (st.inPipe ==> st.piped != [])
        invariant R.RunFrom(exits, nodes, st) == R.RunFrom(exits, pipeline, R.START)
        decreases |nodes|
      {
        var node := nodes[0];
        if node.Chdir? {
          if |nodes| == 1 || node.dir.None? {
            return R.Raised, st.os;
          }
          st := st.(cwd := R.Join(st.cwd, node.dir.value));
          nodes := nodes[2..];
          continue;
        }
        st := StartCommand(node, st);
        if |nodes| == 1 {
          thisRetval, st := FinishGroup(exits, st);
          return R.Returned(thisRetval), st.os;
        }
        if nodes[1].Pipe? {
          st := st.(inPipe := true);
        } else {
          thisRetval, st := FinishGroup(exits, st);
          if (nodes[1].Or? && thisRetval == 0) || (nodes[1].And? && thisRetval != 0) {
            return R.Returned(thisRetval), st.os;
          }
        }
        nodes := nodes[2..];
      }
    }
  }

  lemma RunIsRight(exits: R.Exits, nodes: seq<Node>)
    requires R.Alternates(nodes)
    ensures var (end, outcome) := R.RunFrom(exits, nodes, R.START);
      && outcome == R.EvalRight(exits, R.GroupsOf(nodes, 0))
      && (outcome.Returned? ==> Resources.Tidy(end.os))
      && Resources.StartsExactly(end.os.log, R.Started(exits, R.GroupsOf(nodes, 0)))
      && Resources.SpawnsMatch(end.os.log, Resources.StagesOf(nodes, ".", false), 0)
  {
    R.RunEvaluatesRight(exits, nodes, R.START);
    Resources.StartsUpToDecider(exits, nodes);
    Resources.RunMatchesStages(exits, nodes, R.START);
    if R.RunFrom(exits, nodes, R.START).1.Returned? {
      Resources.ReturnedRunIsTidy(exits, nodes);
    }
  }

  // ------------------------------------------------------------------- a mixed pipeline

  function Plain(name: string): Node {
    Command([name], None, Inherit, Inherit, None)
  }

  const MIXED_TOKENS := ["false", "&&", "true", "||", "true"]

  const MIXED := [Plain("false"), And, Plain("true"), Or, Plain("true")]

  lemma ReadsOneMore(tokens: seq<string>, token: string, m: P.Machine, n: P.Machine)
    requires P.RunMachine(tokens) == Some(m) && P.Advance(m, token) == Some(n)
    ensures P.RunMachine(tokens + [token]) == Some(n)
  {
    AppendInit(tokens, token);
  }

  /** A word at the beginning is a command name; the operator after it ends the command. */
  lemma ReadsName(tokens: seq<string>, name: string, nodes: seq<Node>)
    requires P.RunMachine(tokens) == Some(P.Machine(P.BEGIN, None, nodes, map[]))
    requires name != "cd" && forall i :: 0 <= i < |name| ==> name[i] != '='
    ensures P.RunMachine(tokens + [name]) == Some(P.Machine(P.COMMAND, Some(Plain(name)), nodes, map[]))
  {
    assert EnvMatch(name).None?;
    ReadsOneMore(tokens, name, P.Machine(P.BEGIN, None, nodes, map[]),
      P.Machine(P.COMMAND, Some(Plain(name)), nodes, map[]));
  }

  lemma ReadsOperator(tokens: seq<string>, c: Node, nodes: seq<Node>, isAnd: bool)
    requires c.Command? && P.RunMachine(tokens) == Some(P.Machine(P.COMMAND, Some(c), nodes, map[]))
    ensures P.RunMachine(tokens + [if isAnd then "&&" else "||"]) ==
      Some(P.Machine(P.BEGIN, None, nodes + [c, if isAnd then And else Or], map[]))
  {
    var op := if isAnd then And else Or;
    ReadsOneMore(tokens, if isAnd then "&&" else "||", P.Machine(P.COMMAND, Some(c), nodes, map[]),
      P.Machine(P.BEGIN, None, nodes + [c, op], map[]));
  }

  lemma MixedIsParsed()
    ensures P.Parse(MIXED_TOKENS) == P.Parsed(MIXED)
  {
    var no, yes := Plain("false"), Plain("true");
    var one, three := [no, And], [no, And, yes, Or];
    assert one == [] + [no, And] && three == one + [yes, Or] && MIXED == three + [yes];
    var a, b, c, d := ["false"], ["false", "&&"], ["false", "&&", "true"], ["false", "&&", "true", "||"];
    assert a == [] + ["false"] && b == a + ["&&"] && c == b + ["true"] && d == c + ["||"];
    assert MIXED_TOKENS == d + ["true"];
    ReadsName([], "false", []);
    ReadsOperator(a, no, [], true);
    ReadsName(b, "true", one);
    ReadsOperator(c, yes, one, false);
    ReadsName(d, "true", three);
  }

  lemma MixedGroups()
    ensures R.Alternates(MIXED) && R.GroupsOf(MIXED, 0) == R.Chain(0, true, R.Chain(1, false, R.Group(2)))
  {
    assert MIXED[2..] == [Plain("true"), Or, Plain("true")];
    assert MIXED[2..][2..] == [Plain("true")];
  }

  /**
    false && true || true, with commands that return what their names say: the evaluator stops at the
    first command and returns 1, where the POSIX shell goes on to the third and returns 0.
  */
  lemma MixedOperatorsDiffer() returns (exits: R.Exits)
    ensures P.Parse(MIXED_TOKENS) == P.Parsed(MIXED) && R.Alternates(MIXED)
    ensures exits(0) == 1 && exits(1) == exits(2) == 0
    ensures R.RunFrom(exits, MIXED, R.START).1 == R.Returned(1)
    ensures R.EvalLeft(exits, R.GroupsOf(MIXED, 0)) == R.Returned(R.Posix(exits, MIXED, 0, true, 0)) == R.Returned(0)
  {
    exits := R.FirstThen(0, 1, 0);
    MixedIsParsed();
    MixedGroups();
    R.RunEvaluatesRight(exits, MIXED, R.START);
    R.PosixEvaluatesLeft(exits, MIXED, 0, 0);
  }

  /** What each redirection does to a command. */
  lemma SignsMean(name: string, file: string)
    requires name != "cd" && forall i :: 0 <= i < |name| ==> name[i] != '='
    ensures P.Parse([name, ">", file]) == P.Parsed([Command([name], None, File(file), Inherit, None)])
    ensures P.Parse([name, "2>", file]) == P.Parsed([Command([name], None, Inherit, File(file), None)])
    ensures P.Parse([name, "<", file]) == P.Parsed([Command([name], Some(file), Inherit, Inherit, None)])
    ensures P.Parse([name, "2>&1"]) == P.Parsed([Command([name], None, Inherit, STDOUT, None)])
  {
    var c := Plain(name);
    var m := P.Machine(P.COMMAND, Some(c), [], map[]);
    ReadsName([], name, []);
    assert [] + [name] == [name];
    ReadsFile(name, ">", file, m, m.(mode := P.STDOUT_FILE), m.(current := Some(c.(stdout := File(file)))));
    ReadsFile(name, "2>", file, m, m.(mode := P.STDERR_FILE), m.(current := Some(c.(stderr := File(file)))));
    ReadsFile(name, "<", file, m, m.(mode := P.STDIN_FILE), m.(current := Some(c.(stdin := Some(file)))));
    ReadsOneMore([name], "2>&1", m, m.(current := Some(c.(stderr := STDOUT))));
    assert [name] + ["2>&1"] == [name, "2>&1"];
  }

  lemma ReadsFile(name: string, sign: string, file: string, m: P.Machine, n: P.Machine, o: P.Machine)
    requires P.RunMachine([name]) == Some(m) && P.Advance(m, sign) == Some(n) && P.Advance(n, file) == Some(o)
    ensures P.RunMachine([name, sign, file]) == Some(o)
  {
    ReadsOneMore([name], sign, m, n);
    assert [name] + [sign] == [name, sign];
    ReadsOneMore([name, sign], file, n, o);
    assert [name, sign] + [file] == [name, sign, file];
  }

  /** A pipe between two commands. */
  lemma PipeMeans(a: string, b: string)
    requires a != "cd" && b != "cd"
    requires (forall i :: 0 <= i < |a| ==> a[i] != '=') && forall i :: 0 <= i < |b| ==> b[i] != '='
    ensures P.Parse([a, "|", b]) == P.Parsed([Command([a], None, PIPE, Inherit, None), Pipe, Plain(b)])
  {
    var c := Plain(a);
    var nodes := [c.(stdout := PIPE), Pipe];
    assert [] + nodes == nodes;
    ReadsName([], a, []);
    assert [] + [a] == [a] && [a] + ["|"] == [a, "|"] && [a, "|"] + [b] == [a, "|", b];
    ReadsOneMore([a], "|", P.Machine(P.COMMAND, Some(c), [], map[]), P.Machine(P.BEGIN, None, nodes, map[]));
    ReadsName([a, "|"], b, nodes);
  }

  const CD_TOKENS := ["true", "||", "cd", "d", "&&", "false"]

  const CD_NODES := [Plain("true"), Or, Chdir(Some("d")), And, Plain("false")]

  lemma ReadsCd(tokens: seq<string>, dir: string, nodes: seq<Node>)
    requires P.RunMachine(tokens) == Some(P.Machine(P.BEGIN, None, nodes, map[])) && dir != "&&"
    ensures P.RunMachine(tokens + ["cd"] + [dir] + ["&&"]) ==
      Some(P.Machine(P.BEGIN, None, nodes + [Chdir(Some(dir)), And], map[]))
  {
    assert "cd"[0] != '=' && "cd"[1] != '=' && EnvMatch("cd").None?;
    var a := P.Machine(P.CHDIR, Some(Chdir(None)), nodes, map[]);
    var b := P.Machine(P.CHDIR, Some(Chdir(Some(dir))), nodes, map[]);
    ReadsOneMore(tokens, "cd", P.Machine(P.BEGIN, None, nodes, map[]), a);
    ReadsOneMore(tokens + ["cd"], dir, a, b);
    ReadsOneMore(tokens + ["cd"] + [dir], "&&", b, P.Commit(b, Chdir(Some(dir)), And));
  }

  lemma CdIsParsed()
    ensures P.Parse(CD_TOKENS) == P.Parsed(CD_NODES)
  {
    var yes, no, one, three := Plain("true"), Plain("false"), CD_NODES[..2], CD_NODES[..4];
    assert one == [] + [yes, Or] && three == one + [Chdir(Some("d")), And] && CD_NODES == three + [no];
    var a, b, c := CD_TOKENS[..1], CD_TOKENS[..2], CD_TOKENS[..5];
    assert a == [] + ["true"] && b == a + ["||"] && c == b + ["cd"] + ["d"] + ["&&"] && CD_TOKENS == c + ["false"];
    ReadsName([], "true", []);
    ReadsOperator(a, yes, [], false);
    ReadsCd(b, "d", one);
    ReadsName(c, "false", three);
  }

  /**
    true || cd d && false: the evaluator takes the cd for a part of the last operand and returns 0, where
    the POSIX shell goes on behind the cd and returns 1.
  */
  lemma CdBehindOrDiffers() returns (exits: R.Exits)
    ensures P.Parse(CD_TOKENS) == P.Parsed(CD_NODES) && R.Alternates(CD_NODES)
    ensures exits(0) == 0 && exits(1) == 1
    ensures R.RunFrom(exits, CD_NODES, R.START).1 == R.Returned(0) && R.Posix(exits, CD_NODES, 0, true, 0) == 1
  {
    exits := R.FirstThen(0, 0, 1);
    CdIsParsed();
    assert CD_NODES[2..] == [Chdir(Some("d")), And, Plain("false")] && CD_NODES[2..][2..] == [Plain("false")];
    R.RunEvaluatesRight(exits, CD_NODES, R.START);
  }

  /** What the parser yields, read from the front. */
  lemma WellFormedAlternates(nodes: seq<Node>)
    requires P.WellFormed(nodes)
    ensures R.Alternates(nodes)
  {
    InitLast(nodes);
    DoneThenAlternates(nodes[..|nodes| - 1], [nodes[|nodes| - 1]]);
  }

  lemma {:induction false} DoneThenAlternates(done: seq<Node>, rest: seq<Node>)
    requires P.DoneNodesOk(done) && R.Alternates(rest)
    ensures R.Alternates(done + rest)
    decreases |done|
  {
    if done == [] {
      assert done + rest == rest;
    } else {
      var k := |done| - 2;
      var longer := [done[k], done[k + 1]] + rest;
      assert longer[2..] == rest;
      DoneThenAlternates(done[..k], longer);
      assert done[..k] + longer == done + rest;
    }
  }
}
