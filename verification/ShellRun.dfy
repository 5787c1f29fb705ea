/**
  The pipeline evaluator of waf-tools/shellcmd.py: what it asks of the operating system, in which
  order, and which status it returns. Exit statuses come from a function of the process number, so
  every behaviour of the processes is covered.
*/
module ShellRun {
  import opened Prelude
  import opened ShellSyntax

  /** An open file: the shared null device, or the n-th file opened by the run. */
  datatype Handle = DevNull | Opened(n: nat)

  datatype Source = Terminal | FromFile(file: Handle) | FromPipe(pid: nat)

  datatype Target = Default | ToPipe | ToStdout | ToFile(file: Handle)

  datatype Event =
    | OpenFile(h: nat, name: string, write: bool)
    | Spawn(pid: nat, argv: seq<string>, stdin: Source, stdout: Target, stderr: Target,
            env: Option<map<string, string>>, cwd: Option<string>)
    | Wait(pid: nat)
    | Close(h: nat)

  /** Everything asked of the system so far; processes and opened files are numbered from 0. */
  datatype OS = OS(log: seq<Event>, pids: nat, handles: nat)

  datatype Outcome = Returned(code: int) | Raised

  /** The variables of the evaluator's loop. */
  datatype Run = Run(cwd: string, inPipe: bool, piped: seq<nat>, files: seq<Handle>, os: OS)

  const START := Run(".", false, [], [], OS([], 0, 0))

  type Exits = nat -> int

  // ----------------------------------------------------------------------- system calls

  function Emit(os: OS, e: Event): OS {
    os.(log := os.log + [e])
  }

  function OpenNext(os: OS, name: string, write: bool): OS {
    Emit(os, OpenFile(os.handles, name, write)).(handles := os.handles + 1)
  }

  predicate IsNullDevice(name: string) {
    name == "NUL:" || name == "/dev/null"
  }

  /** os.path.join for two parts. */
  function Join(cwd: string, dir: string): string {
    if dir != "" && dir[0] == '/' then dir
    else if cwd == "" || cwd[|cwd| - 1] == '/' then cwd + dir
    else cwd + "/" + dir
  }

  // ------------------------------------------------------------------------ one command

  /** The process reads from the one before it in a pipe, else from its file if it names one. */
  function StdinOf(st: Run, stdin: Option<string>): Source
    requires st.inPipe ==> st.piped != []
  {
    if st.inPipe then FromPipe(st.piped[|st.piped| - 1])
    else if stdin.Some? then FromFile(Opened(st.os.handles))
    else Terminal
  }

  function OpenStdin(st: Run, stdin: Option<string>): Run {
    if !st.inPipe && stdin.Some? then
      st.(os := OpenNext(st.os, stdin.value, false), files := st.files + [Opened(st.os.handles)])
    else st
  }

  function TargetOf(os: OS, sink: Sink): Target {
    match sink
    case Inherit => Default
    case PIPE => ToPipe
    case STDOUT => Target.ToStdout
    case File(name) => if IsNullDevice(name) then ToFile(DevNull) else ToFile(Opened(os.handles))
  }

  function OpenSink(st: Run, sink: Sink): Run {
    if !sink.File? then st
    else if IsNullDevice(sink.name) then st.(files := st.files + [DevNull])
    else st.(os := OpenNext(st.os, sink.name, true), files := st.files + [Opened(st.os.handles)])
  }

  /** Open what the command redirects, and start it. */
  function Start(st: Run, c: Node): Run
    requires c.Command? && (st.inPipe ==> st.piped != [])
  {
    var a := OpenStdin(st, c.stdin);
    var b := OpenSink(a, c.stdout);
    var d := OpenSink(b, c.stderr);
    Launch(d, Spawn(d.os.pids, c.argv, StdinOf(st, c.stdin), TargetOf(a.os, c.stdout), TargetOf(b.os, c.stderr),
                    c.envVars, if st.cwd == "." then None else Some(st.cwd)))
  }

  function Launch(st: Run, e: Event): Run {
    st.(os := Emit(st.os, e).(pids := st.os.pids + 1), piped := st.piped + [st.os.pids])
  }

  // ------------------------------------------------------------------- the end of a group

  function WaitAll(os: OS, pids: seq<nat>): OS
    decreases |pids|
  {
    if pids == [] then os else WaitAll(Emit(os, Wait(pids[0])), pids[1..])
  }

  function CloseOne(os: OS, f: Handle): OS {
    if f.DevNull? then os else Emit(os, Close(f.n))
  }

  function CloseAll(os: OS, files: seq<Handle>): OS
    decreases |files|
  {
    if files == [] then os else CloseAll(CloseOne(os, files[0]), files[1..])
  }

  function Finish(st: Run): Run {
    st.(os := CloseAll(WaitAll(st.os, st.piped), st.files), files := [], piped := [], inPipe := false)
  }

  // ------------------------------------------------------------------------ the whole run

  /** Operand (operator operand)*. */
  predicate Alternates(nodes: seq<Node>) {
    nodes != [] && (nodes[0].Command? || nodes[0].Chdir?) &&
    (|nodes| == 1 || (|nodes| > 2 && IsOp(nodes[1]) && (nodes[0].Chdir? ==> nodes[1].And?) && Alternates(nodes[2..])))
  }

  /** A cd can be carried out: it names a directory and an operand follows. */
  predicate CanChdir(nodes: seq<Node>)
    requires Alternates(nodes) && nodes[0].Chdir?
  {
    |nodes| > 2 && nodes[0].dir.Some?
  }

  /** The run of the remaining nodes: the final variables, and how the run ends. */
  ghost function RunFrom(exits: Exits, nodes: seq<Node>, st: Run): (Run, Outcome)
    requires Alternates(nodes) && (st.inPipe ==> st.piped != [])
    decreases |nodes|
  {
    if nodes[0].Chdir? then
      if CanChdir(nodes) then RunFrom(exits, nodes[2..], st.(cwd := Join(st.cwd, nodes[0].dir.value)))
      else (st, Raised)
    else
      var s := Start(st, nodes[0]);
      var code := exits(s.piped[|s.piped| - 1]);
      if |nodes| == 1 then (Finish(s), Returned(code))
      else if nodes[1].Pipe? then RunFrom(exits, nodes[2..], s.(inPipe := true))
      else if nodes[1].And? <==> code == 0 then RunFrom(exits, nodes[2..], Finish(s))
      else (Finish(s), Returned(code))
  }

  // ------------------------------------------------- status: right-nested short-circuiting

  /**
    Groups joined by "and" and "or"; a group is known by the number of its last command, and a cd that
    cannot be carried out by the number of commands before it.
  */
  datatype AndOr = Group(last: nat) | Chain(last: nat, isAnd: bool, rest: AndOr) | Broken(before: nat)

  /** The groups of a pipeline whose first command has number k; Broken where a cd cannot be carried out. */
  ghost function GroupsOf(nodes: seq<Node>, k: nat): AndOr
    requires Alternates(nodes)
    decreases |nodes|
  {
    if nodes[0].Chdir? then if CanChdir(nodes) then GroupsOf(nodes[2..], k) else Broken(k)
    else if |nodes| == 1 then Group(k)
    else if nodes[1].Pipe? then GroupsOf(nodes[2..], k + 1)
    else Chain(k, nodes[1].And?, GroupsOf(nodes[2..], k + 1))
  }

  /** a op (b op (c ...)): the first group decides whether the rest is evaluated at all. */
  ghost function EvalRight(exits: Exits, t: AndOr): Outcome {
    match t
    case Group(i) => Returned(exits(i))
    case Chain(i, isAnd, rest) =>
      if isAnd <==> exits(i) == 0 then EvalRight(exits, rest) else Returned(exits(i))
    case Broken(_) => Raised
  }

  /** How many commands have been started when that evaluation ends: all up to the group that decides. */
  ghost function Started(exits: Exits, t: AndOr): nat {
    match t
    case Group(i) => i + 1
    case Chain(i, isAnd, rest) => if isAnd <==> exits(i) == 0 then Started(exits, rest) else i + 1
    case Broken(k) => k
  }

  lemma StartKeeps(st: Run, c: Node)
    requires c.Command? && (st.inPipe ==> st.piped != [])
    ensures var s := Start(st, c);
      s.piped == st.piped + [st.os.pids] && s.os.pids == st.os.pids + 1 && s.cwd == st.cwd && s.inPipe == st.inPipe
  {
  }

  lemma {:induction false} WaitKeepsPids(os: OS, pids: seq<nat>)
    ensures WaitAll(os, pids).pids == os.pids && WaitAll(os, pids).handles == os.handles
    decreases |pids|
  {
    if pids != [] {
      WaitKeepsPids(Emit(os, Wait(pids[0])), pids[1..]);
    }
  }

  lemma {:induction false} CloseKeepsPids(os: OS, files: seq<Handle>)
    ensures CloseAll(os, files).pids == os.pids && CloseAll(os, files).handles == os.handles
    decreases |files|
  {
    if files != [] {
      CloseKeepsPids(CloseOne(os, files[0]), files[1..]);
    }
  }

  lemma FinishedPids(st: Run)
    ensures Finish(st).os.pids == st.os.pids && Finish(st).os.handles == st.os.handles
  {
    WaitKeepsPids(st.os, st.piped);
    CloseKeepsPids(WaitAll(st.os, st.piped), st.files);
  }

  /** The run returns what right-nested short-circuit evaluation of its groups gives, and starts no more. */
  lemma {:induction false} RunEvaluatesRight(exits: Exits, nodes: seq<Node>, st: Run)
    requires Alternates(nodes) && (st.inPipe ==> st.piped != [])
    ensures RunFrom(exits, nodes, st).1 == EvalRight(exits, GroupsOf(nodes, st.os.pids))
    ensures RunFrom(exits, nodes, st).0.os.pids == Started(exits, GroupsOf(nodes, st.os.pids))
    decreases |nodes|
  {
    if nodes[0].Chdir? {
      if CanChdir(nodes) {
        RunEvaluatesRight(exits, nodes[2..], st.(cwd := Join(st.cwd, nodes[0].dir.value)));
      }
    } else {
      StartKeeps(st, nodes[0]);
      var s := Start(st, nodes[0]);
      FinishedPids(s);
      if |nodes| > 1 {
        RunEvaluatesRight(exits, nodes[2..], if nodes[1].Pipe? then s.(inPipe := true) else Finish(s));
      }
    }
  }

  // --------------------------------------------------- status: the lists of the POSIX shell

  /** (((a op b) op c) ...): each operator looks at the status of everything before it. */
  ghost function EvalLeft(exits: Exits, t: AndOr): Outcome {
    match t
    case Group(i) => Returned(exits(i))
    case Chain(i, isAnd, rest) => ContinueLeft(exits, exits(i), isAnd, rest)
    case Broken(_) => Raised
  }

  /** The status so far, the operator, and what follows it. */
  ghost function ContinueLeft(exits: Exits, status: int, isAnd: bool, t: AndOr): Outcome
    decreases t
  {
    match t
    case Group(i) => Returned(if isAnd <==> status == 0 then exits(i) else status)
    case Chain(i, nextIsAnd, rest) =>
      ContinueLeft(exits, if isAnd <==> status == 0 then exits(i) else status, nextIsAnd, rest)
    case Broken(_) => Raised
  }

  /** Every operator is the same. */
  ghost predicate OnlyOp(t: AndOr, isAnd: bool) {
    t.Chain? ==> t.isAnd == isAnd && OnlyOp(t.rest, isAnd)
  }

  ghost predicate Unbroken(t: AndOr) {
    match t case Group(_) => true case Chain(_, _, rest) => Unbroken(rest) case Broken(_) => false
  }

  /** Command numbers go up from k. */
  ghost predicate Ascending(t: AndOr, k: nat) {
    match t
    case Group(i) => k <= i
    case Chain(i, _, rest) => k <= i && Ascending(rest, i + 1)
    case Broken(_) => true
  }

  lemma {:induction false} GroupsAscend(nodes: seq<Node>, k: nat, j: nat)
    requires Alternates(nodes) && j <= k
    ensures Ascending(GroupsOf(nodes, k), j)
    decreases |nodes|
  {
    if |nodes| > 2 {
      GroupsAscend(nodes[2..], k, j);
      GroupsAscend(nodes[2..], k + 1, if nodes[1].Pipe? then j else k + 1);
    }
  }

  lemma {:induction false} SameOpSkips(exits: Exits, status: int, isAnd: bool, t: AndOr)
    requires OnlyOp(t, isAnd) && Unbroken(t) && (isAnd <==> status != 0)
    ensures ContinueLeft(exits, status, isAnd, t) == Returned(status)
    decreases t
  {
    if t.Chain? {
      SameOpSkips(exits, status, isAnd, t.rest);
    }
  }

  /** With a single kind of operator, both readings agree. */
  lemma {:induction false} OneOpAgrees(exits: Exits, t: AndOr, isAnd: bool)
    requires Unbroken(t) && OnlyOp(t, isAnd)
    ensures EvalRight(exits, t) == EvalLeft(exits, t)
  {
    if t.Chain? {
      if isAnd <==> exits(t.last) == 0 {
        OneOpAgrees(exits, t.rest, isAnd);
      } else {
        SameOpSkips(exits, exits(t.last), isAnd, t.rest);
      }
    }
  }

  /** The first command gets one status, every other command another. */
  ghost function FirstThen(k: nat, first: int, others: int): Exits {
    i => if i == k then first else others
  }

  lemma {:induction false} AllTheSame(k: nat, first: int, v: int, isAnd: bool, t: AndOr)
    requires Unbroken(t) && Ascending(t, k + 1)
    ensures ContinueLeft(FirstThen(k, first, v), v, isAnd, t) == Returned(v)
    decreases t
  {
    if t.Chain? {
      AscendingFrom(t.rest, k + 1, t.last + 1);
      AllTheSame(k, first, v, t.isAnd, t.rest);
    }
  }

  lemma {:induction false} AscendingFrom(t: AndOr, j: nat, k: nat)
    requires Ascending(t, k) && j <= k
    ensures Ascending(t, j)
  {
  }

  /** Skipping stops at the first operator of the other kind. */
  lemma {:induction false} OtherOpTakesOver(k: nat, first: int, v: int, isAnd: bool, t: AndOr)
    requires Unbroken(t) && Ascending(t, k + 1) && !OnlyOp(t, isAnd)
    requires (isAnd <==> first != 0) && (isAnd <==> v == 0)
    ensures ContinueLeft(FirstThen(k, first, v), first, isAnd, t) == Returned(v)
  {
    AscendingFrom(t.rest, k + 1, t.last + 1);
    if t.isAnd == isAnd {
      OtherOpTakesOver(k, first, v, isAnd, t.rest);
    } else if t.rest.Chain? {
      AscendingFrom(t.rest.rest, k + 1, t.rest.last + 1);
      AllTheSame(k, first, v, t.rest.isAnd, t.rest.rest);
    }
  }

  /**
    On lists of groups, right-nested evaluation agrees with the left-associative lists of section 2.9.3 of
    the POSIX.1-2017 Shell Command Language, whatever the commands return, exactly when only one of the
    two operators occurs.
  */
  lemma AgreesWithPosixIffOneOp(t: AndOr, k: nat)
    requires Unbroken(t) && Ascending(t, k)
    ensures (forall exits: Exits :: EvalRight(exits, t) == EvalLeft(exits, t)) <==> OnlyOp(t, true) || OnlyOp(t, false)
  {
    forall exits: Exits | OnlyOp(t, true) || OnlyOp(t, false) ensures EvalRight(exits, t) == EvalLeft(exits, t) {
      OneOpAgrees(exits, t, OnlyOp(t, true));
    }
    if !OnlyOp(t, true) && !OnlyOp(t, false) {
      var first, v := if t.isAnd then 1 else 0, if t.isAnd then 0 else 1;
      OtherOpTakesOver(t.last, first, v, t.isAnd, t.rest);
      assert EvalRight(FirstThen(t.last, first, v), t) != EvalLeft(FirstThen(t.last, first, v), t);
    }
  }

  /** The same of a run, where each cd is read as a part of the operand behind it and not as one of its own. */
  lemma RunAgreesWithListIffOneOp(nodes: seq<Node>)
    requires Alternates(nodes) && Unbroken(GroupsOf(nodes, 0))
    ensures (forall exits: Exits :: RunFrom(exits, nodes, START).1 == EvalLeft(exits, GroupsOf(nodes, 0)))
      <==> OnlyOp(GroupsOf(nodes, 0), true) || OnlyOp(GroupsOf(nodes, 0), false)
  {
    GroupsAscend(nodes, 0, 0);
    AgreesWithPosixIffOneOp(GroupsOf(nodes, 0), 0);
    forall exits: Exits ensures RunFrom(exits, nodes, START).1 == EvalRight(exits, GroupsOf(nodes, 0)) {
      RunEvaluatesRight(exits, nodes, START);
    }
  }

  // ----------------------------------------------- status: whole pipelines in the POSIX shell

  /**
    What a POSIX shell makes of a pipeline from command number k on: and-or lists associate to the left,
    and a cd is an operand like any other, whose status is 0. An operand runs if `run`; `status` is the
    status of everything before it.
  */
  ghost function Posix(exits: Exits, nodes: seq<Node>, k: nat, run: bool, status: int): int
    requires Alternates(nodes)
    decreases |nodes|
  {
    if nodes[0].Command? && |nodes| > 1 && nodes[1].Pipe? then Posix(exits, nodes[2..], k + 1, run, status)
    else
      var now := if !run then status else if nodes[0].Chdir? then 0 else exits(k);
      if |nodes| == 1 then now
      else Posix(exits, nodes[2..], if nodes[0].Chdir? then k else k + 1, nodes[1].And? <==> now == 0, now)
  }

  /** From the first operator that ends the group of a command, the other operator does not occur. */
  ghost predicate OneKind(nodes: seq<Node>)
    requires Alternates(nodes)
    decreases |nodes|
  {
    |nodes| == 1 ||
    if nodes[0].Chdir? || nodes[1].Pipe? then OneKind(nodes[2..]) else OtherOp(nodes[1].And?) !in nodes[2..]
  }

  function OtherOp(isAnd: bool): Node {
    if isAnd then Or else And
  }

  /** Without a cd, this is the left-associative evaluation of the groups. */
  lemma {:induction false} PosixEvaluatesLeft(exits: Exits, nodes: seq<Node>, k: nat, status: int)
    requires Alternates(nodes) && forall n :: n in nodes ==> !n.Chdir?
    ensures Returned(Posix(exits, nodes, k, true, status)) == EvalLeft(exits, GroupsOf(nodes, k))
    decreases |nodes|
  {
    if |nodes| > 1 {
      if nodes[1].Pipe? {
        PosixEvaluatesLeft(exits, nodes[2..], k + 1, status);
      } else {
        PosixContinuesLeft(exits, nodes[2..], k + 1, nodes[1].And?, exits(k));
      }
    }
  }

  lemma {:induction false} PosixContinuesLeft(exits: Exits, nodes: seq<Node>, k: nat, isAnd: bool, status: int)
    requires Alternates(nodes) && forall n :: n in nodes ==> !n.Chdir?
    ensures Returned(Posix(exits, nodes, k, isAnd <==> status == 0, status))
      == ContinueLeft(exits, status, isAnd, GroupsOf(nodes, k))
    decreases |nodes|
  {
    if |nodes| > 1 {
      if nodes[1].Pipe? {
        PosixContinuesLeft(exits, nodes[2..], k + 1, isAnd, status);
      } else {
        var now := if isAnd <==> status == 0 then exits(k) else status;
        PosixContinuesLeft(exits, nodes[2..], k + 1, nodes[1].And?, now);
      }
    }
  }

  /** What is skipped stays skipped, as long as the operator is the same. */
  lemma {:induction false} PosixSkips(exits: Exits, nodes: seq<Node>, k: nat, isAnd: bool, status: int)
    requires Alternates(nodes) && OtherOp(isAnd) !in nodes && (isAnd <==> status != 0)
    ensures Posix(exits, nodes, k, false, status) == status
    decreases |nodes|
  {
    if |nodes| > 1 {
      assert nodes[1] in nodes;
      PosixSkips(exits, nodes[2..], if nodes[0].Chdir? then k else k + 1, isAnd, status);
    }
  }

  lemma {:induction false} OnlyOneIsOneKind(nodes: seq<Node>, isAnd: bool)
    requires Alternates(nodes) && OtherOp(isAnd) !in nodes
    ensures OneKind(nodes)
    decreases |nodes|
  {
    if |nodes| > 1 {
      assert nodes[1] in nodes;
      OnlyOneIsOneKind(nodes[2..], isAnd);
    }
  }

  lemma {:induction false} OneKindAgrees(exits: Exits, nodes: seq<Node>, k: nat, status: int)
    requires Alternates(nodes) && OneKind(nodes) && Unbroken(GroupsOf(nodes, k))
    ensures EvalRight(exits, GroupsOf(nodes, k)) == Returned(Posix(exits, nodes, k, true, status))
    decreases |nodes|
  {
    if nodes[0].Chdir? {
      OneKindAgrees(exits, nodes[2..], k, 0);
    } else if |nodes| > 1 {
      if nodes[1].Pipe? {
        OneKindAgrees(exits, nodes[2..], k + 1, status);
      } else if nodes[1].And? <==> exits(k) == 0 {
        OnlyOneIsOneKind(nodes[2..], nodes[1].And?);
        OneKindAgrees(exits, nodes[2..], k + 1, exits(k));
      } else {
        PosixSkips(exits, nodes[2..], k + 1, nodes[1].And?, exits(k));
      }
    }
  }

  /** If every later command returns v, the status settles at v. */
  lemma {:induction false} PosixSettles(j: nat, first: int, v: int, nodes: seq<Node>, k: nat, run: bool, status: int)
    requires Alternates(nodes) && Unbroken(GroupsOf(nodes, k)) && j < k && (run || status == v)
    ensures Posix(FirstThen(j, first, v), nodes, k, run, status) == v
    decreases |nodes|
  {
    var exits := FirstThen(j, first, v);
    if |nodes| > 1 {
      if nodes[0].Chdir? {
        PosixSettles(j, first, v, nodes[2..], k, if run then true else v == 0, if run then 0 else v);
      } else if nodes[1].Pipe? {
        PosixSettles(j, first, v, nodes[2..], k + 1, run, status);
      } else {
        PosixSettles(j, first, v, nodes[2..], k + 1, nodes[1].And? <==> v == 0, v);
      }
    }
  }

  /** Skipping stops at the first operator of the other kind, be it the one behind a cd. */
  lemma {:induction false} PosixTakesOver(j: nat, isAnd: bool, nodes: seq<Node>, k: nat)
    requires Alternates(nodes) && Unbroken(GroupsOf(nodes, k)) && j < k && OtherOp(isAnd) in nodes
    ensures Posix(StopAt(j, isAnd), nodes, k, false, Stopping(isAnd)) == 1 - Stopping(isAnd)
    decreases |nodes|
  {
    var next := if nodes[0].Chdir? then k else k + 1;
    if nodes[1] == OtherOp(isAnd) {
      PosixSettles(j, Stopping(isAnd), 1 - Stopping(isAnd), nodes[2..], next, true, Stopping(isAnd));
    } else {
      assert nodes == [nodes[0], nodes[1]] + nodes[2..];
      PosixTakesOver(j, isAnd, nodes[2..], next);
    }
  }

  /** The status on which the operator stops. */
  function Stopping(isAnd: bool): int {
    if isAnd then 1 else 0
  }

  /** Command j stops its operator, the others do not. */
  ghost function StopAt(j: nat, isAnd: bool): Exits {
    FirstThen(j, Stopping(isAnd), 1 - Stopping(isAnd))
  }

  lemma {:induction false} TwoKindsDiffer(nodes: seq<Node>, k: nat, status: int) returns (exits: Exits)
    requires Alternates(nodes) && !OneKind(nodes) && Unbroken(GroupsOf(nodes, k))
    ensures EvalRight(exits, GroupsOf(nodes, k)) != Returned(Posix(exits, nodes, k, true, status))
    decreases |nodes|
  {
    if nodes[0].Chdir? {
      exits := TwoKindsDiffer(nodes[2..], k, 0);
    } else if nodes[1].Pipe? {
      exits := TwoKindsDiffer(nodes[2..], k + 1, status);
    } else {
      exits := StopAt(k, nodes[1].And?);
      PosixTakesOver(k, nodes[1].And?, nodes[2..], k + 1);
    }
  }

  /** Statuses that lead the evaluator past every operator. */
  ghost function PassAll(t: AndOr): Exits {
    match t
    case Chain(i, isAnd, rest) => (j: nat) => if j == i then 1 - Stopping(isAnd) else PassAll(rest)(j)
    case _ => (j: nat) => 0
  }

  /** A cd that cannot be carried out is reached for some statuses. */
  lemma {:induction false} BrokenIsReached(t: AndOr, exits: Exits, k: nat)
    requires !Unbroken(t) && Ascending(t, k) && forall j: nat :: j >= k ==> exits(j) == PassAll(t)(j)
    ensures EvalRight(exits, t) == Raised
  {
    if t.Chain? {
      assert exits(t.last) == PassAll(t)(t.last) == 1 - Stopping(t.isAnd);
      BrokenIsReached(t.rest, exits, t.last + 1);
    }
  }

  /** The run returns, and with the status that the POSIX shell gives. */
  ghost predicate AgreesWithPosix(exits: Exits, nodes: seq<Node>)
    requires Alternates(nodes)
  {
    RunFrom(exits, nodes, START).1 == Returned(Posix(exits, nodes, 0, true, 0))
  }

  /**
    A run returns what the POSIX shell does, whatever the commands return, exactly when every cd can be
    carried out and, from the first operator behind a command's group on, the other one does not occur.
  */
  lemma RunAgreesWithPosixIffOneKind(nodes: seq<Node>)
    requires Alternates(nodes)
    ensures (forall exits: Exits :: AgreesWithPosix(exits, nodes)) <==> OneKind(nodes) && Unbroken(GroupsOf(nodes, 0))
  {
    var t := GroupsOf(nodes, 0);
    forall exits: Exits ensures RunFrom(exits, nodes, START).1 == EvalRight(exits, t) {
      RunEvaluatesRight(exits, nodes, START);
    }
    if !Unbroken(t) {
      GroupsAscend(nodes, 0, 0);
      BrokenIsReached(t, PassAll(t), 0);
      assert !AgreesWithPosix(PassAll(t), nodes);
    } else if OneKind(nodes) {
      forall exits: Exits ensures AgreesWithPosix(exits, nodes) {
        OneKindAgrees(exits, nodes, 0, 0);
      }
    } else {
      var exits := TwoKindsDiffer(nodes, 0, 0);
      assert !AgreesWithPosix(exits, nodes);
    }
  }
}
