/**
  What a run of waf-tools/shellcmd.py leaves behind: processes waited for, files closed, and each
  process started as its command says.
*/
module ShellResources {
  import opened Prelude
  import opened ShellSyntax
  import opened ShellRun
  import opened Seqs

  datatype Kind = Spawned | Waited | OpenedFile | Closed

  ghost predicate Is(e: Event, kind: Kind, n: nat) {
    match kind
    case Spawned => e.Spawn? && e.pid == n
    case Waited => e.Wait? && e.pid == n
    case OpenedFile => e.OpenFile? && e.h == n
    case Closed => e.Close? && e.h == n
  }

  /** How often the log has an event of this kind for process or file n. */
  ghost function Times(log: seq<Event>, kind: Kind, n: nat): nat {
    if log == [] then 0 else Times(log[..|log| - 1], kind, n) + if Is(log[|log| - 1], kind, n) then 1 else 0
  }

  /** No process is waited for before it is started, no file closed before it is opened. */
  ghost predicate Ordered(log: seq<Event>) {
    log != [] ==> Ordered(log[..|log| - 1]) && NothingEarly(log)
  }

  ghost predicate NothingEarly(log: seq<Event>) {
    forall n: nat ::
      Times(log, Waited, n) <= Times(log, Spawned, n) && Times(log, Closed, n) <= Times(log, OpenedFile, n)
  }

  function One(b: bool): nat {
    if b then 1 else 0
  }

  /** Opened files occur once; the null device may occur often. */
  ghost predicate DistinctFiles(s: seq<Handle>) {
    forall i, j :: 0 <= i < j < |s| && s[i].Opened? ==> s[i] != s[j]
  }

  /** The processes not yet waited for are those of the current group. */
  ghost predicate ProcessesOk(log: seq<Event>, pids: nat, piped: seq<nat>) {
    && NoDup(piped) && (forall i :: 0 <= i < |piped| ==> piped[i] < pids)
    && (forall n: nat :: Times(log, Spawned, n) == One(n < pids))
    && (forall n: nat :: Times(log, Waited, n) == One(n < pids && n !in piped))
  }

  /** The files not yet closed are those listed. */
  ghost predicate FilesOk(log: seq<Event>, handles: nat, files: seq<Handle>) {
    && DistinctFiles(files) && (forall i :: 0 <= i < |files| && files[i].Opened? ==> files[i].n < handles)
    && (forall n: nat :: Times(log, OpenedFile, n) == One(n < handles))
    && (forall n: nat :: Times(log, Closed, n) == One(n < handles && Opened(n) !in files))
  }

  ghost predicate Accounted(os: OS, piped: seq<nat>, files: seq<Handle>) {
    Ordered(os.log) && ProcessesOk(os.log, os.pids, piped) && FilesOk(os.log, os.handles, files)
  }

  lemma EmitCounts(os: OS, e: Event, kind: Kind, n: nat)
    ensures Times(Emit(os, e).log, kind, n) == Times(os.log, kind, n) + if Is(e, kind, n) then 1 else 0
  {
    AppendInit(os.log, e);
  }

  lemma EmitOrdered(os: OS, e: Event)
    requires Ordered(os.log)
    requires NothingEarly(os.log)
    requires e.Wait? ==> Times(os.log, Waited, e.pid) < Times(os.log, Spawned, e.pid)
    requires e.Close? ==> Times(os.log, Closed, e.h) < Times(os.log, OpenedFile, e.h)
    ensures Ordered(Emit(os, e).log)
  {
    AppendInit(os.log, e);
    forall n: nat ensures
      && Times(Emit(os, e).log, Waited, n) <= Times(Emit(os, e).log, Spawned, n)
      && Times(Emit(os, e).log, Closed, n) <= Times(Emit(os, e).log, OpenedFile, n)
    {
      EmitCounts(os, e, Waited, n);
      EmitCounts(os, e, Spawned, n);
      EmitCounts(os, e, Closed, n);
      EmitCounts(os, e, OpenedFile, n);
    }
  }

  lemma AccountedIsNeverEarly(os: OS, piped: seq<nat>, files: seq<Handle>)
    requires ProcessesOk(os.log, os.pids, piped) && FilesOk(os.log, os.handles, files)
    ensures NothingEarly(os.log)
  {
  }

  lemma EmitKeepsProcesses(os: OS, e: Event, piped: seq<nat>)
    requires ProcessesOk(os.log, os.pids, piped) && !e.Spawn? && !e.Wait?
    ensures ProcessesOk(Emit(os, e).log, os.pids, piped)
  {
    forall n: nat ensures Times(Emit(os, e).log, Spawned, n) == Times(os.log, Spawned, n)
                       && Times(Emit(os, e).log, Waited, n) == Times(os.log, Waited, n)
    {
      EmitCounts(os, e, Spawned, n);
      EmitCounts(os, e, Waited, n);
    }
  }

  lemma EmitKeepsFiles(os: OS, e: Event, files: seq<Handle>)
    requires FilesOk(os.log, os.handles, files) && !e.OpenFile? && !e.Close?
    ensures FilesOk(Emit(os, e).log, os.handles, files)
  {
    forall n: nat ensures Times(Emit(os, e).log, OpenedFile, n) == Times(os.log, OpenedFile, n)
                       && Times(Emit(os, e).log, Closed, n) == Times(os.log, Closed, n)
    {
      EmitCounts(os, e, OpenedFile, n);
      EmitCounts(os, e, Closed, n);
    }
  }

  lemma OpenFilesOk(os: OS, files: seq<Handle>, name: string, write: bool)
    requires FilesOk(os.log, os.handles, files)
    ensures FilesOk(OpenNext(os, name, write).log, os.handles + 1, files + [Opened(os.handles)])
  {
    var e, f := OpenFile(os.handles, name, write), Opened(os.handles);
    forall n: nat ensures Opened(n) in files + [f] <==> Opened(n) in files || n == os.handles {
      EmitCounts(os, e, OpenedFile, n);
      EmitCounts(os, e, Closed, n);
    }
    forall n: nat ensures Times(Emit(os, e).log, OpenedFile, n) == One(n < os.handles + 1)
                       && Times(Emit(os, e).log, Closed, n) == One(n < os.handles + 1 && Opened(n) !in files + [f])
    {
      EmitCounts(os, e, OpenedFile, n);
      EmitCounts(os, e, Closed, n);
    }
  }

  lemma OpenAccounted(os: OS, piped: seq<nat>, files: seq<Handle>, name: string, write: bool)
    requires Accounted(os, piped, files)
    ensures Accounted(OpenNext(os, name, write), piped, files + [Opened(os.handles)])
  {
    AccountedIsNeverEarly(os, piped, files);
    EmitOrdered(os, OpenFile(os.handles, name, write));
    EmitKeepsProcesses(os, OpenFile(os.handles, name, write), piped);
    OpenFilesOk(os, files, name, write);
  }

  lemma NullAccounted(os: OS, piped: seq<nat>, files: seq<Handle>)
    requires Accounted(os, piped, files)
    ensures Accounted(os, piped, files + [DevNull])
  {
    assert forall n: nat :: Opened(n) in files + [DevNull] <==> Opened(n) in files;
  }

  lemma SpawnProcessesOk(os: OS, piped: seq<nat>, e: Event)
    requires ProcessesOk(os.log, os.pids, piped) && e.Spawn? && e.pid == os.pids
    ensures ProcessesOk(Emit(os, e).log, os.pids + 1, piped + [os.pids])
  {
    var longer := piped + [os.pids];
    forall n: nat ensures Times(Emit(os, e).log, Spawned, n) == One(n < os.pids + 1)
                       && Times(Emit(os, e).log, Waited, n) == One(n < os.pids + 1 && n !in longer)
    {
      EmitCounts(os, e, Spawned, n);
      EmitCounts(os, e, Waited, n);
      assert n in longer <==> n in piped || n == os.pids;
    }
  }

  lemma SpawnAccounted(os: OS, piped: seq<nat>, files: seq<Handle>, e: Event)
    requires Accounted(os, piped, files) && e.Spawn? && e.pid == os.pids
    ensures Accounted(Emit(os, e).(pids := os.pids + 1), piped + [os.pids], files)
  {
    AccountedIsNeverEarly(os, piped, files);
    EmitOrdered(os, e);
    SpawnProcessesOk(os, piped, e);
    EmitKeepsFiles(os, e, files);
  }

  lemma FirstOfDistinct<T>(first: T, rest: seq<T>)
    requires NoDup([first] + rest)
    ensures NoDup(rest) && first !in rest
  {
    var all := [first] + rest;
    assert all[0] == first && forall i :: 0 <= i < |rest| ==> rest[i] == all[i + 1];
  }

  lemma WaitProcessesOk(os: OS, first: nat, rest: seq<nat>)
    requires ProcessesOk(os.log, os.pids, [first] + rest)
    ensures first < os.pids && ProcessesOk(Emit(os, Wait(first)).log, os.pids, rest)
    ensures Times(os.log, Waited, first) < Times(os.log, Spawned, first)
  {
    var piped := [first] + rest;
    FirstOfDistinct(first, rest);
    assert piped[0] == first && forall i :: 0 <= i < |rest| ==> rest[i] == piped[i + 1];
    forall n: nat ensures Times(Emit(os, Wait(first)).log, Spawned, n) == One(n < os.pids)
                       && Times(Emit(os, Wait(first)).log, Waited, n) == One(n < os.pids && n !in rest)
    {
      EmitCounts(os, Wait(first), Spawned, n);
      EmitCounts(os, Wait(first), Waited, n);
      assert n in piped <==> n == first || n in rest;
    }
  }

  lemma WaitOneAccounted(os: OS, first: nat, rest: seq<nat>, files: seq<Handle>)
    requires Accounted(os, [first] + rest, files)
    ensures Accounted(Emit(os, Wait(first)), rest, files)
  {
    AccountedIsNeverEarly(os, [first] + rest, files);
    WaitProcessesOk(os, first, rest);
    EmitOrdered(os, Wait(first));
    EmitKeepsFiles(os, Wait(first), files);
  }

  lemma FirstOfDistinctFiles(first: Handle, rest: seq<Handle>)
    requires DistinctFiles([first] + rest)
    ensures DistinctFiles(rest) && (first.Opened? ==> first !in rest)
  {
    var all := [first] + rest;
    assert all[0] == first && forall i :: 0 <= i < |rest| ==> rest[i] == all[i + 1];
  }

  lemma CloseFilesOk(os: OS, first: Handle, rest: seq<Handle>)
    requires FilesOk(os.log, os.handles, [first] + rest)
    ensures FilesOk(CloseOne(os, first).log, os.handles, rest)
    ensures first.Opened? ==> Times(os.log, Closed, first.n) < Times(os.log, OpenedFile, first.n)
  {
    var files := [first] + rest;
    FirstOfDistinctFiles(first, rest);
    assert files[0] == first && forall i :: 0 <= i < |rest| ==> rest[i] == files[i + 1];
    forall n: nat ensures Times(CloseOne(os, first).log, OpenedFile, n) == One(n < os.handles)
                       && Times(CloseOne(os, first).log, Closed, n) == One(n < os.handles && Opened(n) !in rest)
    {
      assert Opened(n) in files <==> Opened(n) == first || Opened(n) in rest;
      if first.Opened? {
        EmitCounts(os, Close(first.n), OpenedFile, n);
        EmitCounts(os, Close(first.n), Closed, n);
      }
    }
  }

  lemma CloseOneAccounted(os: OS, piped: seq<nat>, first: Handle, rest: seq<Handle>)
    requires Accounted(os, piped, [first] + rest)
    ensures Accounted(CloseOne(os, first), piped, rest)
  {
    AccountedIsNeverEarly(os, piped, [first] + rest);
    CloseFilesOk(os, first, rest);
    if first.Opened? {
      EmitOrdered(os, Close(first.n));
      EmitKeepsProcesses(os, Close(first.n), piped);
    }
  }

  lemma {:induction false} WaitAllAccounted(os: OS, piped: seq<nat>, files: seq<Handle>)
    requires Accounted(os, piped, files)
    ensures Accounted(WaitAll(os, piped), [], files)
    decreases |piped|
  {
    if piped != [] {
      assert piped == [piped[0]] + piped[1..];
      WaitOneAccounted(os, piped[0], piped[1..], files);
      WaitAllAccounted(Emit(os, Wait(piped[0])), piped[1..], files);
    }
  }

  lemma {:induction false} CloseAllAccounted(os: OS, files: seq<Handle>)
    requires Accounted(os, [], files)
    ensures Accounted(CloseAll(os, files), [], [])
    decreases |files|
  {
    if files != [] {
      assert files == [files[0]] + files[1..];
      CloseOneAccounted(os, [], files[0], files[1..]);
      CloseAllAccounted(CloseOne(os, files[0]), files[1..]);
    }
  }

  // ------------------------------------------------------------ what is opened and finished

  /** An output file is opened for writing, except the null device under either of its names. */
  lemma OpensUnlessNull(st: Run, name: string)
    ensures OpenSink(st, File(name)).os.log ==
      if name == "/dev/null" || name == "NUL:" then st.os.log else st.os.log + [OpenFile(st.os.handles, name, true)]
    ensures TargetOf(st.os, File(name)) ==
      ToFile(if name == "/dev/null" || name == "NUL:" then DevNull else Opened(st.os.handles))
  {
  }

  ghost function Waits(pids: seq<nat>): seq<Event> {
    seq(|pids|, i requires 0 <= i < |pids| => Wait(pids[i]))
  }

  ghost function Closes(files: seq<Handle>): seq<Event> {
    if files == [] then [] else (if files[0].DevNull? then [] else [Close(files[0].n)]) + Closes(files[1..])
  }

  lemma {:induction false} WaitAllLogs(os: OS, pids: seq<nat>)
    ensures WaitAll(os, pids).log == os.log + Waits(pids)
    decreases |pids|
  {
    if pids != [] {
      WaitAllLogs(Emit(os, Wait(pids[0])), pids[1..]);
      assert Waits(pids) == [Wait(pids[0])] + Waits(pids[1..]);
      Assoc(os.log, [Wait(pids[0])], Waits(pids[1..]));
    }
  }

  lemma {:induction false} CloseAllLogs(os: OS, files: seq<Handle>)
    ensures CloseAll(os, files).log == os.log + Closes(files)
    decreases |files|
  {
    if files != [] {
      CloseAllLogs(CloseOne(os, files[0]), files[1..]);
      if files[0].Opened? {
        Assoc(os.log, [Close(files[0].n)], Closes(files[1..]));
      } else {
        assert [] + Closes(files[1..]) == Closes(files[1..]);
      }
    }
  }

  /** At the end of a group all its processes are waited for, in order, and only then are its files closed, in order. */
  lemma FinishLogs(st: Run)
    ensures Finish(st).os.log == st.os.log + Waits(st.piped) + Closes(st.files)
  {
    WaitAllLogs(st.os, st.piped);
    CloseAllLogs(WaitAll(st.os, st.piped), st.files);
  }

  ghost predicate RunAccounted(st: Run) {
    Accounted(st.os, st.piped, st.files)
  }

  lemma SinkAccounted(st: Run, sink: Sink)
    requires RunAccounted(st)
    ensures RunAccounted(OpenSink(st, sink))
  {
    if sink.File? {
      if IsNullDevice(sink.name) {
        NullAccounted(st.os, st.piped, st.files);
      } else {
        OpenAccounted(st.os, st.piped, st.files, sink.name, true);
      }
    }
  }

  lemma StdinAccounted(st: Run, stdin: Option<string>)
    requires RunAccounted(st)
    ensures RunAccounted(OpenStdin(st, stdin))
  {
    if !st.inPipe && stdin.Some? {
      OpenAccounted(st.os, st.piped, st.files, stdin.value, false);
    }
  }

  lemma LaunchAccounted(st: Run, e: Event)
    requires RunAccounted(st) && e.Spawn? && e.pid == st.os.pids
    ensures RunAccounted(Launch(st, e))
  {
    SpawnAccounted(st.os, st.piped, st.files, e);
  }

  lemma StartAccounted(st: Run, c: Node)
    requires RunAccounted(st) && c.Command? && (st.inPipe ==> st.piped != [])
    ensures RunAccounted(Start(st, c))
  {
    var a := OpenStdin(st, c.stdin);
    StdinAccounted(st, c.stdin);
    var b := OpenSink(a, c.stdout);
    SinkAccounted(a, c.stdout);
    var d := OpenSink(b, c.stderr);
    SinkAccounted(b, c.stderr);
    LaunchAccounted(d, Spawn(d.os.pids, c.argv, StdinOf(st, c.stdin), TargetOf(a.os, c.stdout),
      TargetOf(b.os, c.stderr), c.envVars, if st.cwd == "." then None else Some(st.cwd)));
  }

  lemma FinishAccounted(st: Run)
    requires RunAccounted(st)
    ensures RunAccounted(Finish(st))
  {
    WaitAllAccounted(st.os, st.piped, st.files);
    CloseAllAccounted(WaitAll(st.os, st.piped), st.files);
  }

  lemma {:induction false} RunKeepsAccounts(exits: Exits, nodes: seq<Node>, st: Run)
    requires Alternates(nodes) && (st.inPipe ==> st.piped != []) && RunAccounted(st)
    ensures var (end, outcome) := RunFrom(exits, nodes, st);
      RunAccounted(end) && (outcome.Returned? ==> end.piped == [] && end.files == [])
    decreases |nodes|
  {
    if nodes[0].Chdir? {
      if CanChdir(nodes) {
        RunKeepsAccounts(exits, nodes[2..], st.(cwd := Join(st.cwd, nodes[0].dir.value)));
      }
    } else {
      StartAccounted(st, nodes[0]);
      StartKeeps(st, nodes[0]);
      var s := Start(st, nodes[0]);
      FinishAccounted(s);
      if |nodes| > 1 {
        RunKeepsAccounts(exits, nodes[2..], if nodes[1].Pipe? then s.(inPipe := true) else Finish(s));
      }
    }
  }

  /** Each process is waited for once and each file closed once, never before being started or opened. */
  ghost predicate Tidy(os: OS) {
    && Ordered(os.log)
    && (forall n: nat :: Times(os.log, Spawned, n) == Times(os.log, Waited, n) == One(n < os.pids))
    && (forall n: nat :: Times(os.log, OpenedFile, n) == Times(os.log, Closed, n) == One(n < os.handles))
  }

  /**
    Every run that returns, by whatever exit, has waited once for each process it started and closed
    once each file it opened, never before starting or opening it.
  */
  lemma ReturnedRunIsTidy(exits: Exits, nodes: seq<Node>)
    requires Alternates(nodes) && RunFrom(exits, nodes, START).1.Returned?
    ensures Tidy(RunFrom(exits, nodes, START).0.os)
  {
    assert RunAccounted(START);
    RunKeepsAccounts(exits, nodes, START);
  }

  /** The processes started are those numbered below n, each once. */
  ghost predicate StartsExactly(log: seq<Event>, n: nat) {
    forall k: nat :: Times(log, Spawned, k) == One(k < n)
  }

  /** However the run ends, it has started the commands up to the group that decides it, each once. */
  lemma StartsUpToDecider(exits: Exits, nodes: seq<Node>)
    requires Alternates(nodes)
    ensures StartsExactly(RunFrom(exits, nodes, START).0.os.log, Started(exits, GroupsOf(nodes, 0)))
  {
    assert RunAccounted(START);
    RunKeepsAccounts(exits, nodes, START);
    RunEvaluatesRight(exits, nodes, START);
  }

  // ---------------------------------------------------------- each process is as commanded

  /** A command, the directory it runs in, and whether it reads from a pipe. */
  datatype Stage = Stage(cmd: Node, cwd: string, piped: bool)

  ghost function StagesOf(nodes: seq<Node>, cwd: string, piped: bool): seq<Stage>
    requires Alternates(nodes)
    decreases |nodes|
  {
    if nodes[0].Chdir? then if CanChdir(nodes) then StagesOf(nodes[2..], Join(cwd, nodes[0].dir.value), piped) else []
    else [Stage(nodes[0], cwd, piped)] + if |nodes| == 1 then [] else StagesOf(nodes[2..], cwd, nodes[1].Pipe?)
  }

  // ---------------------------------------------------------------- the directory of a stage

  predicate IsRelative(dir: string) {
    dir != "" && dir[0] != '/'
  }

  predicate EndsInSlash(dir: string) {
    dir != "" && dir[|dir| - 1] == '/'
  }

  /** The nodes of "cd d1 && cd d2 && ...". */
  ghost function Cds(dirs: seq<string>): seq<Node> {
    if dirs == [] then [] else [Chdir(Some(dirs[0])), And] + Cds(dirs[1..])
  }

  /** Each directory behind a slash. */
  ghost function Slashed(dirs: seq<string>): string {
    if dirs == [] then "" else "/" + dirs[0] + Slashed(dirs[1..])
  }

  lemma OneCd(dir: string, rest: seq<Node>)
    requires Alternates(rest)
    ensures var nodes := [Chdir(Some(dir)), And] + rest; nodes[2..] == rest && Alternates(nodes) && CanChdir(nodes)
  {
    assert ([Chdir(Some(dir)), And] + rest)[2..] == rest;
  }

  /** An absolute directory replaces the current one. */
  lemma AbsoluteCd(dir: string, rest: seq<Node>, cwd: string, piped: bool)
    requires Alternates(rest) && dir != "" && dir[0] == '/'
    ensures var nodes := [Chdir(Some(dir)), And] + rest;
      Alternates(nodes) && StagesOf(nodes, cwd, piped) == StagesOf(rest, dir, piped)
  {
    OneCd(dir, rest);
  }

  /** A relative one is put behind it, with one slash between them. */
  lemma RelativeCd(dir: string, rest: seq<Node>, cwd: string, piped: bool)
    requires Alternates(rest) && IsRelative(dir) && cwd != ""
    ensures var nodes := [Chdir(Some(dir)), And] + rest;
      && Alternates(nodes)
      && StagesOf(nodes, cwd, piped) ==
         StagesOf(rest, if EndsInSlash(cwd) then cwd + dir else cwd + "/" + dir, piped)
  {
    OneCd(dir, rest);
  }

  /** So relative directories add up: behind these cds, a command runs in all of them, one inside the other. */
  lemma {:induction false} CdsAddUp(dirs: seq<string>, rest: seq<Node>, cwd: string, piped: bool)
    requires Alternates(rest) && cwd != "" && !EndsInSlash(cwd)
    requires forall i :: 0 <= i < |dirs| ==> IsRelative(dirs[i]) && !EndsInSlash(dirs[i])
    ensures Alternates(Cds(dirs) + rest)
    ensures StagesOf(Cds(dirs) + rest, cwd, piped) == StagesOf(rest, cwd + Slashed(dirs), piped)
  {
    if dirs == [] {
      assert Cds(dirs) + rest == rest && cwd + Slashed(dirs) == cwd;
    } else {
      var more := Cds(dirs[1..]) + rest;
      Inside(cwd, dirs[0], Slashed(dirs[1..]));
      CdsAddUp(dirs[1..], rest, cwd + "/" + dirs[0], piped);
      RelativeCd(dirs[0], more, cwd, piped);
      Assoc([Chdir(Some(dirs[0])), And], Cds(dirs[1..]), rest);
    }
  }

  lemma Inside(cwd: string, dir: string, rest: string)
    requires IsRelative(dir) && !EndsInSlash(dir)
    ensures cwd + "/" + dir != "" && !EndsInSlash(cwd + "/" + dir)
    ensures cwd + "/" + dir + rest == cwd + ("/" + dir + rest)
  {
    Assoc(cwd, "/", dir);
    Assoc(cwd, "/" + dir, rest);
  }

  /** In particular, a command behind cds in a pipeline of its own. */
  lemma CommandRunsInside(dirs: seq<string>, c: Node)
    requires c.Command? && forall i :: 0 <= i < |dirs| ==> IsRelative(dirs[i]) && !EndsInSlash(dirs[i])
    ensures Alternates(Cds(dirs) + [c])
    ensures StagesOf(Cds(dirs) + [c], ".", false) == [Stage(c, "." + Slashed(dirs), false)]
  {
    CdsAddUp(dirs, [c], ".", false);
  }

  // ----------------------------------------------------------------- the streams of a stage

  ghost predicate SourceOk(log: seq<Event>, stage: Stage, e: Event)
    requires stage.cmd.Command? && e.Spawn?
  {
    if stage.piped then e.pid > 0 && e.stdin == FromPipe(e.pid - 1)
    else if stage.cmd.stdin.None? then e.stdin == Terminal
    else e.stdin.FromFile? && e.stdin.file.Opened? && OpenFile(e.stdin.file.n, stage.cmd.stdin.value, false) in log
  }

  ghost predicate TargetOk(log: seq<Event>, sink: Sink, t: Target) {
    match sink
    case Inherit => t == Default
    case PIPE => t == ToPipe
    case STDOUT => t == Target.ToStdout
    case File(name) =>
      if IsNullDevice(name) then t == ToFile(DevNull)
      else t.ToFile? && t.file.Opened? && OpenFile(t.file.n, name, true) in log
  }

  /** The process was started with the arguments, streams, environment and directory of its stage. */
  ghost predicate SpawnOk(log: seq<Event>, stage: Stage, e: Event) {
    && stage.cmd.Command? && e.Spawn? && e.argv == stage.cmd.argv && e.env == stage.cmd.envVars
    && e.cwd == (if stage.cwd == "." then None else Some(stage.cwd))
    && SourceOk(log, stage, e) && TargetOk(log, stage.cmd.stdout, e.stdout) && TargetOk(log, stage.cmd.stderr, e.stderr)
  }

  /** Every process from number `first` on is the one its stage calls for. */
  ghost predicate SpawnsMatch(log: seq<Event>, stages: seq<Stage>, first: nat) {
    forall i :: 0 <= i < |log| && log[i].Spawn? && log[i].pid >= first ==>
      log[i].pid - first < |stages| && SpawnOk(log, stages[log[i].pid - first], log[i])
  }

  lemma {:induction false} WaitAppends(os: OS, pids: seq<nat>)
    ensures os.log <= WaitAll(os, pids).log
    ensures forall i :: |os.log| <= i < |WaitAll(os, pids).log| ==> WaitAll(os, pids).log[i].Wait?
    decreases |pids|
  {
    if pids != [] {
      WaitAppends(Emit(os, Wait(pids[0])), pids[1..]);
    }
  }

  lemma {:induction false} CloseAppends(os: OS, files: seq<Handle>)
    ensures os.log <= CloseAll(os, files).log
    ensures forall i :: |os.log| <= i < |CloseAll(os, files).log| ==> CloseAll(os, files).log[i].Close?
    decreases |files|
  {
    if files != [] {
      CloseAppends(CloseOne(os, files[0]), files[1..]);
    }
  }

  /** `more` is `log` followed by events none of which starts a process. */
  ghost predicate NoSpawnAfter(log: seq<Event>, more: seq<Event>) {
    log <= more && forall i :: |log| <= i < |more| ==> !more[i].Spawn?
  }

  lemma FinishAppends(st: Run)
    ensures NoSpawnAfter(st.os.log, Finish(st).os.log)
  {
    WaitAppends(st.os, st.piped);
    CloseAppends(WaitAll(st.os, st.piped), st.files);
  }

  lemma SpawnOkGrows(log: seq<Event>, more: seq<Event>, stage: Stage, e: Event)
    requires log <= more && SpawnOk(log, stage, e)
    ensures SpawnOk(more, stage, e)
  {
    assert forall x :: x in log ==> x in more;
  }

  /** All process numbers in the log are below `pids`. */
  ghost predicate PidsBelow(log: seq<Event>, pids: nat) {
    forall i :: 0 <= i < |log| && log[i].Spawn? ==> log[i].pid < pids
  }

  /** `more` is `log`, then events that start no process, then the start of one process. */
  ghost predicate SpawnsLast(log: seq<Event>, more: seq<Event>) {
    && |log| < |more| && log <= more && more[|more| - 1].Spawn?
    && forall i :: |log| <= i < |more| - 1 ==> !more[i].Spawn?
  }

  /** The process before it in the pipe, if any, is the one started last. */
  ghost predicate PipeReady(st: Run) {
    st.inPipe ==> st.piped != [] && st.piped[|st.piped| - 1] + 1 == st.os.pids
  }

  lemma StdinAppends(st: Run, stdin: Option<string>)
    requires PipeReady(st)
    ensures var more := OpenStdin(st, stdin);
      && NoSpawnAfter(st.os.log, more.os.log) && more.os.pids == st.os.pids
      && (!st.inPipe && stdin.Some? ==> OpenFile(st.os.handles, stdin.value, false) in more.os.log)
  {
    if !st.inPipe && stdin.Some? {
      assert OpenStdin(st, stdin).os.log[|st.os.log|] == OpenFile(st.os.handles, stdin.value, false);
    }
  }

  lemma SinkAppends(st: Run, sink: Sink)
    ensures var more := OpenSink(st, sink);
      && NoSpawnAfter(st.os.log, more.os.log) && more.os.pids == st.os.pids
      && TargetOk(more.os.log, sink, TargetOf(st.os, sink))
  {
    var more := OpenSink(st, sink);
    if sink.File? && !IsNullDevice(sink.name) {
      assert more.os.log[|st.os.log|] == OpenFile(st.os.handles, sink.name, true);
    }
  }

  lemma TargetOkGrows(log: seq<Event>, more: seq<Event>, sink: Sink, t: Target)
    requires log <= more && TargetOk(log, sink, t)
    ensures TargetOk(more, sink, t)
  {
    assert forall x :: x in log ==> x in more;
  }

  lemma NoSpawnJoins(a: seq<Event>, b: seq<Event>, c: seq<Event>)
    requires NoSpawnAfter(a, b) && NoSpawnAfter(b, c)
    ensures NoSpawnAfter(a, c)
  {
  }

  lemma SpawnComesLast(log: seq<Event>, more: seq<Event>, e: Event)
    requires NoSpawnAfter(log, more) && e.Spawn?
    ensures SpawnsLast(log, more + [e]) && more <= more + [e] && (more + [e])[|more|] == e
    ensures forall x :: x in more ==> x in more + [e]
  {
  }

  /** Starting a command appends what it opens and then its process. */
  lemma StartSpawns(st: Run, c: Node)
    requires c.Command? && PipeReady(st)
    ensures var log := Start(st, c).os.log;
      && SpawnsLast(st.os.log, log) && log[|log| - 1].pid == st.os.pids
      && SpawnOk(log, Stage(c, st.cwd, st.inPipe), log[|log| - 1])
  {
    var a := OpenStdin(st, c.stdin);
    var b := OpenSink(a, c.stdout);
    var d := OpenSink(b, c.stderr);
    var log := Start(st, c).os.log;
    StdinAppends(st, c.stdin);
    SinkAppends(a, c.stdout);
    SinkAppends(b, c.stderr);
    NoSpawnJoins(st.os.log, a.os.log, b.os.log);
    NoSpawnJoins(st.os.log, b.os.log, d.os.log);
    SpawnComesLast(st.os.log, d.os.log, log[|log| - 1]);
    TargetOkGrows(b.os.log, log, c.stdout, TargetOf(a.os, c.stdout));
    TargetOkGrows(d.os.log, log, c.stderr, TargetOf(b.os, c.stderr));
    SourceOkGrows(a.os.log, log, Stage(c, st.cwd, st.inPipe), log[|log| - 1]);
  }

  lemma SourceOkGrows(log: seq<Event>, more: seq<Event>, stage: Stage, e: Event)
    requires stage.cmd.Command? && e.Spawn? && log <= more && SourceOk(log, stage, e)
    ensures SourceOk(more, stage, e)
  {
    assert forall x :: x in log ==> x in more;
  }

  /** Every later process has a number of at least `pids`. */
  ghost predicate NewPids(log: seq<Event>, more: seq<Event>, pids: nat) {
    log <= more && forall i :: |log| <= i < |more| && more[i].Spawn? ==> more[i].pid >= pids
  }

  /** Process k was started last in `log`, as `stage` says; what follows matches the later stages. */
  lemma NextStageMatches(old0: seq<Event>, log: seq<Event>, k: nat, stage: Stage,
                         mid: seq<Event>, more: seq<Event>, stages: seq<Stage>)
    requires PidsBelow(old0, k) && SpawnsLast(old0, log)
    requires log[|log| - 1].pid == k && SpawnOk(log, stage, log[|log| - 1])
    requires NoSpawnAfter(log, mid) && NewPids(mid, more, k + 1) && SpawnsMatch(more, stages, k + 1)
    ensures SpawnsMatch(more, [stage] + stages, k) && NewPids(old0, more, k)
  {
    var all := [stage] + stages;
    forall i | 0 <= i < |more| && more[i].Spawn? && more[i].pid >= k
      ensures more[i].pid - k < |all| && SpawnOk(more, all[more[i].pid - k], more[i])
    {
      if more[i].pid > k {
        assert all[more[i].pid - k] == stages[more[i].pid - (k + 1)];
      } else {
        assert i == |log| - 1;
        SpawnOkGrows(log, more, stage, more[i]);
      }
    }
  }

  /** The variables with which the loop goes on after a command. */
  lemma NextReady(st: Run, c: Node, next: Run)
    requires c.Command? && PipeReady(st) && PidsBelow(st.os.log, st.os.pids)
    requires next == Start(st, c).(inPipe := true) || next == Finish(Start(st, c))
    ensures PipeReady(next) && next.os.pids == st.os.pids + 1 && next.cwd == st.cwd
    ensures NoSpawnAfter(Start(st, c).os.log, next.os.log) && PidsBelow(next.os.log, next.os.pids)
  {
    var s := Start(st, c);
    StartKeeps(st, c);
    StartSpawns(st, c);
    FinishAppends(s);
    FinishedPids(s);
  }

  /** After a command, the rest of the run continues from `next` and ends with log `more`. */
  lemma StageThenRest(st: Run, c: Node, next: Run, more: seq<Event>, stages: seq<Stage>)
    requires c.Command? && PipeReady(st) && PidsBelow(st.os.log, st.os.pids)
    requires next == Start(st, c).(inPipe := true) || next == Finish(Start(st, c))
    requires NewPids(next.os.log, more, next.os.pids) && SpawnsMatch(more, stages, next.os.pids)
    ensures SpawnsMatch(more, [Stage(c, st.cwd, st.inPipe)] + stages, st.os.pids) &&
      NewPids(st.os.log, more, st.os.pids)
  {
    var k, log, stage := st.os.pids, Start(st, c).os.log, Stage(c, st.cwd, st.inPipe);
    NextReady(st, c, next);
    assert NoSpawnAfter(log, next.os.log) && NewPids(next.os.log, more, k + 1) && SpawnsMatch(more, stages, k + 1);
    StartSpawns(st, c);
    NextStageMatches(st.os.log, log, k, stage, next.os.log, more, stages);
  }

  lemma StageIsLast(st: Run, c: Node, stages: seq<Stage>)
    requires c.Command? && PipeReady(st) && PidsBelow(st.os.log, st.os.pids)
    ensures var more := Finish(Start(st, c)).os.log;
      SpawnsMatch(more, [Stage(c, st.cwd, st.inPipe)] + stages, st.os.pids) && NewPids(st.os.log, more, st.os.pids)
  {
    var next := Finish(Start(st, c));
    NextReady(st, c, next);
    StageThenRest(st, c, next, next.os.log, stages);
  }

  /** Each process of a run is started as its stage says; a piped one reads from the process just before it. */
  lemma {:induction false} RunMatchesStages(exits: Exits, nodes: seq<Node>, st: Run)
    requires Alternates(nodes) && PidsBelow(st.os.log, st.os.pids) && PipeReady(st)
    ensures var log := RunFrom(exits, nodes, st).0.os.log;
      SpawnsMatch(log, StagesOf(nodes, st.cwd, st.inPipe), st.os.pids) && NewPids(st.os.log, log, st.os.pids)
    decreases |nodes|
  {
    if nodes[0].Chdir? {
      if CanChdir(nodes) {
        RunMatchesStages(exits, nodes[2..], st.(cwd := Join(st.cwd, nodes[0].dir.value)));
      }
    } else {
      var s := Start(st, nodes[0]);
      var code := exits(s.piped[|s.piped| - 1]);
      var later := if |nodes| == 1 then [] else StagesOf(nodes[2..], st.cwd, nodes[1].Pipe?);
      if |nodes| == 1 || !(nodes[1].Pipe? || (nodes[1].And? <==> code == 0)) {
        StageIsLast(st, nodes[0], later);
      } else {
        var next := if nodes[1].Pipe? then s.(inPipe := true) else Finish(s);
        NextReady(st, nodes[0], next);
        RunMatchesStages(exits, nodes[2..], next);
        StageThenRest(st, nodes[0], next, RunFrom(exits, nodes[2..], next).0.os.log, later);
      }
    }
  }
}
