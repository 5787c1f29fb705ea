/**
  The parallel test runner of test.py: the main thread of run_tests, its worker threads,
  the two queues between them and the interrupt flag, as a step relation over all interleavings.
*/
module Dispatcher {
  import opened Prelude
  import opened Seqs

  /** A Job object, with the fields that steer the run; id numbers the jobs in dispatch order. */
  datatype Job = Job(id: int, isBreak: bool, isSkip: bool, returncode: int)

  /** The special job that tells one worker to stop. */
  const STOP := Job(-1, true, false, 0)

  /** One entry per job to dispatch, saying whether it is to be skipped; and the number of workers. */
  datatype Config = Config(skips: seq<bool>, processors: nat)

  /** Where a worker is in its loop. */
  datatype Worker =
    | AtGet
    | Holding(job: Job)
    | Running(job: Job)
    | ToPut(job: Job)
    | Exited

  /** Where the main thread is; the argument counts the turns of the current loop. */
  datatype Main =
    | Dispatching(k: nat)
    | Stopping(i: nat)
    | Collecting(n: nat)
    | Joining(t: nat)
    | Returned(code: int)

  datatype Tally = Tally(passed: nat, failed: nat, valgrind: nat, crashed: nat, skipped: nat)

  /**
    The last three fields record the past: how many jobs were got from the input, what main got back,
    and which jobs were really run, with the return code of each.
  */
  datatype State = State(main: Main, workers: seq<Worker>, input: seq<Job>, output: seq<Job>,
                         threadExit: bool, tally: Tally, taken: nat, collected: seq<Job>, ran: map<int, int>)

  datatype Step = MainStep | WorkerStep(w: nat, returncode: int) | Interrupt

  function NewJob(cfg: Config, i: int): Job {
    Job(i, false, 0 <= i < |cfg.skips| && cfg.skips[i], 0)
  }

  function Init(cfg: Config): State {
    State(Dispatching(0), seq(cfg.processors, _ => AtGet), [], [], false, Tally(0, 0, 0, 0, 0), 0, [], map[])
  }

  /** Lines 1691-1718: what main counts for a job it got back. */
  function Count(t: Tally, job: Job): Tally {
    if job.isBreak then t
    else if job.isSkip then t.(skipped := t.skipped + 1)
    else if job.returncode == 0 then t.(passed := t.passed + 1)
    else if job.returncode == 1 then t.(failed := t.failed + 1)
    else if job.returncode == 2 then t.(valgrind := t.valgrind + 1)
    else t.(crashed := t.crashed + 1)
  }

  function MainTurn(cfg: Config, s: State): Option<State> {
    match s.main
    case Dispatching(k) =>
      if k < |cfg.skips| then Some(s.(input := s.input + [NewJob(cfg, k)], main := Dispatching(k + 1)))
      else Some(s.(main := Stopping(0)))
    case Stopping(i) =>
      if i < cfg.processors then Some(s.(input := s.input + [STOP], main := Stopping(i + 1)))
      else Some(s.(main := Collecting(0)))
    case Collecting(n) =>
      if n >= |cfg.skips| then Some(s.(main := Joining(0)))
      else if s.output == [] then None
      else Some(s.(output := s.output[1..], tally := Count(s.tally, s.output[0]),
                   collected := s.collected + [s.output[0]], main := Collecting(n + 1)))
    case Joining(t) =>
      if t >= |s.workers| then
        Some(s.(main := Returned(if s.tally.passed + s.tally.skipped == |cfg.skips| then 0 else 1)))
      else if s.workers[t].Exited? then Some(s.(main := Joining(t + 1)))
      else None
    case Returned(_) => None
  }

  /** One turn of worker w; returncode is what run_job_synchronously gives if it is called. */
  function WorkerTurn(s: State, w: nat, returncode: int): Option<State> {
    if w >= |s.workers| then None else
      match s.workers[w]
      case AtGet =>
        if s.input == [] then None
        else Some(s.(input := s.input[1..], workers := s.workers[w := Holding(s.input[0])],
                     taken := s.taken + if s.input[0].isBreak then 0 else 1))
      case Holding(job) =>
        if job.isBreak then Some(s.(workers := s.workers[w := Exited]))
        else if s.threadExit then Some(s.(workers := s.workers[w := ToPut(job.(isBreak := true))]))
        else if job.isSkip then Some(s.(workers := s.workers[w := ToPut(job)]))
        else Some(s.(workers := s.workers[w := Running(job)]))
      case Running(job) =>
        Some(s.(workers := s.workers[w := ToPut(job.(returncode := returncode))], ran := s.ran[job.id := returncode]))
      case ToPut(job) =>
        Some(s.(output := s.output + [job], workers := s.workers[w := AtGet]))
      case Exited => None
  }

  function Take(cfg: Config, s: State, step: Step): Option<State> {
    match step
    case MainStep => MainTurn(cfg, s)
    case WorkerStep(w, returncode) => WorkerTurn(s, w, returncode)
    case Interrupt => if s.threadExit then None else Some(s.(threadExit := true))
  }

  ghost predicate Next(cfg: Config, s: State, s': State) {
    exists step :: Take(cfg, s, step) == Some(s')
  }

  /** Any interleaving whatever of main, the workers and the interrupt. */
  ghost predicate IsRun(cfg: Config, run: seq<State>) {
    && run != [] && run[0] == Init(cfg)
    && forall i, j :: 0 <= i && j == i + 1 && j < |run| ==> Next(cfg, run[i], run[j])
  }

  // ------------------------------------------------------------------------ bookkeeping

  function Dispatched(cfg: Config, m: Main): nat {
    if m.Dispatching? then m.k else |cfg.skips|
  }

  function StopsPut(cfg: Config, m: Main): nat {
    match m
    case Dispatching(_) => 0
    case Stopping(i) => i
    case _ => cfg.processors
  }

  /** 1 if the worker has taken job id and not yet put it out, else 0. */
  ghost function Holds(w: Worker, id: int): nat {
    if w.AtGet? || w.Exited? || (w.Holding? && w.job.isBreak) || w.job.id != id then 0 else 1
  }

  ghost function HeldCount(ws: seq<Worker>, id: int): nat {
    if ws == [] then 0 else Holds(ws[0], id) + HeldCount(ws[1..], id)
  }

  /** How many entries of a list of jobs are job id. */
  ghost function Times(jobs: seq<Job>, id: int): nat {
    if jobs == [] then 0 else Times(jobs[..|jobs| - 1], id) + if jobs[|jobs| - 1].id == id then 1 else 0
  }

  /** How many stop jobs a worker has taken. */
  ghost function StopsOf(w: Worker): nat {
    if w.Exited? || (w.Holding? && w.job.isBreak) then 1 else 0
  }

  ghost function StopsTaken(ws: seq<Worker>): nat {
    if ws == [] then 0 else StopsOf(ws[0]) + StopsTaken(ws[1..])
  }

  ghost function BusyOf(w: Worker): nat {
    if w.AtGet? || w.Exited? || (w.Holding? && w.job.isBreak) then 0 else 1
  }

  /** How many workers have a job in hand. */
  ghost function Busy(ws: seq<Worker>): nat {
    if ws == [] then 0 else BusyOf(ws[0]) + Busy(ws[1..])
  }

  /** Turns the worker can still take before it is back at its get or has exited. */
  ghost function TurnsOf(w: Worker): nat {
    match w
    case AtGet => 0
    case Holding(job) => if job.isBreak then 1 else 3
    case Running(_) => 2
    case ToPut(_) => 1
    case Exited => 0
  }

  ghost function TurnsHeld(ws: seq<Worker>): nat {
    if ws == [] then 0 else TurnsOf(ws[0]) + TurnsHeld(ws[1..])
  }

  lemma {:induction false} UpdateHeld(ws: seq<Worker>, w: nat, x: Worker, id: int)
    requires w < |ws|
    ensures HeldCount(ws[w := x], id) == HeldCount(ws, id) - Holds(ws[w], id) + Holds(x, id)
  {
    var u := ws[w := x];
    if w == 0 {
      assert u[1..] == ws[1..];
    } else {
      UpdateHeld(ws[1..], w - 1, x, id);
      assert u[1..] == ws[1..][w - 1 := x];
    }
  }

  lemma {:induction false} UpdateCounts(ws: seq<Worker>, w: nat, x: Worker)
    requires w < |ws|
    ensures StopsTaken(ws[w := x]) == StopsTaken(ws) - StopsOf(ws[w]) + StopsOf(x)
    ensures Busy(ws[w := x]) == Busy(ws) - BusyOf(ws[w]) + BusyOf(x)
    ensures TurnsHeld(ws[w := x]) == TurnsHeld(ws) - TurnsOf(ws[w]) + TurnsOf(x)
  {
    var u := ws[w := x];
    if w == 0 {
      assert u[1..] == ws[1..];
    } else {
      UpdateCounts(ws[1..], w - 1, x);
      assert u[1..] == ws[1..][w - 1 := x];
    }
  }

  lemma TimesAppend(jobs: seq<Job>, job: Job, id: int)
    ensures Times(jobs + [job], id) == Times(jobs, id) + if job.id == id then 1 else 0
  {
    assert (jobs + [job])[..|jobs|] == jobs;
  }

  lemma {:induction false} TimesDropFirst(jobs: seq<Job>, id: int)
    requires jobs != []
    ensures Times(jobs[1..], id) == Times(jobs, id) - if jobs[0].id == id then 1 else 0
  {
    if |jobs| > 1 {
      var init := jobs[..|jobs| - 1];
      TimesDropFirst(init, id);
      assert jobs[1..][..|jobs| - 2] == init[1..];
    }
  }

  // ------------------------------------------------------------------------- invariant

  /**
    The input queue holds the jobs that are dispatched and not yet taken, in dispatch order, and
    behind them the stop jobs not yet taken. No stop job is taken while a job waits.
  */
  ghost predicate InputInv(cfg: Config, s: State) {
    var waiting := Dispatched(cfg, s.main) - s.taken;
    var stops := StopsTaken(s.workers);
    && |s.workers| == cfg.processors
    && 0 <= waiting && Dispatched(cfg, s.main) <= |cfg.skips|
    && stops <= StopsPut(cfg, s.main) <= cfg.processors
    && (stops > 0 ==> s.taken == |cfg.skips|)
    && |s.input| == waiting + StopsPut(cfg, s.main) - stops
    && forall i :: 0 <= i < |s.input| ==> s.input[i] == if i < waiting then NewJob(cfg, s.taken + i) else STOP
  }

  /** A dispatched job that says truly what became of it: interrupted, skipped, or run with this return code. */
  ghost predicate IsOutcome(cfg: Config, threadExit: bool, ran: map<int, int>, job: Job) {
    && 0 <= job.id < |cfg.skips| && job.isSkip == cfg.skips[job.id]
    && (job.isBreak ==> threadExit)
    && if job.isBreak || job.isSkip then job.id !in ran else job.id in ran && ran[job.id] == job.returncode
  }

  ghost predicate WorkerInv(cfg: Config, threadExit: bool, ran: map<int, int>, w: Worker) {
    match w
    case Holding(job) => job.isBreak || (0 <= job.id < |cfg.skips| && job == NewJob(cfg, job.id) && job.id !in ran)
    case Running(job) => 0 <= job.id < |cfg.skips| && job == NewJob(cfg, job.id) && !job.isSkip && job.id !in ran
    case ToPut(job) => IsOutcome(cfg, threadExit, ran, job)
    case _ => true
  }

  ghost predicate JobsInv(cfg: Config, s: State) {
    && (forall id :: id in s.ran ==> 0 <= id < s.taken)
    && (forall w :: 0 <= w < |s.workers| ==> WorkerInv(cfg, s.threadExit, s.ran, s.workers[w]))
    && (forall i :: 0 <= i < |s.output| ==> IsOutcome(cfg, s.threadExit, s.ran, s.output[i]))
    && (forall i :: 0 <= i < |s.collected| ==> IsOutcome(cfg, s.threadExit, s.ran, s.collected[i]))
  }

  /** Each job taken is in exactly one place: with a worker, in the output queue, or collected. */
  ghost predicate Conservation(s: State) {
    && Busy(s.workers) + |s.output| + |s.collected| == s.taken
    && forall id :: Places(s, id) == if 0 <= id < s.taken then 1 else 0
  }

  ghost function Places(s: State, id: int): nat {
    HeldCount(s.workers, id) + Times(s.output, id) + Times(s.collected, id)
  }

  ghost function TallyOf(jobs: seq<Job>): Tally {
    if jobs == [] then Tally(0, 0, 0, 0, 0) else Count(TallyOf(jobs[..|jobs| - 1]), jobs[|jobs| - 1])
  }

  ghost predicate MainInv(cfg: Config, s: State) {
    && s.tally == TallyOf(s.collected)
    && match s.main
       case Dispatching(_) => s.collected == []
       case Stopping(_) => s.collected == []
       case Collecting(n) => |s.collected| == n <= |cfg.skips|
       case Joining(t) =>
         && |s.collected| == |cfg.skips| && t <= |s.workers|
         && forall w :: 0 <= w < t ==> s.workers[w].Exited?
       case Returned(code) =>
         && |s.collected| == |cfg.skips|
         && (forall w :: 0 <= w < |s.workers| ==> s.workers[w].Exited?)
         && code == if s.tally.passed + s.tally.skipped == |cfg.skips| then 0 else 1
  }

  ghost predicate Inv(cfg: Config, s: State) {
    InputInv(cfg, s) && JobsInv(cfg, s) && Conservation(s) && MainInv(cfg, s)
  }

  lemma InitInv(cfg: Config)
    ensures Inv(cfg, Init(cfg))
  {
    IdleWorkers(cfg.processors, 0);
    forall id ensures Places(Init(cfg), id) == 0 {
      IdleWorkers(cfg.processors, id);
    }
  }

  lemma {:induction false} IdleWorkers(n: nat, id: int)
    ensures var ws := seq(n, _ => AtGet); HeldCount(ws, id) == Busy(ws) == StopsTaken(ws) == TurnsHeld(ws) == 0
  {
    if n > 0 {
      IdleWorkers(n - 1, id);
      assert seq(n, _ => AtGet)[1..] == seq(n - 1, _ => AtGet);
    }
  }

  // -------------------------------------------------------------------- every step keeps it

  lemma PutJobKeepsInput(cfg: Config, s: State, s': State)
    requires InputInv(cfg, s) && s.main.Dispatching? && s.main.k < |cfg.skips|
    requires s' == s.(input := s.input + [NewJob(cfg, s.main.k)], main := Dispatching(s.main.k + 1))
    ensures InputInv(cfg, s')
  {
  }

  lemma PutStopKeepsInput(cfg: Config, s: State, s': State)
    requires InputInv(cfg, s) && s.main.Stopping? && s.main.i < cfg.processors
    requires s' == s.(input := s.input + [STOP], main := Stopping(s.main.i + 1))
    ensures InputInv(cfg, s')
  {
  }

  lemma QueueKeepsInput(cfg: Config, s: State, s': State)
    requires InputInv(cfg, s) && s'.input == s.input && s'.workers == s.workers && s'.taken == s.taken
    requires Dispatched(cfg, s'.main) == Dispatched(cfg, s.main) && StopsPut(cfg, s'.main) == StopsPut(cfg, s.main)
    ensures InputInv(cfg, s')
  {
  }

  lemma MainKeepsInput(cfg: Config, s: State, s': State)
    requires InputInv(cfg, s) && MainTurn(cfg, s) == Some(s')
    ensures InputInv(cfg, s')
  {
    if s.main.Dispatching? && s.main.k < |cfg.skips| {
      PutJobKeepsInput(cfg, s, s');
    } else if s.main.Stopping? && s.main.i < cfg.processors {
      PutStopKeepsInput(cfg, s, s');
    } else {
      QueueKeepsInput(cfg, s, s');
    }
  }

  lemma CollectKeepsRest(cfg: Config, s: State, s': State)
    requires Inv(cfg, s) && MainTurn(cfg, s) == Some(s')
    requires s.main.Collecting? && s.main.n < |cfg.skips|
    ensures JobsInv(cfg, s') && Conservation(s') && MainInv(cfg, s')
  {
    var job := s.output[0];
    assert s' == s.(output := s.output[1..], tally := Count(s.tally, job), collected := s.collected + [job],
                    main := Collecting(s.main.n + 1));
    CollectKeepsJobs(cfg, s, s');
    CollectKeepsPlaces(s, s');
    CollectKeepsTally(s.collected, job);
  }

  lemma CollectKeepsJobs(cfg: Config, s: State, s': State)
    requires JobsInv(cfg, s) && s.output != []
    requires s'.output == s.output[1..] && s'.collected == s.collected + [s.output[0]]
    requires s'.workers == s.workers && s'.ran == s.ran && s'.threadExit == s.threadExit && s'.taken == s.taken
    ensures JobsInv(cfg, s')
  {
    assert forall i :: 0 <= i < |s'.output| ==> s'.output[i] == s.output[i + 1];
  }

  /** A job moves from the output queue to what main has collected. */
  lemma CollectKeepsPlaces(s: State, s': State)
    requires Conservation(s) && s.output != [] && s'.workers == s.workers && s'.taken == s.taken
    requires s'.output == s.output[1..] && s'.collected == s.collected + [s.output[0]]
    ensures Conservation(s')
  {
    forall id ensures Places(s', id) == Places(s, id) {
      TimesAppend(s.collected, s.output[0], id);
      TimesDropFirst(s.output, id);
    }
  }

  lemma CollectKeepsTally(jobs: seq<Job>, job: Job)
    ensures TallyOf(jobs + [job]) == Count(TallyOf(jobs), job)
  {
    AppendInit(jobs, job);
  }

  lemma MainKeepsRest(cfg: Config, s: State, s': State)
    requires JobsInv(cfg, s) && Conservation(s) && MainInv(cfg, s) && MainTurn(cfg, s) == Some(s')
    requires !(s.main.Collecting? && s.main.n < |cfg.skips|)
    ensures JobsInv(cfg, s') && Conservation(s') && MainInv(cfg, s')
  {
    assert s' == s.(main := s'.main, input := s'.input);
    OutsideMainKept(cfg, s, s');
  }

  lemma OutsideMainKept(cfg: Config, s: State, s': State)
    requires JobsInv(cfg, s) && Conservation(s) && s' == s.(main := s'.main, input := s'.input)
    ensures JobsInv(cfg, s') && Conservation(s')
  {
    forall id ensures Places(s', id) == Places(s, id) {}
  }

  lemma GetKeepsInput(cfg: Config, s: State, w: nat, s': State)
    requires InputInv(cfg, s) && w < |s.workers| && s.workers[w].AtGet?
    requires WorkerTurn(s, w, 0) == Some(s')
    ensures InputInv(cfg, s')
  {
    UpdateCounts(s.workers, w, Holding(s.input[0]));
    forall i | 0 <= i < |s'.input| ensures s'.input[i] == s.input[i + 1] {}
  }

  lemma GetKeepsConservation(cfg: Config, s: State, w: nat, s': State)
    requires InputInv(cfg, s) && Conservation(s) && w < |s.workers| && s.workers[w].AtGet?
    requires WorkerTurn(s, w, 0) == Some(s')
    ensures Conservation(s')
  {
    UpdateCounts(s.workers, w, Holding(s.input[0]));
    forall id ensures Places(s', id) == if 0 <= id < s'.taken then 1 else 0 {
      UpdateHeld(s.workers, w, Holding(s.input[0]), id);
      assert Places(s, id) == if 0 <= id < s.taken then 1 else 0;
    }
  }

  /** After the get, a worker's turn touches nothing but its own state, the output queue and the record of runs. */
  lemma WorkStaysLocal(s: State, w: nat, returncode: int, s': State)
    requires w < |s.workers| && !s.workers[w].AtGet? && WorkerTurn(s, w, returncode) == Some(s')
    ensures |s'.workers| == |s.workers|
    ensures s' == s.(workers := s.workers[w := s'.workers[w]], output := s'.output, ran := s'.ran)
    ensures StopsOf(s'.workers[w]) == StopsOf(s.workers[w])
    ensures TurnsOf(s'.workers[w]) < TurnsOf(s.workers[w])
  {
  }

  lemma WorkKeepsInput(cfg: Config, s: State, w: nat, returncode: int, s': State)
    requires InputInv(cfg, s) && w < |s.workers| && !s.workers[w].AtGet?
    requires WorkerTurn(s, w, returncode) == Some(s')
    ensures InputInv(cfg, s')
  {
    WorkStaysLocal(s, w, returncode, s');
    UpdateCounts(s.workers, w, s'.workers[w]);
  }

  /** A job leaves a worker's hands exactly when it enters the output queue. */
  lemma WorkHandsOver(s: State, w: nat, returncode: int, s': State, id: int)
    requires w < |s.workers| && !s.workers[w].AtGet? && WorkerTurn(s, w, returncode) == Some(s')
    ensures BusyOf(s'.workers[w]) + |s'.output| == BusyOf(s.workers[w]) + |s.output|
    ensures Holds(s'.workers[w], id) + Times(s'.output, id) == Holds(s.workers[w], id) + Times(s.output, id)
  {
    if s.workers[w].ToPut? {
      TimesAppend(s.output, s.workers[w].job, id);
    }
  }

  lemma WorkKeepsConservation(cfg: Config, s: State, w: nat, returncode: int, s': State)
    requires Conservation(s) && w < |s.workers| && !s.workers[w].AtGet?
    requires WorkerTurn(s, w, returncode) == Some(s')
    ensures Conservation(s')
  {
    WorkStaysLocal(s, w, returncode, s');
    UpdateCounts(s.workers, w, s'.workers[w]);
    WorkHandsOver(s, w, returncode, s', 0);
    forall id ensures Places(s', id) == Places(s, id) {
      UpdateHeld(s.workers, w, s'.workers[w], id);
      WorkHandsOver(s, w, returncode, s', id);
    }
  }

  lemma {:induction false} HeldTwice(ws: seq<Worker>, v: nat, w: nat, id: int)
    requires w < |ws| && v < |ws|
    ensures HeldCount(ws, id) >= Holds(ws[w], id)
    ensures v != w ==> HeldCount(ws, id) >= Holds(ws[v], id) + Holds(ws[w], id)
  {
    if |ws| > 1 {
      HeldTwice(ws[1..], if v == 0 then 0 else v - 1, if w == 0 then 0 else w - 1, id);
    }
  }

  lemma {:induction false} TimesAtLeastOnce(jobs: seq<Job>, i: nat)
    requires i < |jobs|
    ensures Times(jobs, jobs[i].id) >= 1
  {
    if i < |jobs| - 1 {
      TimesAtLeastOnce(jobs[..|jobs| - 1], i);
    }
  }

  /** A job that one worker has is nowhere else. */
  lemma NowhereElse(s: State, w: nat, id: int)
    requires Conservation(s) && w < |s.workers| && Holds(s.workers[w], id) == 1
    ensures 0 <= id < s.taken
    ensures forall v :: 0 <= v < |s.workers| && v != w ==> Holds(s.workers[v], id) == 0
    ensures forall i :: 0 <= i < |s.output| ==> s.output[i].id != id
    ensures forall i :: 0 <= i < |s.collected| ==> s.collected[i].id != id
  {
    assert Places(s, id) <= 1;
    HeldTwice(s.workers, w, w, id);
    forall v | 0 <= v < |s.workers| && v != w ensures Holds(s.workers[v], id) == 0 {
      HeldTwice(s.workers, v, w, id);
    }
    forall i | 0 <= i < |s.output| ensures s.output[i].id != id {
      TimesAtLeastOnce(s.output, i);
    }
    forall i | 0 <= i < |s.collected| ensures s.collected[i].id != id {
      TimesAtLeastOnce(s.collected, i);
    }
  }

  /** Running a job changes what is known of that job alone. */
  lemma RunKeepsJobs(cfg: Config, s: State, w: nat, returncode: int, s': State)
    requires Conservation(s) && JobsInv(cfg, s) && WorkerTurn(s, w, returncode) == Some(s')
    requires s.workers[w].Running?
    ensures JobsInv(cfg, s')
  {
    var id := s.workers[w].job.id;
    assert WorkerInv(cfg, s.threadExit, s.ran, s.workers[w]);
    NowhereElse(s, w, id);
    forall v | 0 <= v < |s.workers| ensures WorkerInv(cfg, s.threadExit, s'.ran, s'.workers[v]) {
      assert WorkerInv(cfg, s.threadExit, s.ran, s.workers[v]);
      assert v != w ==> s'.workers[v] == s.workers[v];
    }
  }

  lemma WorkerKeepsJobs(cfg: Config, s: State, w: nat, returncode: int, s': State)
    requires InputInv(cfg, s) && JobsInv(cfg, s) && WorkerTurn(s, w, returncode) == Some(s')
    requires !s.workers[w].Running?
    ensures JobsInv(cfg, s')
  {
    assert WorkerInv(cfg, s.threadExit, s.ran, s.workers[w]);
    assert s'.workers == s.workers[w := s'.workers[w]] && s'.ran == s.ran;
    assert WorkerInv(cfg, s.threadExit, s.ran, s'.workers[w]);
  }

  lemma WorkerKeepsMain(cfg: Config, s: State, w: nat, returncode: int, s': State)
    requires MainInv(cfg, s) && WorkerTurn(s, w, returncode) == Some(s')
    ensures MainInv(cfg, s')
  {
    assert s'.workers == s.workers[w := s'.workers[w]];
  }

  lemma InterruptKeepsInv(cfg: Config, s: State, s': State)
    requires Inv(cfg, s) && s' == s.(threadExit := true)
    ensures Inv(cfg, s')
  {
    forall id ensures Places(s', id) == Places(s, id) {}
    forall w | 0 <= w < |s.workers| ensures WorkerInv(cfg, true, s.ran, s'.workers[w]) {
      assert WorkerInv(cfg, s.threadExit, s.ran, s.workers[w]);
    }
  }

  lemma StepKeepsInv(cfg: Config, s: State, step: Step, s': State)
    requires Inv(cfg, s) && Take(cfg, s, step) == Some(s')
    ensures Inv(cfg, s')
  {
    match step
    case MainStep =>
      MainKeepsInput(cfg, s, s');
      if s.main.Collecting? && s.main.n < |cfg.skips| {
        CollectKeepsRest(cfg, s, s');
      } else {
        MainKeepsRest(cfg, s, s');
      }
    case WorkerStep(w, returncode) =>
      if s.workers[w].Running? {
        RunKeepsJobs(cfg, s, w, returncode, s');
      } else {
        WorkerKeepsJobs(cfg, s, w, returncode, s');
      }
      WorkerKeepsMain(cfg, s, w, returncode, s');
      if s.workers[w].AtGet? {
        GetKeepsInput(cfg, s, w, s');
        GetKeepsConservation(cfg, s, w, s');
      } else {
        WorkKeepsInput(cfg, s, w, returncode, s');
        WorkKeepsConservation(cfg, s, w, returncode, s');
      }
    case Interrupt =>
      InterruptKeepsInv(cfg, s, s');
  }

  lemma {:induction false} RunKeepsInv(cfg: Config, run: seq<State>, i: nat)
    requires IsRun(cfg, run) && i < |run|
    ensures Inv(cfg, run[i])
  {
    if i == 0 {
      InitInv(cfg);
    } else {
      RunKeepsInv(cfg, run, i - 1);
      assert Next(cfg, run[i - 1], run[i]);
      var step :| Take(cfg, run[i - 1], step) == Some(run[i]);
      StepKeepsInv(cfg, run[i - 1], step, run[i]);
    }
  }

  // --------------------------------------------------------------------------- safety

  lemma {:induction false} OneWorkersStops(ws: seq<Worker>, w: nat)
    requires w < |ws|
    ensures StopsOf(ws[w]) <= StopsTaken(ws) <= |ws| - 1 + StopsOf(ws[w])
  {
    if ws != [] {
      if w > 0 {
        OneWorkersStops(ws[1..], w - 1);
      } else if |ws| > 1 {
        OneWorkersStops(ws[1..], 0);
      }
    }
  }

  lemma {:induction false} ExitedHoldNothing(ws: seq<Worker>, id: int)
    requires forall w :: 0 <= w < |ws| ==> ws[w].Exited?
    ensures HeldCount(ws, id) == 0 && Busy(ws) == 0
  {
    if ws != [] {
      ExitedHoldNothing(ws[1..], id);
    }
  }

  /** At every moment of every run: no job is out twice, and nothing but dispatched jobs comes out. */
  lemma NeverTwiceNoStopOut(cfg: Config, run: seq<State>, i: nat, id: int)
    requires IsRun(cfg, run) && i < |run|
    ensures Times(run[i].output, id) + Times(run[i].collected, id) <= 1
    ensures forall n :: 0 <= n < |run[i].output| ==> 0 <= run[i].output[n].id < |cfg.skips|
    ensures forall n :: 0 <= n < |run[i].collected| ==> 0 <= run[i].collected[n].id < |cfg.skips|
  {
    RunKeepsInv(cfg, run, i);
    assert Places(run[i], id) <= 1;
  }

  /** No worker has exited while a job is still waiting in the input queue. */
  lemma NoExitBeforeLastJob(cfg: Config, run: seq<State>, i: nat, w: nat)
    requires IsRun(cfg, run) && i < |run| && w < |run[i].workers| && run[i].workers[w].Exited?
    ensures run[i].taken == |cfg.skips|
    ensures forall n :: 0 <= n < |run[i].input| ==> run[i].input[n] == STOP
  {
    RunKeepsInv(cfg, run, i);
    OneWorkersStops(run[i].workers, w);
  }

  /** When main returns, it has collected every job exactly once, and every worker has exited. */
  lemma ReturnedCollectsEachOnce(cfg: Config, run: seq<State>, i: nat)
    requires IsRun(cfg, run) && i < |run| && run[i].main.Returned?
    ensures |run[i].collected| == |cfg.skips|
    ensures forall id :: Times(run[i].collected, id) == if 0 <= id < |cfg.skips| then 1 else 0
    ensures run[i].output == [] && forall w :: 0 <= w < |run[i].workers| ==> run[i].workers[w].Exited?
  {
    var s := run[i];
    RunKeepsInv(cfg, run, i);
    ExitedHoldNothing(s.workers, 0);
    forall id ensures Times(s.collected, id) == if 0 <= id < |cfg.skips| then 1 else 0 {
      ExitedHoldNothing(s.workers, id);
      assert Places(s, id) == Times(s.collected, id);
    }
  }

  // ----------------------------------------------------------------------- accounting

  /** Jobs handed back because of the interrupt; main does not count them. */
  ghost function Interrupted(jobs: seq<Job>): nat {
    if jobs == [] then 0
    else Interrupted(jobs[..|jobs| - 1]) + if jobs[|jobs| - 1].isBreak then 1 else 0
  }

  ghost predicate IsGood(job: Job) {
    !job.isBreak && (job.isSkip || job.returncode == 0)
  }

  lemma {:induction false} TallyAddsUp(jobs: seq<Job>)
    ensures var t := TallyOf(jobs);
      && t.passed + t.failed + t.valgrind + t.crashed + t.skipped + Interrupted(jobs) == |jobs|
      && (t.passed + t.skipped == |jobs| <==> forall i :: 0 <= i < |jobs| ==> IsGood(jobs[i]))
  {
    if jobs != [] {
      var init, last := jobs[..|jobs| - 1], jobs[|jobs| - 1];
      TallyAddsUp(init);
      assert jobs == init + [last];
    }
  }

  /** The counters account for every job, and the runner returns 0 exactly when no job went wrong. */
  lemma ReturnedAccounts(cfg: Config, run: seq<State>, i: nat)
    requires IsRun(cfg, run) && i < |run| && run[i].main.Returned?
    ensures var t := run[i].tally;
      t.passed + t.failed + t.valgrind + t.crashed + t.skipped + Interrupted(run[i].collected) == |cfg.skips|
    ensures run[i].main.code == 0 || run[i].main.code == 1
    ensures run[i].main.code == 0 <==>
      forall n :: 0 <= n < |run[i].collected| ==> IsGood(run[i].collected[n])
    ensures !run[i].threadExit ==> Interrupted(run[i].collected) == 0
  {
    RunKeepsInv(cfg, run, i);
    TallyAddsUp(run[i].collected);
    if !run[i].threadExit {
      InterruptedNone(run[i].collected);
    }
  }

  lemma {:induction false} TimesFinds(jobs: seq<Job>, id: int) returns (n: nat)
    requires Times(jobs, id) >= 1
    ensures n < |jobs| && jobs[n].id == id
  {
    if jobs[|jobs| - 1].id == id {
      n := |jobs| - 1;
    } else {
      n := TimesFinds(jobs[..|jobs| - 1], id);
    }
  }

  lemma {:induction false} InterruptedNone(jobs: seq<Job>)
    ensures Interrupted(jobs) == 0 <==> forall i :: 0 <= i < |jobs| ==> !jobs[i].isBreak
  {
    if jobs != [] {
      InterruptedNone(jobs[..|jobs| - 1]);
      assert jobs == jobs[..|jobs| - 1] + [jobs[|jobs| - 1]];
    }
  }

  /**
    In terms of what was really run: 0 means that nothing was interrupted and every job not to be
    skipped ran and gave 0.
  */
  lemma ReturnsZeroIffAllRan(cfg: Config, run: seq<State>, i: nat)
    requires IsRun(cfg, run) && i < |run| && run[i].main.Returned?
    ensures run[i].main.code == 0 <==>
      && Interrupted(run[i].collected) == 0
      && forall id :: 0 <= id < |cfg.skips| && !cfg.skips[id] ==> id in run[i].ran && run[i].ran[id] == 0
    ensures forall id :: 0 <= id < |cfg.skips| && cfg.skips[id] ==> id !in run[i].ran
  {
    var s := run[i];
    RunKeepsInv(cfg, run, i);
    ReturnedAccounts(cfg, run, i);
    ReturnedCollectsEachOnce(cfg, run, i);
    InterruptedNone(s.collected);
    forall id | 0 <= id < |cfg.skips|
      ensures cfg.skips[id] ==> id !in s.ran
      ensures s.main.code == 0 && !cfg.skips[id] ==> id in s.ran && s.ran[id] == 0
    {
      var n := TimesFinds(s.collected, id);
      assert IsOutcome(cfg, s.threadExit, s.ran, s.collected[n]);
      assert s.main.code == 0 ==> IsGood(s.collected[n]);
    }
    forall n | 0 <= n < |s.collected| && !IsGood(s.collected[n]) && !s.collected[n].isBreak
      ensures exists id :: 0 <= id < |cfg.skips| && !cfg.skips[id] && !(id in s.ran && s.ran[id] == 0)
    {
      var id := s.collected[n].id;
      assert IsOutcome(cfg, s.threadExit, s.ran, s.collected[n]);
      assert !cfg.skips[id];
    }
  }

  /** Which kind of result a return code is. */
  datatype Verdict = Passed | Failed | Valgrind | Crashed

  ghost predicate HasVerdict(code: int, v: Verdict) {
    match v
    case Passed => code == 0
    case Failed => code == 1
    case Valgrind => code == 2
    case Crashed => code != 0 && code != 1 && code != 2
  }

  /** The jobs among `ids` that were really run with such a result. */
  ghost function RanWith(ran: map<int, int>, ids: set<int>, v: Verdict): set<int> {
    set id | id in ran && id in ids && HasVerdict(ran[id], v)
  }

  ghost function Ids(jobs: seq<Job>): set<int> {
    set n | 0 <= n < |jobs| :: jobs[n].id
  }

  /** The positions of jobs that came back skipped. */
  ghost function SkippedAt(cfg: Config, jobs: seq<Job>): set<int> {
    set n | 0 <= n < |jobs| && CameBackSkipped(cfg, jobs[n])
  }

  ghost predicate CameBackSkipped(cfg: Config, job: Job) {
    !job.isBreak && 0 <= job.id < |cfg.skips| && cfg.skips[job.id]
  }

  /** One more job, not seen before, is counted under its result if it was run, and under no other. */
  lemma OneMoreRan(cfg: Config, threadExit: bool, ran: map<int, int>, ids: set<int>, job: Job, v: Verdict)
    requires IsOutcome(cfg, threadExit, ran, job) && job.id !in ids
    ensures |RanWith(ran, ids + {job.id}, v)| == |RanWith(ran, ids, v)| +
      if !job.isBreak && !job.isSkip && HasVerdict(job.returncode, v) then 1 else 0
  {
    if !job.isBreak && !job.isSkip && HasVerdict(job.returncode, v) {
      assert RanWith(ran, ids + {job.id}, v) == RanWith(ran, ids, v) + {job.id};
    } else {
      assert RanWith(ran, ids + {job.id}, v) == RanWith(ran, ids, v);
    }
  }

  lemma OneMoreSkipped(cfg: Config, jobs: seq<Job>)
    requires jobs != []
    ensures var init, job := jobs[..|jobs| - 1], jobs[|jobs| - 1];
      |SkippedAt(cfg, jobs)| == |SkippedAt(cfg, init)| + if CameBackSkipped(cfg, job) then 1 else 0
  {
    var init, k := jobs[..|jobs| - 1], |jobs| - 1;
    if CameBackSkipped(cfg, jobs[k]) {
      assert SkippedAt(cfg, jobs) == SkippedAt(cfg, init) + {k};
    } else {
      assert SkippedAt(cfg, jobs) == SkippedAt(cfg, init);
    }
  }

  /** Each counter is the number of jobs with the result it stands for. */
  ghost predicate CountsResults(cfg: Config, t: Tally, ran: map<int, int>, jobs: seq<Job>) {
    && t.passed == |RanWith(ran, Ids(jobs), Passed)|
    && t.failed == |RanWith(ran, Ids(jobs), Failed)|
    && t.valgrind == |RanWith(ran, Ids(jobs), Valgrind)|
    && t.crashed == |RanWith(ran, Ids(jobs), Crashed)|
    && t.skipped == |SkippedAt(cfg, jobs)|
  }

  lemma {:induction false} TallyCountsResults(cfg: Config, threadExit: bool, ran: map<int, int>, jobs: seq<Job>)
    requires forall n :: 0 <= n < |jobs| ==> IsOutcome(cfg, threadExit, ran, jobs[n])
    requires forall m, n :: 0 <= m < n < |jobs| ==> jobs[m].id != jobs[n].id
    ensures CountsResults(cfg, TallyOf(jobs), ran, jobs)
  {
    if jobs == [] {
      assert forall v :: RanWith(ran, Ids(jobs), v) == {};
      assert SkippedAt(cfg, jobs) == {};
    } else {
      var init, job := jobs[..|jobs| - 1], jobs[|jobs| - 1];
      TallyCountsResults(cfg, threadExit, ran, init);
      IdsGrow(jobs);
      OneMoreRan(cfg, threadExit, ran, Ids(init), job, Passed);
      OneMoreRan(cfg, threadExit, ran, Ids(init), job, Failed);
      OneMoreRan(cfg, threadExit, ran, Ids(init), job, Valgrind);
      OneMoreRan(cfg, threadExit, ran, Ids(init), job, Crashed);
      OneMoreSkipped(cfg, jobs);
    }
  }

  lemma IdsGrow(jobs: seq<Job>)
    requires jobs != []
    ensures Ids(jobs) == Ids(jobs[..|jobs| - 1]) + {jobs[|jobs| - 1].id}
  {
    var init := jobs[..|jobs| - 1];
    forall id | id in Ids(jobs) ensures id in Ids(init) + {jobs[|jobs| - 1].id} {
      var n :| 0 <= n < |jobs| && jobs[n].id == id;
      assert n < |init| ==> init[n].id == id;
    }
    forall id | id in Ids(init) ensures id in Ids(jobs) {
      var n :| 0 <= n < |init| && init[n].id == id;
      assert jobs[n].id == id;
    }
  }

  lemma {:induction false} OnceMeansDistinct(jobs: seq<Job>, m: nat, n: nat)
    requires m < n < |jobs| && jobs[m].id == jobs[n].id
    ensures Times(jobs, jobs[m].id) >= 2
  {
    var init := jobs[..|jobs| - 1];
    if n == |jobs| - 1 {
      TimesAtLeastOnce(init, m);
    } else {
      OnceMeansDistinct(init, m, n);
    }
  }

  /** The jobs really run whose return code has this verdict. */
  ghost function AllRanWith(ran: map<int, int>, v: Verdict): set<int> {
    set id | id in ran && HasVerdict(ran[id], v)
  }

  /** When main returns, each counter says how many jobs were really run with that result, or came back skipped. */
  lemma CountersAreTrue(cfg: Config, run: seq<State>, i: nat)
    requires IsRun(cfg, run) && i < |run| && run[i].main.Returned?
    ensures var s := run[i];
      && s.tally.passed == |AllRanWith(s.ran, Passed)| && s.tally.failed == |AllRanWith(s.ran, Failed)|
      && s.tally.valgrind == |AllRanWith(s.ran, Valgrind)| && s.tally.crashed == |AllRanWith(s.ran, Crashed)|
    ensures run[i].tally.skipped == |SkippedAt(cfg, run[i].collected)|
  {
    var s := run[i];
    RunKeepsInv(cfg, run, i);
    ReturnedCollectsEachOnce(cfg, run, i);
    forall m, n | 0 <= m < n < |s.collected| ensures s.collected[m].id != s.collected[n].id {
      assert Times(s.collected, s.collected[m].id) <= 1;
      if s.collected[m].id == s.collected[n].id {
        OnceMeansDistinct(s.collected, m, n);
      }
    }
    TallyCountsResults(cfg, s.threadExit, s.ran, s.collected);
    forall v ensures AllRanWith(s.ran, v) == RanWith(s.ran, Ids(s.collected), v) {
      forall id | id in s.ran ensures id in Ids(s.collected) {
        var n := TimesFinds(s.collected, id);
      }
    }
  }

  // -------------------------------------------------------------------- after the interrupt

  /** The interrupt has come, and of the jobs from number k on none runs or comes back other than as a break. */
  ghost predicate BrokenOff(s: State, k: int) {
    && s.threadExit
    && (forall w :: 0 <= w < |s.workers| ==> HeldBroken(s.workers[w], k))
    && (forall n :: 0 <= n < |s.output| ==> s.output[n].id < k || s.output[n].isBreak)
    && (forall n :: 0 <= n < |s.collected| ==> s.collected[n].id < k || s.collected[n].isBreak)
    && (forall id :: id in s.ran ==> id < k)
  }

  ghost predicate HeldBroken(w: Worker, k: int) {
    match w
    case Running(job) => job.id < k
    case ToPut(job) => job.id < k || job.isBreak
    case _ => true
  }

  lemma StepKeepsBrokenOff(cfg: Config, s: State, step: Step, s': State, k: int)
    requires BrokenOff(s, k) && Take(cfg, s, step) == Some(s')
    ensures BrokenOff(s', k)
  {
    match step
    case MainStep =>
      assert s'.workers == s.workers && s'.ran == s.ran;
    case WorkerStep(w, _) =>
      assert HeldBroken(s.workers[w], k);
      assert s'.workers == s.workers[w := s'.workers[w]] && HeldBroken(s'.workers[w], k);
    case Interrupt =>
  }

  /** Jobs not yet taken when the interrupt has come are never run, and all come back as breaks. */
  lemma {:induction false} InterruptStopsWork(cfg: Config, run: seq<State>, i: nat, j: nat)
    requires IsRun(cfg, run) && i <= j < |run| && run[i].threadExit
    ensures BrokenOff(run[j], run[i].taken)
  {
    if i == j {
      RunKeepsInv(cfg, run, i);
      TakenComeBefore(run[i]);
    } else {
      InterruptStopsWork(cfg, run, i, j - 1);
      assert Next(cfg, run[j - 1], run[j]);
      var step :| Take(cfg, run[j - 1], step) == Some(run[j]);
      StepKeepsBrokenOff(cfg, run[j - 1], step, run[j], run[i].taken);
    }
  }

  /** Whatever is in a place has been taken. */
  lemma TakenComeBefore(s: State)
    requires Conservation(s) && s.threadExit && forall id :: id in s.ran ==> 0 <= id < s.taken
    ensures BrokenOff(s, s.taken)
  {
    forall w | 0 <= w < |s.workers| ensures HeldBroken(s.workers[w], s.taken) {
      if s.workers[w].Running? || s.workers[w].ToPut? {
        HeldTwice(s.workers, w, w, s.workers[w].job.id);
        assert Places(s, s.workers[w].job.id) >= 1;
      }
    }
    forall n | 0 <= n < |s.output| ensures s.output[n].id < s.taken {
      TimesAtLeastOnce(s.output, n);
      assert Places(s, s.output[n].id) >= 1;
    }
    forall n | 0 <= n < |s.collected| ensures s.collected[n].id < s.taken {
      TimesAtLeastOnce(s.collected, n);
      assert Places(s, s.collected[n].id) >= 1;
    }
  }

  // ----------------------------------------------------------- termination and progress

  /** Turns main can still take, and the work it has handed or has still to hand to the workers. */
  ghost function MainLeft(cfg: Config, m: Main): int {
    var jobs, workers := |cfg.skips|, cfg.processors;
    match m
    case Dispatching(k) => 5 * (jobs - k) + 4 * k + 3 * workers + jobs + workers + 4
    case Stopping(i) => 4 * jobs + 3 * (workers - i) + 2 * i + jobs + workers + 3
    case Collecting(n) => 4 * jobs + 2 * workers + jobs - n + workers + 2
    case Joining(t) => 4 * jobs + 2 * workers + workers - t + 1
    case Returned(_) => 4 * jobs + 2 * workers
  }

  /** An upper bound on the steps a run can still take. */
  ghost function StepsLeft(cfg: Config, s: State): int {
    MainLeft(cfg, s.main) + TurnsHeld(s.workers) + (if s.threadExit then 0 else 1)
    - 4 * s.taken - 2 * StopsTaken(s.workers)
  }

  lemma MainUsesUp(cfg: Config, s: State, s': State)
    requires InputInv(cfg, s) && MainInv(cfg, s) && MainTurn(cfg, s) == Some(s')
    ensures StepsLeft(cfg, s') < StepsLeft(cfg, s)
  {
    assert s'.workers == s.workers && s'.taken == s.taken && s'.threadExit == s.threadExit;
    MainTurnsLeft(cfg, s, s');
  }

  lemma MainTurnsLeft(cfg: Config, s: State, s': State)
    requires MainTurn(cfg, s) == Some(s')
    requires Dispatched(cfg, s.main) <= |cfg.skips| && StopsPut(cfg, s.main) <= cfg.processors
    requires |s.workers| == cfg.processors
    requires (s.main.Collecting? ==> s.main.n <= |cfg.skips|) && (s.main.Joining? ==> s.main.t <= |s.workers|)
    ensures MainLeft(cfg, s'.main) < MainLeft(cfg, s.main)
  {
  }

  lemma GetUsesUp(cfg: Config, s: State, w: nat, s': State)
    requires InputInv(cfg, s) && w < |s.workers| && s.workers[w].AtGet?
    requires WorkerTurn(s, w, 0) == Some(s')
    ensures StepsLeft(cfg, s') < StepsLeft(cfg, s)
  {
    UpdateCounts(s.workers, w, Holding(s.input[0]));
  }

  lemma WorkUsesUp(cfg: Config, s: State, w: nat, returncode: int, s': State)
    requires w < |s.workers| && !s.workers[w].AtGet?
    requires WorkerTurn(s, w, returncode) == Some(s')
    ensures StepsLeft(cfg, s') < StepsLeft(cfg, s)
  {
    WorkStaysLocal(s, w, returncode, s');
    UpdateCounts(s.workers, w, s'.workers[w]);
  }

  lemma StepsLeftNatural(cfg: Config, s: State)
    requires Inv(cfg, s)
    ensures StepsLeft(cfg, s) >= 0
  {
  }

  /** Every step brings the end nearer. */
  lemma StepUsesUp(cfg: Config, s: State, step: Step, s': State)
    requires Inv(cfg, s) && Take(cfg, s, step) == Some(s')
    ensures 0 <= StepsLeft(cfg, s') < StepsLeft(cfg, s)
  {
    StepKeepsInv(cfg, s, step, s');
    StepsLeftNatural(cfg, s');
    match step
    case MainStep => MainUsesUp(cfg, s, s');
    case WorkerStep(w, returncode) =>
      if s.workers[w].AtGet? {
        GetUsesUp(cfg, s, w, s');
      } else {
        WorkUsesUp(cfg, s, w, returncode, s');
      }
    case Interrupt =>
  }

  lemma {:induction false} StepsSoFar(cfg: Config, run: seq<State>, i: nat)
    requires IsRun(cfg, run) && i < |run|
    ensures 0 <= StepsLeft(cfg, run[i]) <= StepsLeft(cfg, run[0]) - i
  {
    RunKeepsInv(cfg, run, i);
    if i > 0 {
      StepsSoFar(cfg, run, i - 1);
      RunKeepsInv(cfg, run, i - 1);
      assert Next(cfg, run[i - 1], run[i]);
      var step :| Take(cfg, run[i - 1], step) == Some(run[i]);
      StepUsesUp(cfg, run[i - 1], step, run[i]);
    }
  }

  /** No run goes on for ever: it takes at most six steps a job, four a worker, and five more. */
  lemma RunsEnd(cfg: Config, run: seq<State>)
    requires IsRun(cfg, run)
    ensures |run| - 1 <= 6 * |cfg.skips| + 4 * cfg.processors + 5
  {
    StepsSoFar(cfg, run, |run| - 1);
    IdleWorkers(cfg.processors, 0);
  }

  lemma {:induction false} FindBusy(ws: seq<Worker>) returns (w: nat)
    requires Busy(ws) > 0
    ensures w < |ws| && BusyOf(ws[w]) == 1
  {
    if BusyOf(ws[0]) == 1 {
      w := 0;
    } else {
      var v := FindBusy(ws[1..]);
      w := v + 1;
    }
  }

  lemma {:induction false} BusyAtLeast(ws: seq<Worker>, w: nat)
    requires w < |ws|
    ensures BusyOf(ws[w]) <= Busy(ws)
  {
    if w > 0 {
      BusyAtLeast(ws[1..], w - 1);
    }
  }

  /** Until main has returned, main or some worker can move, provided there is a worker for the jobs. */
  lemma NeverStuck(cfg: Config, s: State) returns (step: Step, s': State)
    requires Inv(cfg, s) && !s.main.Returned?
    requires cfg.processors > 0 || cfg.skips == []
    ensures !step.Interrupt? && Take(cfg, s, step) == Some(s')
  {
    step := MainStep;
    match s.main {
    case Collecting(n) =>
      if n < |cfg.skips| && s.output == [] {
        if Busy(s.workers) > 0 {
          var w := FindBusy(s.workers);
          step := WorkerStep(w, 0);
        } else {
          OneWorkersStops(s.workers, 0);
          BusyAtLeast(s.workers, 0);
          step := WorkerStep(0, 0);
        }
      }
    case Joining(t) =>
      if t < |s.workers| && !s.workers[t].Exited? {
        OneWorkersStops(s.workers, t);
        step := WorkerStep(t, 0);
      }
    case _ =>
    }
    s' := Take(cfg, s, step).value;
  }

  lemma ExtendRun(cfg: Config, run: seq<State>, step: Step, s': State)
    requires IsRun(cfg, run) && Take(cfg, run[|run| - 1], step) == Some(s')
    ensures IsRun(cfg, run + [s'])
  {
    var longer := run + [s'];
    forall i, j | 0 <= i && j == i + 1 && j < |longer| ensures Next(cfg, longer[i], longer[j]) {
      if j == |run| {
        assert Take(cfg, longer[i], step) == Some(longer[j]);
      } else {
        assert Next(cfg, run[i], run[j]);
      }
    }
  }

  /** With jobs but no worker, main waits for ever. */
  lemma {:induction false} NoWorkersNoReturn(cfg: Config, run: seq<State>, i: nat)
    requires IsRun(cfg, run) && i < |run| && cfg.processors == 0 && cfg.skips != []
    ensures !run[i].main.Returned? && run[i].taken == 0
  {
    RunKeepsInv(cfg, run, i);
    if i > 0 {
      NoWorkersNoReturn(cfg, run, i - 1);
      RunKeepsInv(cfg, run, i - 1);
      assert Next(cfg, run[i - 1], run[i]);
      var step :| Take(cfg, run[i - 1], step) == Some(run[i]);
      NothingTaken(cfg, run[i - 1], step, run[i]);
    }
  }

  lemma NothingTaken(cfg: Config, s: State, step: Step, s': State)
    requires s.workers == [] && s.taken == 0 && cfg.skips != [] && Take(cfg, s, step) == Some(s')
    requires Conservation(s') && MainInv(cfg, s')
    ensures s'.taken == 0 && !s'.main.Returned?
  {
  }

  /** Nothing but the interrupt can happen any more. */
  ghost predicate Stuck(cfg: Config, s: State) {
    forall step: Step :: !step.Interrupt? ==> Take(cfg, s, step).None?
  }

  /** A run that neither main nor a worker can continue is a run in which main has returned. */
  lemma StuckIffReturned(cfg: Config, run: seq<State>)
    requires IsRun(cfg, run) && (cfg.processors > 0 || cfg.skips == [])
    ensures Stuck(cfg, run[|run| - 1]) <==> run[|run| - 1].main.Returned?
  {
    var last := run[|run| - 1];
    RunKeepsInv(cfg, run, |run| - 1);
    if last.main.Returned? {
      ReturnedIsStuck(cfg, last);
    } else {
      var step, s' := NeverStuck(cfg, last);
      assert Take(cfg, last, step) == Some(s');
    }
  }

  lemma ReturnedIsStuck(cfg: Config, s: State)
    requires MainInv(cfg, s) && s.main.Returned?
    ensures Stuck(cfg, s)
  {
  }

  /** Every run can be continued until neither main nor a worker can move. */
  lemma {:induction false} RunUntilStuck(cfg: Config, run: seq<State>) returns (whole: seq<State>)
    requires IsRun(cfg, run)
    ensures run <= whole && IsRun(cfg, whole) && Stuck(cfg, whole[|whole| - 1])
    decreases StepsLeft(cfg, run[|run| - 1])
  {
    var last := run[|run| - 1];
    whole := run;
    if step: Step :| !step.Interrupt? && Take(cfg, last, step).Some? {
      var s' := Take(cfg, last, step).value;
      RunKeepsInv(cfg, run, |run| - 1);
      StepUsesUp(cfg, last, step, s');
      ExtendRun(cfg, run, step, s');
      whole := RunUntilStuck(cfg, run + [s']);
    }
  }

  /** So every run can be continued until main returns. */
  lemma RunsReturn(cfg: Config, run: seq<State>) returns (whole: seq<State>)
    requires IsRun(cfg, run) && (cfg.processors > 0 || cfg.skips == [])
    ensures run <= whole && IsRun(cfg, whole) && whole[|whole| - 1].main.Returned?
  {
    whole := RunUntilStuck(cfg, run);
    StuckIffReturned(cfg, whole);
  }

  /** All runs that are carried on as long as possible return exactly when there is a worker or no job. */
  lemma ReturnsIffWorkers(cfg: Config)
    ensures (forall run: seq<State> :: IsRun(cfg, run) && Stuck(cfg, run[|run| - 1]) ==> run[|run| - 1].main.Returned?)
      <==> cfg.processors > 0 || cfg.skips == []
  {
    if cfg.processors > 0 || cfg.skips == [] {
      forall run: seq<State> | IsRun(cfg, run) && Stuck(cfg, run[|run| - 1])
        ensures run[|run| - 1].main.Returned?
      {
        StuckIffReturned(cfg, run);
      }
    } else {
      var whole := RunUntilStuck(cfg, [Init(cfg)]);
      NoWorkersNoReturn(cfg, whole, |whole| - 1);
    }
  }
}
