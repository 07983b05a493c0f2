/**
 Caller threads, detached restart threads, worker threads and the processes they run, as a
 transition system over the prefetcher's atomic blocks, with any number of each.

 Waiting with a timeout (process.wait, thread.join) may return early, so a halting thread can
 always go on once it has signalled the process it captured.
 */
module PrefetchSystem {
  import opened Common
  import opened Packer
  import opened Prefetch

  // -- threads and processes -------------------------------------------------

  datatype Stage = Rank | Sync | Size | Fetch

  datatype HaltPc =
    | Before                                 // has not taken _halt()'s lock yet
    | Terminating(process: Option<nat>)      // bumped the generation, holds the captured process
    | Through                                // signalled it; past the waits
    | Over                                   // returned

  datatype Thread =
    | Restart(request: Request, pc: HaltPc)
    | Stopper(pc: HaltPc)

  datatype WorkerPc =
    | CheckOnline
    | CheckMirror
    | Configure
    | Launching(stage: Stage)
    | Running(stage: Stage, process: nat)
    | Sizing
    | Planned(plan: Planning)
    | Marking
    | Finishing(state: StateName, reason: string)
    | Returned

  // `wrote` records the states this worker has written to the status, `partial` is the local
  // variable that picks the final reason.
  datatype Worker = Worker(generation: nat, request: Request, pc: WorkerPc, partial: bool, wrote: seq<StateName>)

  // A process runs the command of one stage. `doomed` is set once a halting thread has signalled it,
  // `complaint` is the last line of its error output, or "pacman failed" without any.
  datatype Process = Process(
    worker: nat, stage: Stage, alive: bool, doomed: bool, code: int, complaint: string)

  datatype System = System(shared: Shared, threads: seq<Thread>, workers: seq<Worker>, processes: seq<Process>)

  const INITIAL: System :=
    System(Shared(Status(Idle, 0, 0, 0, ""), None, None, 0, None, {}), [], [], [])

  // -- actions ---------------------------------------------------------------

  /** What a worker learns from the outside world in one step. An OsError is any OSError or
      ValueError that the worker's handler turns into a failure; on a command's output it comes
      once the command has exited, and then the process field is not cleared. */
  datatype Input =
    | Proceed
    | Answer(yes: bool)
    | Listing(plan: Planning)
    | OsError(message: string)

  datatype Action =
    | Start(request: Request)
    | Stop
    | Halt(thread: nat)
    | Signal(thread: nat)
    | Install(thread: nat)
    | Work(worker: nat, input: Input)
    | Exit(process: nat, code: int, complaint: string)

  function Step(w: Worker, pc: WorkerPc): Worker {
    w.(pc := pc)
  }

  function DoneReason(partial: bool): string {
    if partial then "limited by free memory; the rest downloads while installing" else ""
  }

  /** Where a worker goes after its plan is recorded. */
  function AfterPlan(plan: Planning): WorkerPc {
    if plan.TooSmall() then Finishing(Skipped, "not enough free memory to download ahead")
    else if plan.ChosenItems() != [] then Marking
    else Finishing(Done, DoneReason(plan.Partial()))
  }

  /** Where a worker goes after a command exited. */
  function AfterCommand(stage: Stage, ok: bool, partial: bool, complaint: string): WorkerPc {
    match stage
    case Rank => Configure
    case Sync => if ok then Launching(Size) else Finishing(Failed, complaint)
    case Size => if ok then Sizing else Finishing(Failed, complaint)
    case Fetch => if ok then Finishing(Done, DoneReason(partial)) else Finishing(Failed, complaint)
  }

  predicate InputFits(pc: WorkerPc, input: Input) {
    match pc
    case CheckOnline => input.Answer? || input.OsError?
    case CheckMirror => input.Answer? || input.OsError?
    case Configure => input.Proceed? || input.OsError?
    case Launching(_) => input.Proceed? || input.OsError?
    case Running(_, _) => input.Proceed? || input.OsError?
    case Sizing => input.Listing? || input.OsError?
    case Planned(_) => input.Proceed?
    case Marking => input.Proceed?
    case Finishing(_, _) => input.Proceed?
    case Returned => false
  }

  predicate Enabled(s: System, a: Action) {
    match a
    case Start(_) => true
    case Stop => true
    case Halt(t) => t < |s.threads| && s.threads[t].pc.Before?
    case Signal(t) => t < |s.threads| && s.threads[t].pc.Terminating?
    case Install(t) => t < |s.threads| && s.threads[t].pc.Through? && s.threads[t].Restart?
    case Work(w, input) =>
      && w < |s.workers|
      && InputFits(s.workers[w].pc, input)
      && (s.workers[w].pc.Running? ==>
            s.workers[w].pc.process < |s.processes| && !s.processes[s.workers[w].pc.process].alive)
    case Exit(p, _, _) => p < |s.processes| && s.processes[p].alive
  }

  /** One step of worker `w`. */
  function DoWork(s: System, w: nat, input: Input): System
    requires Enabled(s, Work(w, input))
  {
    var me := s.workers[w];
    var current := me.generation == s.shared.generation;
    if input.OsError? then
      s.(workers := s.workers[w := Step(me, Finishing(Failed, input.message))])
    else
      match me.pc
      case CheckOnline =>
        s.(workers := s.workers[w :=
          Step(me, if input.yes then CheckMirror else Finishing(Skipped, "no internet connection"))])
      case CheckMirror =>
        s.(workers := s.workers[w := Step(me, if input.yes then Configure else Launching(Rank))])
      case Configure =>
        s.(workers := s.workers[w := Step(me, Launching(Sync))])
      case Launching(stage) =>
        if current then
          s.(shared := Launched(s.shared, me.generation, |s.processes|),
             workers := s.workers[w := Step(me, Running(stage, |s.processes|))],
             processes := s.processes + [Process(w, stage, true, false, 0, "")])
        else
          s.(workers := s.workers[w := Step(me, Returned)])
      case Running(stage, p) =>
        s.(shared := Cleared(s.shared, p),
           workers := s.workers[w :=
             Step(me, AfterCommand(stage, s.processes[p].code == 0, me.partial, s.processes[p].complaint))])
      case Sizing =>
        s.(workers := s.workers[w := Step(me, Planned(input.plan)).(partial := input.plan.Partial())])
      case Planned(plan) =>
        s.(shared := Recorded(s.shared, me.generation, plan),
           workers := s.workers[w := Step(me, if current then AfterPlan(plan) else Returned)])
      case Marking =>
        s.(shared := MarkedDownloading(s.shared, me.generation),
           workers := s.workers[w :=
             if current then Step(me, Launching(Fetch)).(wrote := me.wrote + [Downloading]) else Step(me, Returned)])
      case Finishing(state, reason) =>
        s.(shared := FinishedAs(s.shared, me.generation, state, reason),
           workers := s.workers[w :=
             Step(me, Returned).(wrote := if current then me.wrote + [state] else me.wrote)])
      case Returned => s
  }

  function Apply(s: System, a: Action): System
    requires Enabled(s, a)
  {
    match a
    case Start(request) =>
      s.(shared := Started(s.shared, request),
         threads := if Accepts(s.shared, request) then s.threads + [Restart(request, Before)] else s.threads)
    case Stop =>
      s.(shared := Stopping(s.shared), threads := s.threads + [Stopper(Before)])
    case Halt(t) =>
      s.(shared := Halted(s.shared),
         threads := s.threads[t := s.threads[t].(pc := Terminating(s.shared.process))])
    case Signal(t) =>
      var pc := if s.threads[t].Restart? then Through else Over;
      var captured := s.threads[t].pc.process;
      s.(threads := s.threads[t := s.threads[t].(pc := pc)],
         processes :=
           if captured.Some? && captured.value < |s.processes| && s.processes[captured.value].alive
           then s.processes[captured.value := s.processes[captured.value].(doomed := true)]
           else s.processes)
    case Install(t) =>
      var request := s.threads[t].request;
      var threads := s.threads[t := s.threads[t].(pc := Over)];
      if s.shared.request != Some(request) then s.(threads := threads)
      else
        s.(shared := Installed(s.shared, request, |s.workers|),
           threads := threads,
           workers := s.workers + [Worker(s.shared.generation + 1, request, CheckOnline, false, [])])
    case Work(w, input) => DoWork(s, w, input)
    case Exit(p, code, complaint) =>
      s.(processes := s.processes[p := s.processes[p].(alive := false, code := code, complaint := complaint)])
  }

  /** `acts` is a run from `s` to `t`. */
  ghost predicate Run(s: System, acts: seq<Action>, t: System)
    decreases |acts|
  {
    if acts == [] then s == t
    else Enabled(s, acts[0]) && Run(Apply(s, acts[0]), acts[1..], t)
  }

  ghost predicate Reachable(s: System) {
    exists acts :: Run(INITIAL, acts, s)
  }

  // -- the invariant ---------------------------------------------------------

  predicate Terminal(state: StateName) {
    state in {Done, Skipped, Failed}
  }

  /** The states a worker may have written by the time it stands at `pc`:
      nothing, then one terminal state, or downloading and then done or failed. */
  ghost predicate WritePath(w: Worker) {
    match w.pc
    case Returned =>
      || w.wrote == [] || w.wrote == [Downloading]
      || (|w.wrote| == 1 && Terminal(w.wrote[0]))
      || (|w.wrote| == 2 && w.wrote[0] == Downloading && w.wrote[1] in {Done, Failed})
    case Finishing(state, _) =>
      (w.wrote == [] && Terminal(state)) || (w.wrote == [Downloading] && state in {Done, Failed})
    case Launching(stage) => w.wrote == if stage == Fetch then [Downloading] else []
    case Running(stage, _) => w.wrote == if stage == Fetch then [Downloading] else []
    case _ => w.wrote == []
  }

  ghost predicate WorkerOk(s: System, w: nat)
    requires w < |s.workers|
  {
    var me := s.workers[w];
    && me.generation <= s.shared.generation
    && WritePath(me)
    && (me.pc.Running? ==>
          && me.pc.process < |s.processes|
          && s.processes[me.pc.process].worker == w
          && (me.generation == s.shared.generation ==> s.shared.process == Some(me.pc.process)))
  }

  ghost predicate ProcessOk(s: System, p: nat)
    requires p < |s.processes|
  {
    var it := s.processes[p];
    && it.worker < |s.workers|
    && (it.alive ==> s.workers[it.worker].pc.Running? && s.workers[it.worker].pc.process == p)
  }

  ghost predicate Inv(s: System) {
    && (forall i, j | 0 <= i < j < |s.workers| :: s.workers[i].generation < s.workers[j].generation)
    && (forall w | 0 <= w < |s.workers| :: WorkerOk(s, w))
    && (forall p | 0 <= p < |s.processes| :: ProcessOk(s, p))
    && (s.shared.process.Some? ==> s.shared.process.value < |s.processes|)
    && (forall t | 0 <= t < |s.threads| && s.threads[t].pc.Terminating? && s.threads[t].pc.process.Some? ::
          s.threads[t].pc.process.value < |s.processes|)
  }

  lemma WorkKeepsOthers(s: System, w: nat, input: Input, v: nat)
    requires Inv(s) && Enabled(s, Work(w, input)) && v < |s.workers| && v != w
    ensures |DoWork(s, w, input).workers| == |s.workers| && WorkerOk(DoWork(s, w, input), v)
  {
    assert WorkerOk(s, v);
    assert WorkerOk(s, w);
  }

  lemma WorkKeepsOwn(s: System, w: nat, input: Input)
    requires Inv(s) && Enabled(s, Work(w, input))
    ensures |DoWork(s, w, input).workers| == |s.workers| && WorkerOk(DoWork(s, w, input), w)
  {
    assert WorkerOk(s, w);
  }

  lemma WorkKeepsProcesses(s: System, w: nat, input: Input, p: nat)
    requires Inv(s) && Enabled(s, Work(w, input)) && p < |DoWork(s, w, input).processes|
    ensures ProcessOk(DoWork(s, w, input), p)
  {
    if p < |s.processes| {
      assert ProcessOk(s, p);
    }
  }

  lemma WorkKeepsInv(s: System, w: nat, input: Input)
    requires Inv(s) && Enabled(s, Work(w, input))
    ensures Inv(DoWork(s, w, input))
  {
    var t := DoWork(s, w, input);
    WorkKeepsOwn(s, w, input);
    forall v | 0 <= v < |t.workers| ensures WorkerOk(t, v) {
      if v != w { WorkKeepsOthers(s, w, input, v); }
    }
    forall p | 0 <= p < |t.processes| ensures ProcessOk(t, p) {
      WorkKeepsProcesses(s, w, input, p);
    }
  }

  lemma OthersKeepWorkers(s: System, a: Action)
    requires Inv(s) && Enabled(s, a) && !a.Work?
    ensures forall v | 0 <= v < |Apply(s, a).workers| :: WorkerOk(Apply(s, a), v)
    ensures forall i, j | 0 <= i < j < |Apply(s, a).workers| ::
              Apply(s, a).workers[i].generation < Apply(s, a).workers[j].generation
  {
    var t := Apply(s, a);
    assert forall v | 0 <= v < |s.workers| :: WorkerOk(s, v) && t.workers[v] == s.workers[v];
  }

  lemma StepKeepsInv(s: System, a: Action)
    requires Inv(s) && Enabled(s, a)
    ensures Inv(Apply(s, a))
  {
    if a.Work? {
      WorkKeepsInv(s, a.worker, a.input);
    } else {
      var t := Apply(s, a);
      OthersKeepWorkers(s, a);
      forall p | 0 <= p < |t.processes| ensures ProcessOk(t, p) {
        assert ProcessOk(s, p);
      }
    }
  }

  lemma {:induction false} RunKeepsInv(s: System, acts: seq<Action>, t: System)
    requires Inv(s) && Run(s, acts, t)
    ensures Inv(t)
    decreases |acts|
  {
    if acts != [] {
      StepKeepsInv(s, acts[0]);
      RunKeepsInv(Apply(s, acts[0]), acts[1..], t);
    }
  }

  lemma ReachableInv(s: System)
    requires Reachable(s)
    ensures Inv(s)
  {
    var acts :| Run(INITIAL, acts, s);
    RunKeepsInv(INITIAL, acts, s);
  }
}
