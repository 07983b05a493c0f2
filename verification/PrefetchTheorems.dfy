/**
 What every interleaving of the prefetcher's threads keeps: superseded workers are inert, the
 current worker's process is always held, a stop is final until the next start, every worker
 follows one path of states, and exactly which step can leave a stale process running.
 */
module PrefetchTheorems {
  import opened Common
  import opened Packer
  import opened Prefetch
  import opened PrefetchSystem

  // -- runs only add to what exists -------------------------------------------

  ghost predicate Extends(s: System, t: System) {
    && |s.workers| <= |t.workers|
    && |s.processes| <= |t.processes|
    && |s.threads| <= |t.threads|
    && s.shared.generation <= t.shared.generation
    && (forall w | 0 <= w < |s.workers| ::
          && t.workers[w].generation == s.workers[w].generation
          && t.workers[w].request == s.workers[w].request
          && |s.workers[w].wrote| <= |t.workers[w].wrote|)
    && (forall p | 0 <= p < |s.processes| ::
          && t.processes[p].worker == s.processes[p].worker
          && (s.processes[p].doomed ==> t.processes[p].doomed)
          && (t.processes[p].alive ==> s.processes[p].alive))
  }

  lemma StepExtends(s: System, a: Action)
    requires Enabled(s, a)
    ensures Extends(s, Apply(s, a))
  {
  }

  lemma {:induction false} RunExtends(s: System, acts: seq<Action>, t: System)
    requires Run(s, acts, t)
    ensures Extends(s, t)
    decreases |acts|
  {
    if acts != [] {
      StepExtends(s, acts[0]);
      RunExtends(Apply(s, acts[0]), acts[1..], t);
    }
  }

  lemma {:induction false} RunConcat(s: System, a: seq<Action>, t: System, b: seq<Action>, u: System)
    requires Run(s, a, t) && Run(t, b, u)
    ensures Run(s, a + b, u)
    decreases |a|
  {
    if a == [] {
      assert a + b == b;
    } else {
      assert (a + b)[1..] == a[1..] + b;
      RunConcat(Apply(s, a[0]), a[1..], t, b, u);
    }
  }

  lemma GenerationsBounded(s: System)
    requires Inv(s)
    ensures forall w | 0 <= w < |s.workers| :: s.workers[w].generation <= s.shared.generation
  {
    forall w | 0 <= w < |s.workers| ensures s.workers[w].generation <= s.shared.generation {
      assert WorkerOk(s, w);
    }
  }

  // -- superseded workers ------------------------------------------------------

  /** Two workers never share a generation, and none is ahead of the counter. */
  lemma OneWorkerPerGeneration(s: System, v: nat, w: nat)
    requires Reachable(s) && v < |s.workers| && w < |s.workers|
    ensures s.workers[v].generation == s.workers[w].generation <==> v == w
    ensures s.workers[w].generation <= s.shared.generation
  {
    ReachableInv(s);
    assert WorkerOk(s, w);
  }

  /** Once the generation has passed a worker, no step it takes, however much later, changes the
      status or the planned files, launches a process, or takes anybody's turn; and the only
      process it ever drops from the process field is its own. */
  lemma StaleWorkerIsInert(s: System, acts: seq<Action>, u: System, w: nat, input: Input)
    requires Reachable(s) && w < |s.workers| && s.workers[w].generation < s.shared.generation
    requires Run(s, acts, u) && Enabled(u, Work(w, input))
    ensures var v := Apply(u, Work(w, input));
            && v.shared.status == u.shared.status
            && v.shared.plannedFiles == u.shared.plannedFiles
            && v.shared.generation == u.shared.generation
            && v.shared.request == u.shared.request
            && v.processes == u.processes
            && v.workers[w].wrote == u.workers[w].wrote
            && (|| v.shared.process == u.shared.process
                || (v.shared.process == None && u.shared.process.Some?
                    && u.shared.process.value < |u.processes|
                    && u.processes[u.shared.process.value].worker == w))
  {
    ReachableInv(s);
    RunKeepsInv(s, acts, u);
    RunExtends(s, acts, u);
    assert WorkerOk(u, w);
  }

  // -- the process field ----------------------------------------------------------

  /** The current worker's running process is the one in the process field. */
  lemma CurrentProcessIsHeld(s: System, p: nat)
    requires Reachable(s) && p < |s.processes| && s.processes[p].alive
    ensures s.processes[p].worker < |s.workers|
    ensures s.workers[s.processes[p].worker].generation == s.shared.generation ==>
              s.shared.process == Some(p)
  {
    ReachableInv(s);
    assert ProcessOk(s, p);
    assert WorkerOk(s, s.processes[p].worker);
  }

  ghost predicate Handled(s: System, t: nat, p: nat) {
    && t < |s.threads| && p < |s.processes|
    && (s.threads[t].pc == Terminating(Some(p)) || s.processes[p].doomed || !s.processes[p].alive)
  }

  lemma {:induction false} RunKeepsHandled(s: System, acts: seq<Action>, u: System, t: nat, p: nat)
    requires Run(s, acts, u) && Handled(s, t, p)
    ensures Handled(u, t, p)
    decreases |acts|
  {
    if acts != [] {
      RunKeepsHandled(Apply(s, acts[0]), acts[1..], u, t, p);
    }
  }

  lemma {:induction false} StaleWorkerLaunchesNothing(s: System, acts: seq<Action>, u: System, w: nat)
    requires Run(s, acts, u) && w < |s.workers| && s.workers[w].generation < s.shared.generation
    ensures |s.processes| <= |u.processes|
    ensures forall p | |s.processes| <= p < |u.processes| :: u.processes[p].worker != w
    decreases |acts|
  {
    if acts != [] {
      var m := Apply(s, acts[0]);
      RunExtends(m, acts[1..], u);
      StaleWorkerLaunchesNothing(m, acts[1..], u, w);
    }
  }

  /** A halt against the current worker either captures its running process or forestalls its
      launch: from then on the worker launches nothing, whatever it had running is the process the
      halting thread holds, and once that thread has gone on nothing of it is left unsignalled. */
  lemma HaltCapturesOrForestalls(s: System, t: nat, w: nat, acts: seq<Action>, u: System)
    requires Reachable(s) && Enabled(s, Halt(t))
    requires w < |s.workers| && s.workers[w].generation == s.shared.generation
    requires Run(Apply(s, Halt(t)), acts, u)
    ensures t < |u.threads|
    ensures forall p | 0 <= p < |s.processes| && s.processes[p].worker == w && s.processes[p].alive ::
              Apply(s, Halt(t)).threads[t].pc == Terminating(Some(p))
    ensures forall p | |s.processes| <= p < |u.processes| :: u.processes[p].worker != w
    ensures !u.threads[t].pc.Terminating? ==>
              forall p | 0 <= p < |u.processes| && u.processes[p].worker == w ::
                u.processes[p].doomed || !u.processes[p].alive
  {
    var m := Apply(s, Halt(t));
    ReachableInv(s);
    RunExtends(m, acts, u);
    StaleWorkerLaunchesNothing(m, acts, u, w);
    forall p | 0 <= p < |s.processes| && s.processes[p].worker == w && s.processes[p].alive
      ensures m.threads[t].pc == Terminating(Some(p)) && Handled(u, t, p)
    {
      CurrentProcessIsHeld(s, p);
      RunKeepsHandled(m, acts, u, t, p);
    }
  }

  // -- stopping --------------------------------------------------------------------

  /** No plan is requested and no worker is current. */
  ghost predicate Quiet(s: System) {
    && s.shared.request == None
    && (forall w | 0 <= w < |s.workers| :: s.workers[w].generation < s.shared.generation)
  }

  /** A halt that finds no request leaves the prefetcher quiet. */
  lemma HaltAfterStopIsQuiet(s: System, t: nat)
    requires Reachable(s) && Enabled(s, Halt(t)) && s.shared.request == None
    ensures Quiet(Apply(s, Halt(t)))
  {
    ReachableInv(s);
    GenerationsBounded(s);
  }

  /** Until the next start, a quiet prefetcher installs no worker, launches no process and leaves
      its status alone, apart from another stop() marking it stopped, however many older threads
      are still running. */
  lemma {:induction false} QuietUntilNextStart(s: System, acts: seq<Action>, t: System)
    requires Quiet(s) && Run(s, acts, t)
    requires forall a <- acts :: !a.Start?
    ensures Quiet(t)
    ensures |t.workers| == |s.workers|
    ensures |t.processes| == |s.processes|
    ensures t.shared.plannedFiles == s.shared.plannedFiles
    ensures t.shared.status == if Stop in acts then StopMarked(s.shared.status) else s.shared.status
    decreases |acts|
  {
    if acts != [] {
      QuietUntilNextStart(Apply(s, acts[0]), acts[1..], t);
    }
  }

  /** Nobody calls start or stop. */
  ghost predicate Undisturbed(acts: seq<Action>) {
    forall a <- acts :: !a.Start? && !a.Stop?
  }

  lemma {:induction false} NoLongerStopped(s: System, acts: seq<Action>, t: System)
    requires Inv(s) && s.shared.request == None && s.shared.status.state != Stopped && Run(s, acts, t)
    requires Undisturbed(acts)
    ensures t.shared.status.state != Stopped
    decreases |acts|
  {
    if acts != [] {
      StepKeepsInv(s, acts[0]);
      if acts[0].Work? {
        assert WorkerOk(s, acts[0].worker);
      }
      NoLongerStopped(Apply(s, acts[0]), acts[1..], t);
    }
  }

  /** One step of somebody else than a caller leaves a stopped status alone or is a worker's write. */
  lemma StoppedOrWritten(s: System, a: Action)
    requires Inv(s) && s.shared.request == None && s.shared.status.state == Stopped
    requires Enabled(s, a) && !a.Start? && !a.Stop?
    ensures var m := Apply(s, a);
            && |m.workers| == |s.workers|
            && if m.shared.status.state == Stopped then
                 forall w | 0 <= w < |s.workers| :: m.workers[w].wrote == s.workers[w].wrote
               else
                 a.Work? && |m.workers[a.worker].wrote| > |s.workers[a.worker].wrote|
  {
    if a.Work? {
      assert WorkerOk(s, a.worker);
    }
  }

  /** stop() takes the lock twice, and a worker that is still current may write in between. After
      the first lock marked the status stopped, it stays so (with no new start or stop) exactly
      when no worker writes a state of its own. */
  lemma {:induction false} StoppedStaysIffNoWorkerWrites(s: System, acts: seq<Action>, t: System)
    requires Inv(s) && s.shared.request == None && s.shared.status.state == Stopped && Run(s, acts, t)
    requires Undisturbed(acts)
    ensures |t.workers| == |s.workers|
    ensures t.shared.status.state == Stopped <==>
            forall w | 0 <= w < |s.workers| :: t.workers[w].wrote == s.workers[w].wrote
    decreases |acts|
  {
    if acts != [] {
      var a, m := acts[0], Apply(s, acts[0]);
      StepKeepsInv(s, a);
      StoppedOrWritten(s, a);
      if m.shared.status.state == Stopped {
        StoppedStaysIffNoWorkerWrites(m, acts[1..], t);
      } else {
        RunExtends(m, acts[1..], t);
        NoLongerStopped(m, acts[1..], t);
        QuietWorkerCount(m, acts[1..], t);
      }
    }
  }

  /** No plan is requested, and a worker that is still current has nothing left to do. */
  ghost predicate Settled(s: System) {
    && s.shared.request == None
    && (forall w | 0 <= w < |s.workers| && s.workers[w].generation == s.shared.generation ::
          s.workers[w].pc.Returned?)
  }

  lemma {:induction false} SettledKeepsStatus(s: System, acts: seq<Action>, t: System)
    requires Inv(s) && Settled(s) && Run(s, acts, t)
    requires Undisturbed(acts)
    ensures t.shared.status == s.shared.status
    decreases |acts|
  {
    if acts != [] {
      GenerationsBounded(s);
      StepKeepsInv(s, acts[0]);
      SettledKeepsStatus(Apply(s, acts[0]), acts[1..], t);
    }
  }

  lemma RunOnce(s: System, a: Action)
    requires Enabled(s, a)
    ensures Run(s, [a], Apply(s, a))
  {
    assert [a][1..] == [];
    assert Run(Apply(s, a), [], Apply(s, a));
  }

  /** A current worker about to write the status writes something other than "stopped". */
  lemma WritesNext(s: System, w: nat)
    requires Inv(s) && w < |s.workers| && s.workers[w].generation == s.shared.generation
    requires s.workers[w].pc.Finishing? || s.workers[w].pc.Marking?
    ensures Enabled(s, Work(w, Proceed)) && Apply(s, Work(w, Proceed)).shared.status.state != Stopped
  {
    assert WorkerOk(s, w);
  }

  /** A current worker whose command, if any, has exited comes to a write in at most one step. */
  lemma NearsWriting(s: System, w: nat) returns (input: Input)
    requires Inv(s) && w < |s.workers| && s.workers[w].generation == s.shared.generation
    requires !s.workers[w].pc.Returned? && !s.workers[w].pc.Finishing? && !s.workers[w].pc.Marking?
    requires s.workers[w].pc.Running? ==>
               s.workers[w].pc.process < |s.processes| && !s.processes[s.workers[w].pc.process].alive
    ensures Enabled(s, Work(w, input))
    ensures var t := Apply(s, Work(w, input));
            && |t.workers| == |s.workers| && t.workers[w].generation == t.shared.generation
            && (t.workers[w].pc.Finishing? || t.workers[w].pc.Marking?)
  {
    assert WorkerOk(s, w);
    input := if s.workers[w].pc.Planned? then Proceed else OsError("");
  }

  /** A current worker whose command, if any, has exited can overwrite the status. */
  lemma OverwritesSoon(s: System, w: nat) returns (acts: seq<Action>, t: System)
    requires Inv(s) && w < |s.workers| && s.workers[w].generation == s.shared.generation
    requires !s.workers[w].pc.Returned?
    requires s.workers[w].pc.Running? ==>
               s.workers[w].pc.process < |s.processes| && !s.processes[s.workers[w].pc.process].alive
    ensures Run(s, acts, t) && Undisturbed(acts) && t.shared.status.state != Stopped
    decreases if s.workers[w].pc.Finishing? || s.workers[w].pc.Marking? then 0 else 1
  {
    if s.workers[w].pc.Finishing? || s.workers[w].pc.Marking? {
      WritesNext(s, w);
      RunOnce(s, Work(w, Proceed));
      return [Work(w, Proceed)], Apply(s, Work(w, Proceed));
    }
    var input := NearsWriting(s, w);
    var near := Work(w, input);
    var m := Apply(s, near);
    StepKeepsInv(s, near);
    RunOnce(s, near);
    acts, t := OverwritesSoon(m, w);
    RunConcat(s, [near], m, acts, t);
    acts := [near] + acts;
  }

  /** The run in which a current worker that has not returned overwrites the status. */
  lemma CanOverwrite(s: System, w: nat) returns (acts: seq<Action>, t: System)
    requires Inv(s) && w < |s.workers| && s.workers[w].generation == s.shared.generation
    requires !s.workers[w].pc.Returned?
    ensures Run(s, acts, t) && Undisturbed(acts) && t.shared.status.state != Stopped
  {
    assert WorkerOk(s, w);
    if s.workers[w].pc.Running? && s.processes[s.workers[w].pc.process].alive {
      var exit := Exit(s.workers[w].pc.process, 0, "");
      var m := Apply(s, exit);
      StepKeepsInv(s, exit);
      RunOnce(s, exit);
      acts, t := OverwritesSoon(m, w);
      RunConcat(s, [exit], m, acts, t);
      acts := [exit] + acts;
    } else {
      acts, t := OverwritesSoon(s, w);
    }
  }

  /** What decides, at the moment stop() releases its first lock, whether the status it marked
      stays "stopped" whatever the threads do next: it does exactly when no current worker has
      work left. */
  lemma StopHoldsIffNobodyWorks(s: System)
    requires Reachable(s) && s.shared.request == None && s.shared.status.state == Stopped
    ensures (forall acts, t | Run(s, acts, t) && Undisturbed(acts) ::
               t.shared.status.state == Stopped)
       <==> (forall w | 0 <= w < |s.workers| :: s.workers[w].generation == s.shared.generation ==>
               s.workers[w].pc.Returned?)
  {
    ReachableInv(s);
    if Settled(s) {
      forall acts, t | Run(s, acts, t) && Undisturbed(acts)
        ensures t.shared.status.state == Stopped
      {
        SettledKeepsStatus(s, acts, t);
      }
    } else {
      var w :| 0 <= w < |s.workers| && s.workers[w].generation == s.shared.generation
               && !s.workers[w].pc.Returned?;
      var acts, t := CanOverwrite(s, w);
      assert Run(s, acts, t) && Undisturbed(acts);
    }
  }

  lemma {:induction false} QuietWorkerCount(s: System, acts: seq<Action>, t: System)
    requires s.shared.request == None && Run(s, acts, t)
    requires forall a <- acts :: !a.Start?
    ensures |t.workers| == |s.workers|
    decreases |acts|
  {
    if acts != [] {
      QuietWorkerCount(Apply(s, acts[0]), acts[1..], t);
    }
  }

  // -- what a worker carries and how it ends ---------------------------------------

  /** Every worker was installed by a step at which the request it carries was the one held. */
  lemma WorkerCarriesHeldRequest(acts: seq<Action>, t: System, w: nat)
    requires Run(INITIAL, acts, t) && w < |t.workers|
    ensures exists k, u :: InstalledAt(acts, k, u, w, t.workers[w].request)
  {
    WorkerWasInstalled(INITIAL, acts, t, w);
    var k: nat, u :| && k < |acts| && Run(INITIAL, acts[..k], u) && acts[k].Install?
                     && |u.workers| == w && u.shared.request == Some(t.workers[w].request);
    assert InstalledAt(acts, k, u, w, t.workers[w].request);
  }

  /** The `k`th action of the run installed worker `w` while `request` was held. */
  ghost predicate InstalledAt(acts: seq<Action>, k: nat, u: System, w: nat, request: Request) {
    && k < |acts|
    && Run(INITIAL, acts[..k], u)
    && acts[k].Install?
    && |u.workers| == w
    && u.shared.request == Some(request)
  }

  lemma {:induction false} WorkerWasInstalled(s: System, acts: seq<Action>, t: System, w: nat)
    requires Run(s, acts, t) && |s.workers| <= w < |t.workers|
    ensures exists k: nat, u ::
              && k < |acts| && Run(s, acts[..k], u) && acts[k].Install?
              && |u.workers| == w && u.shared.request == Some(t.workers[w].request)
    decreases |acts|
  {
    if acts != [] {
      var m := Apply(s, acts[0]);
      if |m.workers| <= w {
        WorkerWasInstalled(m, acts[1..], t, w);
        var k: nat, u :| && k < |acts[1..]| && Run(m, acts[1..][..k], u) && acts[1..][k].Install?
                         && |u.workers| == w && u.shared.request == Some(t.workers[w].request);
        assert acts[..k + 1][1..] == acts[1..][..k];
        assert Run(s, acts[..k + 1], u) && acts[k + 1].Install?;
      } else {
        RunExtends(m, acts[1..], t);
        assert Run(s, acts[..0], s) && acts[0].Install?;
      }
    }
  }

  /** A worker's writes are nothing, one terminal state, or downloading and then done or failed. */
  lemma WritesFollowThePath(s: System, w: nat)
    requires Reachable(s) && w < |s.workers|
    ensures var wrote := s.workers[w].wrote;
            || wrote == [] || wrote == [Downloading]
            || (|wrote| == 1 && wrote[0] in {Skipped, Failed, Done})
            || (|wrote| == 2 && wrote[0] == Downloading && wrote[1] in {Done, Failed})
  {
    ReachableInv(s);
    assert WorkerOk(s, w);
  }

  predicate AboutToWrite(pc: WorkerPc) {
    pc.Marking? || pc.Finishing?
  }

  function Rest(pc: WorkerPc): nat {
    match pc
    case CheckOnline => 15
    case CheckMirror => 14
    case Launching(stage) => StageSteps(stage) + 1
    case Running(stage, _) => StageSteps(stage)
    case Configure => 11
    case Sizing => 6
    case Planned(_) => 5
    case Marking => 4
    case Finishing(_, _) => 1
    case Returned => 0
  }

  function StageSteps(stage: Stage): (n: nat)
    ensures n > 1
  {
    match stage
    case Rank => 12
    case Sync => 9
    case Size => 7
    case Fetch => 2
  }

  /** Worker `w` is current and the status shows its last write. */
  ghost predicate Tells(s: System, w: nat) {
    && w < |s.workers|
    && s.workers[w].generation == s.shared.generation
    && s.shared.status.state == LastWrite(s.workers[w])
  }

  /** What the worker made of the status: it was installed with "preparing". */
  function LastWrite(w: Worker): StateName {
    if w.wrote == [] then Preparing else w.wrote[|w.wrote| - 1]
  }

  predicate Steps(a: Action, w: nat) {
    a.Work? && a.worker == w
  }

  function Count(acts: seq<Action>, w: nat): nat {
    if acts == [] then 0 else (if Steps(acts[0], w) then 1 else 0) + Count(acts[1..], w)
  }

  lemma CommandIsCloser(stage: Stage, ok: bool, partial: bool, complaint: string)
    ensures Rest(AfterCommand(stage, ok, partial, complaint)) < StageSteps(stage)
  {
  }

  /** Where a step takes a worker. */
  function NextPc(me: Worker, input: Input, current: bool, next: nat, ok: bool, complaint: string): WorkerPc
    requires InputFits(me.pc, input)
  {
    if input.OsError? then Finishing(Failed, input.message)
    else
      match me.pc
      case CheckOnline => if input.yes then CheckMirror else Finishing(Skipped, "no internet connection")
      case CheckMirror => if input.yes then Configure else Launching(Rank)
      case Configure => Launching(Sync)
      case Launching(stage) => if current then Running(stage, next) else Returned
      case Running(stage, _) => AfterCommand(stage, ok, me.partial, complaint)
      case Sizing => Planned(input.plan)
      case Planned(plan) => if current then AfterPlan(plan) else Returned
      case Marking => if current then Launching(Fetch) else Returned
      case Finishing(_, _) => Returned
      case Returned => Returned
  }

  lemma WorkTakesTo(s: System, w: nat, input: Input)
    requires Enabled(s, Work(w, input))
    ensures var me := s.workers[w];
            var ok := me.pc.Running? && s.processes[me.pc.process].code == 0;
            var complaint := if me.pc.Running? then s.processes[me.pc.process].complaint else "";
            DoWork(s, w, input).workers[w].pc
            == NextPc(me, input, me.generation == s.shared.generation, |s.processes|, ok, complaint)
  {
  }

  lemma ErrorIsCloser(me: Worker, input: Input, current: bool, next: nat, ok: bool, complaint: string)
    requires InputFits(me.pc, input) && input.OsError?
    ensures Rest(NextPc(me, input, current, next, ok, complaint)) < Rest(me.pc)
  {
    assert Rest(NextPc(me, input, current, next, ok, complaint)) == 1;
  }

  lemma AskingIsCloser(me: Worker, input: Input, current: bool, next: nat, ok: bool, complaint: string)
    requires input.Answer? && (me.pc.CheckOnline? || me.pc.CheckMirror?)
    ensures Rest(NextPc(me, input, current, next, ok, complaint)) < Rest(me.pc)
  {
  }

  lemma PlanLeadsTo(plan: Planning)
    ensures AboutToWrite(AfterPlan(plan))
  {
  }

  lemma PlanIsCloser(plan: Planning)
    ensures Rest(AfterPlan(plan)) <= 4
  {
    PlanLeadsTo(plan);
    WritingIsLate(AfterPlan(plan));
  }

  lemma WritingIsLate(pc: WorkerPc)
    requires AboutToWrite(pc)
    ensures Rest(pc) <= 4
  {
  }

  lemma NextIsCloser(me: Worker, input: Input, current: bool, next: nat, ok: bool, complaint: string)
    requires InputFits(me.pc, input)
    ensures Rest(NextPc(me, input, current, next, ok, complaint)) < Rest(me.pc)
  {
    if input.OsError? {
      ErrorIsCloser(me, input, current, next, ok, complaint);
    } else {
      match me.pc
      case CheckOnline => AskingIsCloser(me, input, current, next, ok, complaint);
      case CheckMirror => AskingIsCloser(me, input, current, next, ok, complaint);
      case Running(stage, _) => CommandIsCloser(stage, ok, me.partial, complaint);
      case Planned(plan) => PlanIsCloser(plan);
      case _ =>
    }
  }

  /** Every step brings a worker closer to its end; an OS error only skips ahead. */
  lemma WorkMakesProgress(s: System, w: nat, input: Input)
    requires Enabled(s, Work(w, input))
    ensures Rest(DoWork(s, w, input).workers[w].pc) < Rest(s.workers[w].pc)
  {
    var me := s.workers[w];
    WorkTakesTo(s, w, input);
    NextIsCloser(me, input, me.generation == s.shared.generation, |s.processes|,
                 me.pc.Running? && s.processes[me.pc.process].code == 0,
                 if me.pc.Running? then s.processes[me.pc.process].complaint else "");
  }

  lemma {:induction false} RunMakesProgress(s: System, acts: seq<Action>, t: System, w: nat)
    requires Inv(s) && Run(s, acts, t) && w < |s.workers|
    ensures w < |t.workers| && Rest(t.workers[w].pc) + Count(acts, w) <= Rest(s.workers[w].pc)
    decreases |acts|
  {
    if acts != [] {
      StepKeepsInv(s, acts[0]);
      if Steps(acts[0], w) {
        WorkMakesProgress(s, w, acts[0].input);
      }
      RunMakesProgress(Apply(s, acts[0]), acts[1..], t, w);
    }
  }

  // -- which workers end in a terminal state -----------------------------------------

  /** The last state the worker wrote is a terminal one. */
  predicate EndsWell(w: Worker) {
    w.wrote != [] && Terminal(w.wrote[|w.wrote| - 1])
  }

  ghost predicate CurrentEndsWell(s: System) {
    forall w | 0 <= w < |s.workers| ::
      s.workers[w].generation == s.shared.generation && s.workers[w].pc.Returned? ==> EndsWell(s.workers[w])
  }

  lemma OwnStepEnds(s: System, w: nat, input: Input)
    requires Enabled(s, Work(w, input)) && WritePath(s.workers[w])
    ensures var me := DoWork(s, w, input).workers[w];
            s.workers[w].generation == s.shared.generation && me.pc.Returned? ==> EndsWell(me)
  {
  }

  lemma StepKeepsEnds(s: System, a: Action)
    requires Inv(s) && CurrentEndsWell(s) && Enabled(s, a)
    ensures CurrentEndsWell(Apply(s, a))
  {
    if a.Work? {
      assert WorkerOk(s, a.worker);
      OwnStepEnds(s, a.worker, a.input);
    } else {
      GenerationsBounded(s);
    }
  }

  lemma {:induction false} RunKeepsEnds(s: System, acts: seq<Action>, t: System)
    requires Inv(s) && CurrentEndsWell(s) && Run(s, acts, t)
    ensures CurrentEndsWell(t)
    decreases |acts|
  {
    if acts != [] {
      StepKeepsInv(s, acts[0]);
      StepKeepsEnds(s, acts[0]);
      RunKeepsEnds(Apply(s, acts[0]), acts[1..], t);
    }
  }

  /** In every reachable state, a current worker that has returned ended in a terminal state. */
  lemma ReturnedCurrentEndsWell(s: System, w: nat)
    requires Reachable(s) && w < |s.workers|
    requires s.workers[w].generation == s.shared.generation && s.workers[w].pc.Returned?
    ensures EndsWell(s.workers[w])
  {
    var acts :| Run(INITIAL, acts, s);
    RunKeepsEnds(INITIAL, acts, s);
  }

  /** The generation stays the worker's until it returns: no halt and no install falls while it
      still works. */
  ghost predicate KeepsTurn(s: System, acts: seq<Action>, w: nat)
    decreases |acts|
  {
    && w < |s.workers|
    && (|| s.workers[w].pc.Returned?
        || (s.workers[w].generation == s.shared.generation
            && (acts != [] && Enabled(s, acts[0]) ==> KeepsTurn(Apply(s, acts[0]), acts[1..], w))))
  }

  /** A superseded worker writes nothing more. */
  lemma {:induction false} StaleWritesNothing(s: System, acts: seq<Action>, t: System, w: nat)
    requires Run(s, acts, t) && w < |s.workers| && s.workers[w].generation < s.shared.generation
    ensures w < |t.workers| && t.workers[w].wrote == s.workers[w].wrote
    decreases |acts|
  {
    if acts != [] {
      StaleWritesNothing(Apply(s, acts[0]), acts[1..], t, w);
    }
  }

  lemma {:induction false} ReturnedWritesNothing(s: System, acts: seq<Action>, t: System, w: nat)
    requires Run(s, acts, t) && w < |s.workers| && s.workers[w].pc.Returned?
    ensures w < |t.workers| && t.workers[w] == s.workers[w]
    decreases |acts|
  {
    if acts != [] {
      ReturnedWritesNothing(Apply(s, acts[0]), acts[1..], t, w);
    }
  }

  lemma {:induction false} EndsWellFrom(s: System, acts: seq<Action>, t: System, w: nat)
    requires Inv(s) && CurrentEndsWell(s) && Run(s, acts, t)
    requires w < |s.workers| && s.workers[w].generation == s.shared.generation
    ensures w < |t.workers|
    ensures t.workers[w].pc.Returned? ==> (EndsWell(t.workers[w]) <==> KeepsTurn(s, acts, w))
    decreases |acts|
  {
    RunExtends(s, acts, t);
    if s.workers[w].pc.Returned? {
      ReturnedWritesNothing(s, acts, t, w);
    } else if acts != [] {
      var m := Apply(s, acts[0]);
      StepKeepsInv(s, acts[0]);
      StepKeepsEnds(s, acts[0]);
      RunExtends(m, acts[1..], t);
      assert WorkerOk(s, w) && WorkerOk(m, w);
      if m.workers[w].generation == m.shared.generation {
        EndsWellFrom(m, acts[1..], t, w);
      } else {
        StaleWritesNothing(m, acts[1..], t, w);
        assert m.workers[w] == s.workers[w] && !EndsWell(m.workers[w]);
      }
    }
  }

  /** Exactly which workers end in a terminal state, in any run whatsoever: from any reachable
      state in which a worker is current, once it has returned its last write is terminal if and
      only if the generation stayed its own until it returned. */
  lemma EndsWellIffTurnKept(s: System, acts: seq<Action>, t: System, w: nat)
    requires Reachable(s) && Run(s, acts, t)
    requires w < |s.workers| && s.workers[w].generation == s.shared.generation
    ensures w < |t.workers|
    ensures t.workers[w].pc.Returned? ==> (EndsWell(t.workers[w]) <==> KeepsTurn(s, acts, w))
  {
    ReachableInv(s);
    var before :| Run(INITIAL, before, s);
    RunKeepsEnds(INITIAL, before, s);
    EndsWellFrom(s, acts, t, w);
  }

  // -- what the status shows -----------------------------------------------------------

  // Every other step writes no state.
  lemma QuietWork(s: System, w: nat, input: Input, t: System)
    requires Tells(s, w) && Enabled(s, Work(w, input)) && t == DoWork(s, w, input)
    requires input.OsError? || !AboutToWrite(s.workers[w].pc)
    ensures t.shared.generation == s.shared.generation && t.shared.status.state == s.shared.status.state
    ensures w < |t.workers| && t.workers[w].wrote == s.workers[w].wrote
    ensures t.workers[w].generation == s.workers[w].generation
  {
  }

  lemma OwnWorkTells(s: System, w: nat, input: Input)
    requires Tells(s, w) && Enabled(s, Work(w, input))
    ensures Tells(DoWork(s, w, input), w)
  {
    if input.OsError? || !AboutToWrite(s.workers[w].pc) {
      QuietWork(s, w, input, DoWork(s, w, input));
    }
  }

  lemma OthersWorkTells(s: System, v: nat, input: Input, w: nat)
    requires Tells(s, w) && Enabled(s, Work(v, input)) && s.workers[v].generation != s.shared.generation
    ensures Tells(DoWork(s, v, input), w)
  {
    var t := DoWork(s, v, input);
    assert t.shared.status == s.shared.status && t.workers[w] == s.workers[w];
  }

  lemma StepTells(s: System, a: Action, w: nat)
    requires Inv(s) && Tells(s, w) && Enabled(s, a) && !a.Start? && !a.Stop?
    requires Apply(s, a).shared.generation == s.shared.generation
    ensures Tells(Apply(s, a), w)
  {
    if a.Work? {
      if a.worker == w { OwnWorkTells(s, w, a.input); } else { OthersWorkTells(s, a.worker, a.input, w); }
    }
  }

  /** As long as a worker stays current and nobody calls start or stop, the status shows its last
      write. */
  lemma {:induction false} RunTells(s: System, acts: seq<Action>, t: System, w: nat)
    requires Inv(s) && Tells(s, w) && Run(s, acts, t)
    requires Undisturbed(acts)
    requires w < |t.workers| && t.workers[w].generation == t.shared.generation
    ensures Tells(t, w)
    decreases |acts|
  {
    if acts != [] {
      var m := Apply(s, acts[0]);
      RunExtends(m, acts[1..], t);
      StepKeepsInv(s, acts[0]);
      StepTells(s, acts[0], w);
      RunTells(m, acts[1..], t, w);
    }
  }

  /** A worker that has not returned can take a step, or waits for a command that is still running. */
  lemma CanGoOn(s: System, w: nat)
    requires w < |s.workers| && !s.workers[w].pc.Returned?
    requires s.workers[w].pc.Running? ==> s.workers[w].pc.process < |s.processes|
    ensures || (exists input :: Enabled(s, Work(w, input)))
            || (s.workers[w].pc.Running? && Enabled(s, Exit(s.workers[w].pc.process, 0, "")))
  {
    if !s.workers[w].pc.Running? {
      var input := if s.workers[w].pc.Sizing? then Listing(Planning([], {}, 0))
                   else if s.workers[w].pc.CheckOnline? || s.workers[w].pc.CheckMirror? then Answer(true)
                   else Proceed;
      assert Enabled(s, Work(w, input));
    } else if !s.processes[s.workers[w].pc.process].alive {
      assert Enabled(s, Work(w, Proceed));
    }
  }

  /** What becomes of an installed worker in any run: it takes at most fifteen steps; until it has
      returned it can take another or waits for a command to exit; once it has, its last write is
      terminal exactly when the generation stayed its own; and while it is current and nobody calls
      start or stop, the status shows its last write. */
  lemma InstalledWorkerSettles(s: System, t: nat, acts: seq<Action>, u: System)
    requires Reachable(s) && Enabled(s, Install(t)) && s.shared.request == Some(s.threads[t].request)
    requires Run(Apply(s, Install(t)), acts, u)
    ensures var w, m := |s.workers|, Apply(s, Install(t));
            && w < |m.workers| && w < |u.workers|
            && Count(acts, w) <= 15
            && (!u.workers[w].pc.Returned? ==>
                  || (exists input :: Enabled(u, Work(w, input)))
                  || (u.workers[w].pc.Running? && Enabled(u, Exit(u.workers[w].pc.process, 0, ""))))
            && (u.workers[w].pc.Returned? ==> (EndsWell(u.workers[w]) <==> KeepsTurn(m, acts, w)))
            && (Undisturbed(acts) && u.workers[w].generation == u.shared.generation ==> Tells(u, w))
  {
    var w, m := |s.workers|, Apply(s, Install(t));
    ReachableInv(s);
    StepKeepsInv(s, Install(t));
    RunKeepsInv(m, acts, u);
    RunMakesProgress(m, acts, u, w);
    assert WorkerOk(u, w);
    if !u.workers[w].pc.Returned? { CanGoOn(u, w); }
    StepIsReachable(s, Install(t));
    EndsWellIffTurnKept(m, acts, u, w);
    if Undisturbed(acts) && u.workers[w].generation == u.shared.generation {
      RunTells(m, acts, u, w);
    }
  }

  lemma StepIsReachable(s: System, a: Action)
    requires Reachable(s) && Enabled(s, a)
    ensures Reachable(Apply(s, a))
  {
    var acts :| Run(INITIAL, acts, s);
    RunOnce(s, a);
    RunConcat(INITIAL, acts, s, [a], Apply(s, a));
  }

  /** Nobody is left who could take the generation from a current worker. */
  lemma {:induction false} NobodyTakesTurn(s: System, acts: seq<Action>, t: System, w: nat)
    requires Run(s, acts, t) && w < |s.workers| && s.workers[w].generation == s.shared.generation
    requires forall i | 0 <= i < |s.threads| :: s.threads[i].pc.Over?
    requires Undisturbed(acts)
    ensures KeepsTurn(s, acts, w)
    ensures w < |t.workers| && t.workers[w].generation == t.shared.generation
    decreases |acts|
  {
    if acts != [] {
      NobodyTakesTurn(Apply(s, acts[0]), acts[1..], t, w);
    }
  }

  /** When no other restart is outstanding as the newest worker is installed, and nobody calls
      start or stop, that worker takes at most fifteen steps, can always go on once its command
      has exited, and when it can take no more the status holds the one terminal state it wrote. */
  lemma LoneWorkerSettles(s: System, t: nat, acts: seq<Action>, u: System)
    requires Reachable(s) && Enabled(s, Install(t))
    requires s.shared.request == Some(s.threads[t].request)
    requires forall other | 0 <= other < |s.threads| && other != t :: s.threads[other].pc.Over?
    requires Run(Apply(s, Install(t)), acts, u)
    requires Undisturbed(acts)
    ensures var w := |s.workers|;
            && w < |u.workers|
            && Count(acts, w) <= 15
            && (u.workers[w].pc.Returned? ==>
                  && Terminal(u.shared.status.state)
                  && u.workers[w].wrote != []
                  && (forall i | 0 <= i < |u.workers[w].wrote| ::
                        Terminal(u.workers[w].wrote[i]) <==> i == |u.workers[w].wrote| - 1)
                  && u.shared.status.state == u.workers[w].wrote[|u.workers[w].wrote| - 1])
            && (!u.workers[w].pc.Returned? ==>
                  || (exists input :: Enabled(u, Work(w, input)))
                  || (u.workers[w].pc.Running? && Enabled(u, Exit(u.workers[w].pc.process, 0, ""))))
  {
    var w, m := |s.workers|, Apply(s, Install(t));
    ReachableInv(s);
    NobodyTakesTurn(m, acts, u, w);
    InstalledWorkerSettles(s, t, acts, u);
    StepIsReachable(s, Install(t));
    RunIsReachable(m, acts, u);
    WritesFollowThePath(u, w);
  }

  lemma RunIsReachable(s: System, acts: seq<Action>, t: System)
    requires Reachable(s) && Run(s, acts, t)
    ensures Reachable(t)
  {
    var before :| Run(INITIAL, before, s);
    RunConcat(INITIAL, before, s, acts, t);
  }

  // -- the status once everything has settled ---------------------------------------------

  ghost predicate AllThreadsOver(s: System) {
    forall t | 0 <= t < |s.threads| :: s.threads[t].pc.Over?
  }

  /** A restart that is still to come will install a worker for the request that is held. */
  ghost predicate Outstanding(s: System) {
    exists t :: && 0 <= t < |s.threads| && s.threads[t].Restart? && !s.threads[t].pc.Over?
                && s.shared.request == Some(s.threads[t].request)
  }

  ghost predicate NewestTells(s: System) {
    s.workers != [] && s.shared.status.state == LastWrite(s.workers[|s.workers| - 1])
  }

  /** While a plan is requested, its restart is still to come or the status is the newest worker's. */
  ghost predicate Attended(s: System) {
    s.shared.request.Some? ==> Outstanding(s) || NewestTells(s)
  }

  lemma StepKeepsOutstanding(s: System, a: Action)
    requires Outstanding(s) && Enabled(s, a) && !a.Start? && !a.Stop? && !a.Install?
    ensures Outstanding(Apply(s, a))
  {
    var t :| && 0 <= t < |s.threads| && s.threads[t].Restart? && !s.threads[t].pc.Over?
             && s.shared.request == Some(s.threads[t].request);
    assert Apply(s, a).threads[t].Restart? && !Apply(s, a).threads[t].pc.Over?;
  }

  lemma StartIsAttended(s: System, request: Request)
    requires Attended(s)
    ensures Attended(Apply(s, Start(request)))
  {
    var m := Apply(s, Start(request));
    if Accepts(s.shared, request) {
      assert m.threads[|s.threads|] == Restart(request, Before);
    }
  }

  lemma InstallIsAttended(s: System, t: nat)
    requires Attended(s) && Enabled(s, Install(t))
    ensures Attended(Apply(s, Install(t)))
  {
    var m := Apply(s, Install(t));
    if s.shared.request != Some(s.threads[t].request) && s.shared.request.Some? && Outstanding(s) {
      var other :| && 0 <= other < |s.threads| && s.threads[other].Restart? && !s.threads[other].pc.Over?
                   && s.shared.request == Some(s.threads[other].request);
      assert m.threads[other] == s.threads[other];
    }
  }

  lemma CurrentIsNewest(s: System, w: nat)
    requires Inv(s) && w < |s.workers| && s.workers[w].generation == s.shared.generation
    ensures w == |s.workers| - 1
  {
    assert WorkerOk(s, |s.workers| - 1);
  }

  lemma StaleWritesNothingNow(s: System, w: nat, input: Input, m: System)
    requires Enabled(s, Work(w, input)) && s.workers[w].generation != s.shared.generation && m == DoWork(s, w, input)
    ensures m.shared.status == s.shared.status && |m.workers| == |s.workers|
    ensures forall v | 0 <= v < |s.workers| :: m.workers[v].wrote == s.workers[v].wrote
  {
  }

  lemma WorkAddsNobody(s: System, w: nat, input: Input, m: System)
    requires Enabled(s, Work(w, input)) && m == DoWork(s, w, input)
    ensures |m.workers| == |s.workers|
  {
  }

  lemma TellsAsNewest(m: System, w: nat)
    requires Tells(m, w) && |m.workers| == w + 1
    ensures NewestTells(m)
  {
  }

  /** Only the newest worker can be current, so a step writes the status and the newest worker's
      writes together or neither. */
  lemma WorkKeepsNewest(s: System, w: nat, input: Input, m: System)
    requires Inv(s) && NewestTells(s) && Enabled(s, Work(w, input)) && m == DoWork(s, w, input)
    ensures NewestTells(m)
  {
    if s.workers[w].generation != s.shared.generation {
      StaleWritesNothingNow(s, w, input, m);
    } else {
      CurrentIsNewest(s, w);
      OwnWorkTells(s, w, input);
      WorkAddsNobody(s, w, input, m);
      TellsAsNewest(m, w);
    }
  }

  lemma StepIsAttended(s: System, a: Action)
    requires Inv(s) && Attended(s) && Enabled(s, a)
    ensures Attended(Apply(s, a))
  {
    if a.Start? {
      StartIsAttended(s, a.request);
    } else if a.Install? {
      InstallIsAttended(s, a.thread);
    } else if !a.Stop? && s.shared.request.Some? {
      if Outstanding(s) {
        StepKeepsOutstanding(s, a);
      } else if a.Work? {
        WorkKeepsNewest(s, a.worker, a.input, Apply(s, a));
      }
    }
  }

  lemma {:induction false} RunIsAttended(s: System, acts: seq<Action>, t: System)
    requires Inv(s) && Attended(s) && Run(s, acts, t)
    ensures Attended(t)
    decreases |acts|
  {
    if acts != [] {
      StepKeepsInv(s, acts[0]);
      StepIsAttended(s, acts[0]);
      RunIsAttended(Apply(s, acts[0]), acts[1..], t);
    }
  }

  /** What the status says once every thread has returned while a plan is requested: the newest
      worker's last write. It is terminal exactly when that worker ended well; otherwise it reads
      "preparing" or "downloading", and asking for the plan again is refused. */
  lemma SettledStatus(s: System)
    requires Reachable(s) && s.shared.request.Some? && AllThreadsOver(s)
    ensures s.workers != []
    ensures var newest := s.workers[|s.workers| - 1];
            && s.shared.status.state == LastWrite(newest)
            && (Terminal(s.shared.status.state) <==> EndsWell(newest))
            && (!EndsWell(newest) ==>
                  s.shared.status.state in {Preparing, Downloading} && !Accepts(s.shared, s.shared.request.value))
  {
    var acts :| Run(INITIAL, acts, s);
    RunIsAttended(INITIAL, acts, s);
    ReachableInv(s);
    assert WorkerOk(s, |s.workers| - 1);
  }

  /** The same along a run: once the newest worker has returned and no thread is left, the status is
      terminal if and only if no halt and no install fell into that worker's turn. */
  lemma SettledIffTurnKept(s: System, acts: seq<Action>, t: System, w: nat)
    requires Reachable(s) && Run(s, acts, t)
    requires w < |s.workers| && s.workers[w].generation == s.shared.generation
    requires t.shared.request.Some? && AllThreadsOver(t) && |t.workers| == w + 1 && t.workers[w].pc.Returned?
    ensures Terminal(t.shared.status.state) <==> KeepsTurn(s, acts, w)
  {
    RunIsReachable(s, acts, t);
    SettledStatus(t);
    EndsWellIffTurnKept(s, acts, t, w);
  }

  // -- stale processes ----------------------------------------------------------------

  /** Somebody will signal this process: it is in the process field of the current worker, or a
      halting thread holds it, or it has been signalled already. */
  ghost predicate Claimed(s: System, p: nat)
    requires p < |s.processes|
  {
    || s.processes[p].doomed
    || (exists t :: 0 <= t < |s.threads| && s.threads[t].pc == Terminating(Some(p)))
    || (s.shared.process == Some(p)
        && s.processes[p].worker < |s.workers|
        && s.workers[s.processes[p].worker].generation == s.shared.generation)
  }

  /** No process runs on that nobody will ever signal. */
  ghost predicate NoStale(s: System) {
    forall p | 0 <= p < |s.processes| && s.processes[p].alive :: Claimed(s, p)
  }

  /** The guard of the one step that can break this: an install that replaces a worker whose
      process is running and that no thread has captured. */
  ghost predicate Abandons(s: System, a: Action)
    requires Enabled(s, a)
  {
    && a.Install?
    && s.shared.request == Some(s.threads[a.thread].request)
    && s.shared.process.Some?
    && s.shared.process.value < |s.processes|
    && s.processes[s.shared.process.value].alive
    && !s.processes[s.shared.process.value].doomed
    && (forall t | 0 <= t < |s.threads| :: s.threads[t].pc != Terminating(s.shared.process))
  }

  lemma InstallAndStale(s: System, a: Action)
    requires Inv(s) && NoStale(s) && Enabled(s, a) && a.Install?
    ensures NoStale(Apply(s, a)) <==> !Abandons(s, a)
  {
    var u := Apply(s, a);
    if s.shared.request == Some(s.threads[a.thread].request) {
      if Abandons(s, a) {
        var p := s.shared.process.value;
        assert ProcessOk(s, p);
        assert WorkerOk(s, s.processes[p].worker);
        forall t | 0 <= t < |u.threads| ensures u.threads[t].pc != Terminating(Some(p)) {
          assert s.threads[t].pc != Terminating(Some(p));
        }
        assert !Claimed(u, p);
      } else {
        forall p | 0 <= p < |u.processes| && u.processes[p].alive ensures Claimed(u, p) {
          assert Claimed(s, p);
          if !s.processes[p].doomed {
            var t :| 0 <= t < |s.threads| && s.threads[t].pc == Terminating(Some(p));
            assert u.threads[t].pc == Terminating(Some(p));
          }
        }
      }
    } else {
      forall p | 0 <= p < |u.processes| && u.processes[p].alive ensures Claimed(u, p) {
        assert Claimed(s, p);
        if t :| 0 <= t < |s.threads| && s.threads[t].pc == Terminating(Some(p)) {
          assert u.threads[t].pc == Terminating(Some(p));
        }
      }
    }
  }

  lemma OthersKeepNoStale(s: System, a: Action)
    requires Inv(s) && NoStale(s) && Enabled(s, a) && !a.Install?
    ensures NoStale(Apply(s, a))
  {
    var u := Apply(s, a);
    forall p | 0 <= p < |u.processes| && u.processes[p].alive ensures Claimed(u, p) {
      if p < |s.processes| {
        assert Claimed(s, p) && ProcessOk(s, p) && WorkerOk(s, s.processes[p].worker);
        if t :| 0 <= t < |s.threads| && s.threads[t].pc == Terminating(Some(p)) {
          assert !(a.Signal? && a.thread == t) ==> u.threads[t].pc == Terminating(Some(p));
        }
        if a.Halt? {
          assert u.threads[a.thread].pc == Terminating(s.shared.process);
        }
        if a.Work? {
          assert WorkerOk(s, a.worker);
        }
      }
    }
  }

  /** A step leaves a stale process behind exactly when it is an install that replaces a running,
      uncaptured one. */
  lemma StaleIffAbandoned(s: System, a: Action)
    requires Reachable(s) && NoStale(s) && Enabled(s, a)
    ensures NoStale(Apply(s, a)) <==> !Abandons(s, a)
  {
    ReachableInv(s);
    if a.Install? {
      InstallAndStale(s, a);
    } else {
      OthersKeepNoStale(s, a);
    }
  }

  /** No state of the run has a process that nobody will signal. */
  ghost predicate NeverStale(s: System, acts: seq<Action>)
    decreases |acts|
  {
    NoStale(s) && (acts != [] && Enabled(s, acts[0]) ==> NeverStale(Apply(s, acts[0]), acts[1..]))
  }

  /** Some step of the run abandons a process. */
  ghost predicate EverAbandons(s: System, acts: seq<Action>)
    decreases |acts|
  {
    acts != [] && Enabled(s, acts[0]) && (Abandons(s, acts[0]) || EverAbandons(Apply(s, acts[0]), acts[1..]))
  }

  /** For whole runs: no process is ever left that nobody will signal, if and only if no step of the
      run is such an install. */
  lemma {:induction false} NeverStaleIffNeverAbandons(s: System, acts: seq<Action>, t: System)
    requires Reachable(s) && NoStale(s) && Run(s, acts, t)
    ensures NeverStale(s, acts) <==> !EverAbandons(s, acts)
    decreases |acts|
  {
    if acts != [] {
      var m := Apply(s, acts[0]);
      StaleIffAbandoned(s, acts[0]);
      if NoStale(m) {
        StepIsReachable(s, acts[0]);
        NeverStaleIffNeverAbandons(m, acts[1..], t);
      }
    }
  }

  predicate Pastly(th: Thread) {
    th.Restart? && (th.pc.Terminating? || th.pc.Through?)
  }

  /** At most one restart is between its halt and its install. */
  ghost predicate OneRestart(s: System) {
    forall i, j | 0 <= i < |s.threads| && 0 <= j < |s.threads| && Pastly(s.threads[i]) && Pastly(s.threads[j]) :: i == j
  }

  /** While a restart is between its halt and its install, no worker is current. */
  ghost predicate Vacant(s: System) {
    (exists i :: 0 <= i < |s.threads| && Pastly(s.threads[i])) ==>
      forall w | 0 <= w < |s.workers| :: s.workers[w].generation < s.shared.generation
  }

  /** Restarts that do not overlap: in every state of the run at most one is under way. */
  ghost predicate Serial(s: System, acts: seq<Action>)
    decreases |acts|
  {
    OneRestart(s) && (acts != [] && Enabled(s, acts[0]) ==> Serial(Apply(s, acts[0]), acts[1..]))
  }

  lemma StepKeepsVacant(s: System, a: Action)
    requires Inv(s) && Enabled(s, a) && OneRestart(s) && Vacant(s)
    ensures Vacant(Apply(s, a))
  {
    var u := Apply(s, a);
    GenerationsBounded(s);
    if a.Install? {
      assert Pastly(s.threads[a.thread]);
      assert forall i | 0 <= i < |u.threads| :: !Pastly(u.threads[i]);
    } else if !a.Halt? {
      assert forall i | 0 <= i < |u.threads| && Pastly(u.threads[i]) :: Pastly(s.threads[i]);
    }
  }

  lemma {:induction false} SerialRunIsClean(s: System, acts: seq<Action>, t: System)
    requires Inv(s) && NoStale(s) && Vacant(s) && Run(s, acts, t) && Serial(s, acts)
    ensures Inv(t) && NoStale(t)
    decreases |acts|
  {
    if acts != [] {
      var a := acts[0];
      StepKeepsInv(s, a);
      StepKeepsVacant(s, a);
      if a.Install? {
        assert Pastly(s.threads[a.thread]);
        if s.shared.process.Some? && s.processes[s.shared.process.value].alive {
          assert Claimed(s, s.shared.process.value);
        }
        InstallAndStale(s, a);
      } else {
        OthersKeepNoStale(s, a);
      }
      SerialRunIsClean(Apply(s, a), acts[1..], t);
    }
  }

  /** As long as restarts do not overlap, at most one background download runs: any process that
      is running unsignalled and unclaimed by a halting thread is the current worker's. */
  lemma SerialRestartsRunOneDownload(acts: seq<Action>, t: System)
    requires Run(INITIAL, acts, t) && Serial(INITIAL, acts)
    ensures NoStale(t)
    ensures forall p, q |
              && 0 <= p < |t.processes| && 0 <= q < |t.processes|
              && t.processes[p].alive && !t.processes[p].doomed
              && t.processes[q].alive && !t.processes[q].doomed
              && (forall i | 0 <= i < |t.threads| :: !t.threads[i].pc.Terminating?)
              :: p == q
  {
    SerialRunIsClean(INITIAL, acts, t);
    assert forall p | 0 <= p < |t.processes| && t.processes[p].alive :: Claimed(t, p);
  }
}
