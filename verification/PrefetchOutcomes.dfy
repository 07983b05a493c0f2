/**
 Which state a worker ends in, told by what it heard and by how its own processes exited: the
 answers and listings it was given are read off the run, apart from what the worker does with them.
 */
module PrefetchOutcomes {
  import opened Common
  import opened Packer
  import opened Prefetch
  import opened PrefetchSystem
  import opened PrefetchTheorems

  // -- what a worker heard ------------------------------------------------------

  /** What worker `w` learned from the outside world in a run, step by step. */
  function Heard(acts: seq<Action>, w: nat): seq<Input> {
    if acts == [] then []
    else
      var init, last := Heard(acts[..|acts| - 1], w), acts[|acts| - 1];
      if Steps(last, w) then init + [last.input] else init
  }

  predicate Errored(heard: seq<Input>) {
    exists i :: 0 <= i < |heard| && heard[i].OsError?
  }

  predicate Offline(heard: seq<Input>) {
    heard != [] && heard[0] == Answer(false)
  }

  /** The worker was given this listing. */
  predicate Listed(heard: seq<Input>, plan: Planning) {
    Listing(plan) in heard
  }

  predicate SomethingPending(plan: Planning) {
    exists d <- plan.downloads :: d.filename !in plan.present
  }

  /** No package still to be downloaded fits the budget, or it is too small to begin. */
  predicate NothingFits(plan: Planning) {
    plan.budget < MIN_BUDGET || forall d <- plan.downloads | d.filename !in plan.present :: d.size > plan.budget
  }

  // -- how its processes exited ----------------------------------------------------

  ghost predicate Owns(s: System, w: nat, p: nat, stage: Stage) {
    p < |s.processes| && s.processes[p].worker == w && s.processes[p].stage == stage
  }

  /** A command of this stage that the worker ran has exited well. */
  ghost predicate Succeeded(s: System, w: nat, stage: Stage) {
    exists p: nat :: Owns(s, w, p, stage) && !s.processes[p].alive && s.processes[p].code == 0
  }

  /** A pacman command that the worker ran has exited with an error. */
  ghost predicate Broke(s: System, w: nat) {
    exists p: nat, stage :: Owns(s, w, p, stage) && stage != Rank && !s.processes[p].alive && s.processes[p].code != 0
  }

  /** What has to have happened for a worker to end in this state. */
  ghost predicate Verdict(s: System, w: nat, heard: seq<Input>, state: StateName) {
    && Terminal(state)
    && (state == Failed <==> Errored(heard) || Broke(s, w))
    && (state == Skipped <==>
          Offline(heard) || exists plan :: Listed(heard, plan) && SomethingPending(plan) && NothingFits(plan))
    && (state == Done <==>
          && !Errored(heard) && Succeeded(s, w, Sync) && Succeeded(s, w, Size)
          && (Succeeded(s, w, Fetch) || exists plan :: Listed(heard, plan) && !SomethingPending(plan)))
  }

  const LIMITED: string := "limited by free memory; the rest downloads while installing"

  /** The pending packages of the listing do not all fit. */
  predicate LeavesOut(plan: Planning) {
    SomethingPending(plan) && (plan.budget < MIN_BUDGET || Bytes(Pending(plan.downloads, plan.present)) > plan.budget)
  }

  /** The error the worker met, or the complaint of the pacman command that failed. */
  ghost predicate FailureIs(s: System, w: nat, heard: seq<Input>, reason: string) {
    if Errored(heard) then OsError(reason) in heard
    else
      exists p: nat, stage ::
        && Owns(s, w, p, stage) && stage != Rank && !s.processes[p].alive && s.processes[p].code != 0
        && s.processes[p].complaint == reason
  }

  /** The reason that goes with a state. */
  ghost predicate ReasonFits(s: System, w: nat, heard: seq<Input>, state: StateName, reason: string) {
    match state
    case Failed => FailureIs(s, w, heard, reason)
    case Done => reason == if exists plan :: Listed(heard, plan) && LeavesOut(plan) then LIMITED else ""
    case Skipped =>
      reason == if Offline(heard) then "no internet connection" else "not enough free memory to download ahead"
    case _ => true
  }

  // -- the story so far -------------------------------------------------------------

  /** The stages a worker has behind it. */
  function Behind(pc: WorkerPc): set<Stage> {
    match pc
    case Launching(stage) => if stage == Size then {Sync} else if stage == Fetch then {Sync, Size} else {}
    case Running(stage, _) => if stage == Size then {Sync} else if stage == Fetch then {Sync, Size} else {}
    case Sizing => {Sync, Size}
    case Planned(_) => {Sync, Size}
    case Marking => {Sync, Size}
    case _ => {}
  }

  /** The stages in `done` have succeeded and no other has run, but for ranking and the process `now`. */
  ghost predicate RanOnly(s: System, w: nat, done: set<Stage>, now: Option<nat>) {
    && (forall stage <- done :: Succeeded(s, w, stage))
    && (forall p: nat, stage | Owns(s, w, p, stage) && stage != Rank && now != Some(p) ::
          stage in done && !s.processes[p].alive && s.processes[p].code == 0)
  }

  ghost predicate KnowsOnly(heard: seq<Input>, plan: Planning) {
    forall other :: Listed(heard, other) <==> other == plan
  }

  ghost predicate ChoseFrom(heard: seq<Input>, partial: bool) {
    exists plan :: KnowsOnly(heard, plan) && plan.ChosenItems() != [] && partial == plan.Partial()
  }

  /** What a worker that is still at work has heard. */
  ghost predicate HeardAt(me: Worker, heard: seq<Input>) {
    && !Errored(heard)
    && (if me.pc.CheckOnline? then heard == [] else heard != [] && heard[0] == Answer(true))
    && match me.pc
       case Planned(plan) => KnowsOnly(heard, plan) && me.partial == plan.Partial()
       case Marking => ChoseFrom(heard, me.partial)
       case Launching(stage) => if stage == Fetch then ChoseFrom(heard, me.partial) else forall p :: !Listed(heard, p)
       case Running(stage, _) => if stage == Fetch then ChoseFrom(heard, me.partial) else forall p :: !Listed(heard, p)
       case _ => forall plan :: !Listed(heard, plan)
  }

  function Now(pc: WorkerPc): Option<nat> {
    if pc.Running? then Some(pc.process) else None
  }

  ghost predicate AtWork(s: System, w: nat, heard: seq<Input>)
    requires w < |s.workers|
  {
    var me := s.workers[w];
    && HeardAt(me, heard)
    && RanOnly(s, w, Behind(me.pc), Now(me.pc))
    && (me.pc.Running? ==> Owns(s, w, me.pc.process, me.pc.stage))
  }

  /** Where a worker is, in terms of what it heard and how its processes exited. */
  ghost predicate Story(s: System, w: nat, heard: seq<Input>) {
    if w >= |s.workers| then heard == [] && forall p: nat, stage :: !Owns(s, w, p, stage)
    else
      match s.workers[w].pc
      case Finishing(state, reason) =>
        heard != [] && Verdict(s, w, heard, state) && ReasonFits(s, w, heard, state, reason)
      case Returned => EndsWell(s.workers[w]) ==> Verdict(s, w, heard, LastWrite(s.workers[w]))
      case _ => AtWork(s, w, heard)
  }

  // -- steps that are not the worker's ------------------------------------------------

  /** The worker's processes are the same, and but for the one at `now` in the same state. */
  ghost predicate SameOwn(s: System, t: System, w: nat, now: Option<nat>) {
    && (forall p: nat, stage :: Owns(t, w, p, stage) <==> Owns(s, w, p, stage))
    && (forall p: nat, stage | Owns(s, w, p, stage) && now != Some(p) ::
          t.processes[p].alive == s.processes[p].alive && t.processes[p].code == s.processes[p].code
          && t.processes[p].complaint == s.processes[p].complaint)
  }

  lemma SameVerdict(s: System, t: System, w: nat, heard: seq<Input>, state: StateName)
    requires SameOwn(s, t, w, None)
    ensures Verdict(t, w, heard, state) <==> Verdict(s, w, heard, state)
  {
    assert forall stage :: Succeeded(t, w, stage) <==> Succeeded(s, w, stage);
    assert Broke(t, w) <==> Broke(s, w);
  }

  lemma SameFailure(s: System, t: System, w: nat, heard: seq<Input>, reason: string)
    requires SameOwn(s, t, w, None) || t.processes == s.processes
    ensures FailureIs(t, w, heard, reason) <==> FailureIs(s, w, heard, reason)
  {
    assert forall p: nat, stage :: Owns(t, w, p, stage) <==> Owns(s, w, p, stage);
  }

  lemma SameRanOnly(s: System, t: System, w: nat, done: set<Stage>, now: Option<nat>)
    requires SameOwn(s, t, w, now) && RanOnly(s, w, done, now)
    requires now.Some? ==> forall stage | Owns(s, w, now.value, stage) :: stage !in done
    ensures RanOnly(t, w, done, now)
  {
    forall stage | stage in done ensures Succeeded(t, w, stage) {
      var p: nat :| Owns(s, w, p, stage) && !s.processes[p].alive && s.processes[p].code == 0;
      assert Owns(t, w, p, stage);
    }
  }

  lemma OthersLeaveOwn(s: System, a: Action, w: nat)
    requires Inv(s) && Enabled(s, a) && !Steps(a, w)
    ensures SameOwn(s, Apply(s, a), w, if w < |s.workers| then Now(s.workers[w].pc) else None)
    ensures w < |s.workers| ==> w < |Apply(s, a).workers| && Apply(s, a).workers[w] == s.workers[w]
  {
    if a.Exit? {
      assert ProcessOk(s, a.process);
    }
  }

  lemma NewWorkerStory(s: System, a: Action)
    requires Inv(s) && Enabled(s, a) && a.Install? && Story(s, |s.workers|, [])
    ensures Story(Apply(s, a), |s.workers|, [])
  {
    var t := Apply(s, a);
    assert forall p: nat, stage :: Owns(t, |s.workers|, p, stage) <==> Owns(s, |s.workers|, p, stage);
  }

  lemma OthersKeepStory(s: System, a: Action, w: nat, heard: seq<Input>)
    requires Inv(s) && Enabled(s, a) && !Steps(a, w) && Story(s, w, heard)
    ensures Story(Apply(s, a), w, heard)
  {
    var t := Apply(s, a);
    OthersLeaveOwn(s, a, w);
    if w < |s.workers| {
      var pc := s.workers[w].pc;
      match pc
      case Finishing(state, reason) => SameVerdict(s, t, w, heard, state); SameFailure(s, t, w, heard, reason);
      case Returned => SameVerdict(s, t, w, heard, LastWrite(s.workers[w]));
      case _ => SameRanOnly(s, t, w, Behind(pc), Now(pc));
    } else if a.Install? && w == |s.workers| {
      NewWorkerStory(s, a);
    }
  }

  // -- the worker's own steps ------------------------------------------------------------

  lemma HearsMore(heard: seq<Input>, input: Input)
    ensures Errored(heard + [input]) <==> Errored(heard) || input.OsError?
    ensures forall plan :: Listed(heard + [input], plan) <==> Listed(heard, plan) || input == Listing(plan)
    ensures heard != [] ==> (Offline(heard + [input]) <==> Offline(heard))
    ensures (heard + [input])[0] == if heard == [] then input else heard[0]
  {
    var all := heard + [input];
    assert all[|heard|] == input && forall i | 0 <= i < |heard| :: all[i] == heard[i];
    if Errored(heard) {
      var i :| 0 <= i < |heard| && heard[i].OsError?;
      assert all[i].OsError?;
    }
  }

  /** Nothing the worker was given ends it early. */
  ghost predicate Unhindered(heard: seq<Input>) {
    && !Offline(heard)
    && (forall plan | Listed(heard, plan) :: SomethingPending(plan) && !NothingFits(plan))
  }

  lemma ErrorVerdict(s: System, w: nat, heard: seq<Input>)
    requires Errored(heard) && Unhindered(heard)
    ensures Verdict(s, w, heard, Failed)
  {
  }

  lemma BrokeVerdict(s: System, w: nat, heard: seq<Input>, done: set<Stage>, p: nat, stage: Stage)
    requires Unhindered(heard) && RanOnly(s, w, done, Some(p)) && Owns(s, w, p, stage)
    requires stage != Rank && stage !in done && (stage == Fetch || done == {} || done == {Sync})
    requires stage != Fetch ==> Fetch !in done && (stage == Sync || stage == Size)
    requires !s.processes[p].alive && s.processes[p].code != 0
    ensures Verdict(s, w, heard, Failed)
  {
    assert Broke(s, w);
    assert !Succeeded(s, w, stage);
  }

  lemma NotBroken(s: System, w: nat, done: set<Stage>)
    requires RanOnly(s, w, done, None)
    ensures !Broke(s, w)
    ensures forall stage | stage != Rank && stage !in done :: !Succeeded(s, w, stage)
  {
  }

  /** A command that exited well joins the stages behind the worker. */
  lemma StageDone(s: System, w: nat, done: set<Stage>, p: nat, stage: Stage)
    requires RanOnly(s, w, done, Some(p)) && Owns(s, w, p, stage)
    requires stage == Rank || (!s.processes[p].alive && s.processes[p].code == 0)
    ensures RanOnly(s, w, if stage == Rank then done else done + {stage}, None)
  {
    if stage != Rank {
      assert Succeeded(s, w, stage);
    }
  }

  lemma PlanSays(plan: Planning)
    ensures SomethingPending(plan) <==> plan.PendingItems() != []
    ensures plan.ChosenItems() == [] <==> !SomethingPending(plan) || NothingFits(plan)
    ensures LeavesOut(plan) <==> plan.Partial()
  {
    NothingChosenIff(plan);
    PartialMeansLeftOut(plan);
  }

  lemma ChoseUnhindered(heard: seq<Input>, partial: bool)
    requires ChoseFrom(heard, partial) && !Offline(heard)
    ensures Unhindered(heard)
    ensures partial <==> exists plan :: Listed(heard, plan) && LeavesOut(plan)
  {
    var plan :| KnowsOnly(heard, plan) && plan.ChosenItems() != [] && partial == plan.Partial();
    PlanSays(plan);
    assert Listed(heard, plan);
  }

  lemma ChoseStill(heard: seq<Input>, input: Input, partial: bool)
    requires ChoseFrom(heard, partial) && !input.Listing?
    ensures ChoseFrom(heard + [input], partial)
  {
    HearsMore(heard, input);
    var plan :| KnowsOnly(heard, plan) && plan.ChosenItems() != [] && partial == plan.Partial();
    assert KnowsOnly(heard + [input], plan);
  }

  lemma KeepsSame(s: System, t: System, w: nat, done: set<Stage>, now: Option<nat>)
    requires t.processes == s.processes
    ensures RanOnly(t, w, done, now) <==> RanOnly(s, w, done, now)
    ensures forall p: nat, stage :: Owns(t, w, p, stage) <==> Owns(s, w, p, stage)
    ensures SameOwn(s, t, w, None)
  {
    assert forall p: nat, stage :: Owns(t, w, p, stage) <==> Owns(s, w, p, stage);
    assert forall stage :: Succeeded(t, w, stage) <==> Succeeded(s, w, stage);
  }

  lemma ErrorStory(s: System, w: nat, input: Input, heard: seq<Input>, t: System)
    requires Story(s, w, heard) && Enabled(s, Work(w, input)) && t == DoWork(s, w, input) && input.OsError?
    ensures Story(t, w, heard + [input])
  {
    var me, all := s.workers[w], heard + [input];
    HearsMore(heard, input);
    if me.pc.Marking? || (me.pc.Launching? && me.pc.stage == Fetch) || (me.pc.Running? && me.pc.stage == Fetch) {
      ChoseStill(heard, input, me.partial);
      ChoseUnhindered(all, me.partial);
    }
    assert Errored(all) && Unhindered(all);
    ErrorVerdict(t, w, all);
  }

  lemma AskingStory(s: System, w: nat, input: Input, heard: seq<Input>, t: System)
    requires Story(s, w, heard) && Enabled(s, Work(w, input)) && t == DoWork(s, w, input) && !input.OsError?
    requires s.workers[w].pc.CheckOnline? || s.workers[w].pc.CheckMirror? || s.workers[w].pc.Configure?
             || s.workers[w].pc.Sizing?
    ensures Story(t, w, heard + [input])
  {
    var pc, all := s.workers[w].pc, heard + [input];
    HearsMore(heard, input);
    KeepsSame(s, t, w, Behind(pc), None);
    if pc.CheckOnline? && !input.yes {
      NotBroken(t, w, {});
      assert Verdict(t, w, all, Skipped);
    }
  }

  lemma LaunchedRanOnly(s: System, t: System, w: nat, done: set<Stage>, started: Process)
    requires RanOnly(s, w, done, None) && started.worker == w && t.processes == s.processes + [started]
    ensures RanOnly(t, w, done, Some(|s.processes|)) && Owns(t, w, |s.processes|, started.stage)
  {
    forall stage | stage in done ensures Succeeded(t, w, stage) {
      var p: nat :| Owns(s, w, p, stage) && !s.processes[p].alive && s.processes[p].code == 0;
      assert Owns(t, w, p, stage);
    }
    assert forall p: nat, stage | Owns(t, w, p, stage) && p != |s.processes| :: Owns(s, w, p, stage);
  }

  lemma LaunchHeard(me: Worker, input: Input, heard: seq<Input>, next: Worker)
    requires me.pc.Launching? && next.pc.Running? && next.pc.stage == me.pc.stage && next.partial == me.partial
    requires HeardAt(me, heard) && input == Proceed
    ensures HeardAt(next, heard + [input])
  {
    HearsMore(heard, input);
    if me.pc.stage == Fetch { ChoseStill(heard, input, me.partial); }
  }

  lemma LaunchStory(s: System, w: nat, input: Input, heard: seq<Input>, t: System)
    requires Story(s, w, heard) && Enabled(s, Work(w, input)) && t == DoWork(s, w, input) && !input.OsError?
    requires Inv(s) && s.workers[w].pc.Launching?
    ensures Story(t, w, heard + [input])
  {
    var me := s.workers[w];
    if me.generation == s.shared.generation {
      LaunchHeard(me, input, heard, t.workers[w]);
      LaunchedRanOnly(s, t, w, Behind(me.pc), Process(w, me.pc.stage, true, false, 0, ""));
    } else {
      assert WorkerOk(s, w);
    }
  }

  lemma RankedStory(s: System, w: nat, input: Input, heard: seq<Input>, t: System)
    requires Story(s, w, heard) && Enabled(s, Work(w, input)) && t == DoWork(s, w, input) && !input.OsError?
    requires s.workers[w].pc.Running? && s.workers[w].pc.stage == Rank
    ensures Story(t, w, heard + [input])
  {
    var p := s.workers[w].pc.process;
    HearsMore(heard, input);
    KeepsSame(s, t, w, {}, Some(p));
    StageDone(t, w, {}, p, Rank);
  }

  lemma FailedStory(s: System, w: nat, input: Input, heard: seq<Input>, t: System)
    requires Story(s, w, heard) && Enabled(s, Work(w, input)) && t == DoWork(s, w, input) && !input.OsError?
    requires s.workers[w].pc.Running? && s.workers[w].pc.stage != Rank
    requires s.processes[s.workers[w].pc.process].code != 0
    ensures Story(t, w, heard + [input])
  {
    var me, all := s.workers[w], heard + [input];
    var p, stage, done := me.pc.process, me.pc.stage, Behind(me.pc);
    HearsMore(heard, input);
    KeepsSame(s, t, w, done, Some(p));
    if stage == Fetch {
      ChoseStill(heard, input, me.partial);
      ChoseUnhindered(all, me.partial);
    }
    BrokeVerdict(t, w, all, done, p, stage);
  }

  lemma SucceededStory(s: System, w: nat, input: Input, heard: seq<Input>, t: System)
    requires Story(s, w, heard) && Enabled(s, Work(w, input)) && t == DoWork(s, w, input) && !input.OsError?
    requires s.workers[w].pc.Running? && (s.workers[w].pc.stage == Sync || s.workers[w].pc.stage == Size)
    requires s.processes[s.workers[w].pc.process].code == 0
    ensures Story(t, w, heard + [input])
  {
    var me := s.workers[w];
    HearsMore(heard, input);
    KeepsSame(s, t, w, Behind(me.pc), Some(me.pc.process));
    StageDone(t, w, Behind(me.pc), me.pc.process, me.pc.stage);
    assert {} + {Sync} == {Sync} && {Sync} + {Size} == {Sync, Size};
  }

  lemma FetchedStory(s: System, w: nat, input: Input, heard: seq<Input>, t: System)
    requires Story(s, w, heard) && Enabled(s, Work(w, input)) && t == DoWork(s, w, input) && !input.OsError?
    requires s.workers[w].pc.Running? && s.workers[w].pc.stage == Fetch
    requires s.processes[s.workers[w].pc.process].code == 0
    ensures Story(t, w, heard + [input])
  {
    var me, all := s.workers[w], heard + [input];
    var p := me.pc.process;
    HearsMore(heard, input);
    KeepsSame(s, t, w, {Sync, Size}, Some(p));
    ChoseStill(heard, input, me.partial);
    ChoseUnhindered(all, me.partial);
    StageDone(t, w, {Sync, Size}, p, Fetch);
    NotBroken(t, w, {Sync, Size} + {Fetch});
    FetchedVerdict(t, w, all);
  }

  lemma FetchedVerdict(s: System, w: nat, heard: seq<Input>)
    requires !Errored(heard) && Unhindered(heard) && RanOnly(s, w, {Sync, Size} + {Fetch}, None) && !Broke(s, w)
    ensures Verdict(s, w, heard, Done)
  {
    assert Sync in {Sync, Size} + {Fetch} && Size in {Sync, Size} + {Fetch} && Fetch in {Sync, Size} + {Fetch};
  }

  lemma CommandStory(s: System, w: nat, input: Input, heard: seq<Input>, t: System)
    requires Story(s, w, heard) && Enabled(s, Work(w, input)) && t == DoWork(s, w, input) && !input.OsError?
    requires s.workers[w].pc.Running?
    ensures Story(t, w, heard + [input])
  {
    var stage := s.workers[w].pc.stage;
    if stage == Rank {
      RankedStory(s, w, input, heard, t);
    } else if s.processes[s.workers[w].pc.process].code != 0 {
      FailedStory(s, w, input, heard, t);
    } else if stage == Fetch {
      FetchedStory(s, w, input, heard, t);
    } else {
      SucceededStory(s, w, input, heard, t);
    }
  }

  lemma PlannedStory(s: System, w: nat, input: Input, heard: seq<Input>, t: System)
    requires Story(s, w, heard) && Enabled(s, Work(w, input)) && t == DoWork(s, w, input) && !input.OsError?
    requires Inv(s) && s.workers[w].pc.Planned?
    ensures Story(t, w, heard + [input])
  {
    var me, all := s.workers[w], heard + [input];
    var plan := me.pc.plan;
    HearsMore(heard, input);
    KeepsSame(s, t, w, Behind(me.pc), None);
    if me.generation == s.shared.generation {
      PlanSays(plan);
      NotBroken(t, w, Behind(me.pc));
      assert KnowsOnly(all, plan) && Listed(all, plan);
      assert Succeeded(t, w, Sync) && Succeeded(t, w, Size);
    } else {
      assert WorkerOk(s, w);
    }
  }

  lemma MarkingStory(s: System, w: nat, input: Input, heard: seq<Input>, t: System)
    requires Story(s, w, heard) && Enabled(s, Work(w, input)) && t == DoWork(s, w, input) && !input.OsError?
    requires Inv(s) && s.workers[w].pc.Marking?
    ensures Story(t, w, heard + [input])
  {
    HearsMore(heard, input);
    ChoseStill(heard, input, s.workers[w].partial);
    KeepsSame(s, t, w, Behind(s.workers[w].pc), None);
    assert WorkerOk(s, w);
  }

  lemma ProceedVerdict(s: System, w: nat, heard: seq<Input>, state: StateName)
    requires Verdict(s, w, heard, state) && heard != []
    ensures Verdict(s, w, heard + [Proceed], state)
  {
    HearsMore(heard, Proceed);
  }

  lemma FinishStory(s: System, w: nat, input: Input, heard: seq<Input>, t: System)
    requires Story(s, w, heard) && Enabled(s, Work(w, input)) && t == DoWork(s, w, input) && !input.OsError?
    requires Inv(s) && s.workers[w].pc.Finishing?
    ensures Story(t, w, heard + [input])
  {
    var state := s.workers[w].pc.state;
    ProceedVerdict(s, w, heard, state);
    KeepsSame(s, t, w, {}, None);
    SameVerdict(s, t, w, heard + [input], state);
    assert WorkerOk(s, w);
  }

  lemma OwnStepKeepsStory(s: System, w: nat, input: Input, heard: seq<Input>)
    requires Inv(s) && Story(s, w, heard) && Enabled(s, Work(w, input))
    ensures Story(Apply(s, Work(w, input)), w, heard + [input])
  {
    var t := DoWork(s, w, input);
    if input.OsError? {
      ErrorStory(s, w, input, heard, t);
    } else {
      match s.workers[w].pc
      case Launching(_) => LaunchStory(s, w, input, heard, t);
      case Running(_, _) => CommandStory(s, w, input, heard, t);
      case Planned(_) => PlannedStory(s, w, input, heard, t);
      case Marking => MarkingStory(s, w, input, heard, t);
      case Finishing(_, _) => FinishStory(s, w, input, heard, t);
      case Returned =>
      case _ => AskingStory(s, w, input, heard, t);
    }
  }

  lemma {:induction false} HeardAfter(a: Action, acts: seq<Action>, w: nat)
    ensures Heard([a] + acts, w) == HeardNow(a, w) + Heard(acts, w)
  {
    var all := [a] + acts;
    if acts == [] {
      assert all == [a] && all[..0] == [];
    } else {
      assert all[..|all| - 1] == [a] + acts[..|acts| - 1];
      HeardAfter(a, acts[..|acts| - 1], w);
    }
  }

  function HeardNow(a: Action, w: nat): seq<Input> {
    if Steps(a, w) then [a.input] else []
  }

  lemma HeardFrom(heard: seq<Input>, a: Action, rest: seq<Action>, acts: seq<Action>, w: nat)
    requires acts != [] && a == acts[0] && rest == acts[1..]
    ensures heard + HeardNow(a, w) + Heard(rest, w) == heard + Heard(acts, w)
  {
    assert acts == [a] + rest;
    HeardAfter(a, rest, w);
  }

  lemma StepKeepsStory(s: System, a: Action, w: nat, heard: seq<Input>)
    requires Inv(s) && Story(s, w, heard) && Enabled(s, a)
    ensures Inv(Apply(s, a)) && Story(Apply(s, a), w, heard + HeardNow(a, w))
  {
    StepKeepsInv(s, a);
    if Steps(a, w) {
      OwnStepKeepsStory(s, w, a.input, heard);
    } else {
      OthersKeepStory(s, a, w, heard);
      assert heard + HeardNow(a, w) == heard;
    }
  }

  lemma {:induction false} RunKeepsStory(s: System, acts: seq<Action>, t: System, w: nat, heard: seq<Input>)
    requires Inv(s) && Story(s, w, heard) && Run(s, acts, t)
    ensures Story(t, w, heard + Heard(acts, w)) && Inv(t)
    decreases |acts|
  {
    if acts == [] {
      assert heard + Heard(acts, w) == heard;
    } else {
      var a, rest := acts[0], acts[1..];
      StepKeepsStory(s, a, w, heard);
      RunKeepsStory(Apply(s, a), rest, t, w, heard + HeardNow(a, w));
      HeardFrom(heard, a, rest, acts, w);
    }
  }

  // -- the outcome ---------------------------------------------------------------------

  /** In every run, a worker that ended in a terminal state wrote the one its own history calls for:
      "failed" exactly when it met an error or one of its pacman commands exited with one, "skipped"
      exactly when it was told it is offline or none of the pending packages fits, and "done" exactly
      when the listings were read and the download, if anything was pending, succeeded. */
  lemma OutcomeIsDeserved(acts: seq<Action>, t: System, w: nat)
    requires Run(INITIAL, acts, t) && w < |t.workers|
    requires EndsWell(t.workers[w])
    ensures Verdict(t, w, Heard(acts, w), LastWrite(t.workers[w]))
  {
    RunKeepsStory(INITIAL, acts, t, w, []);
    assert [] + Heard(acts, w) == Heard(acts, w);
    assert WorkerOk(t, w);
  }

  /** The step that writes the terminal state puts it into the status, with its reason. */
  lemma OutcomeIsShown(acts: seq<Action>, s: System, w: nat, input: Input)
    requires Run(INITIAL, acts, s) && Enabled(s, Work(w, input))
    requires EndsWell(Apply(s, Work(w, input)).workers[w]) && !EndsWell(s.workers[w])
    ensures var t := Apply(s, Work(w, input));
            && Verdict(t, w, Heard(acts, w) + [input], t.shared.status.state)
            && ReasonFits(t, w, Heard(acts, w) + [input], t.shared.status.state, t.shared.status.reason)
  {
    RunKeepsStory(INITIAL, acts, s, w, []);
    var heard, t := Heard(acts, w), Apply(s, Work(w, input));
    assert [] + heard == heard;
    assert WorkerOk(s, w);
    WritesItsFinish(s, w, input, t);
    OwnStepKeepsStory(s, w, input, heard);
    ProceedReason(s, t, w, heard, t.shared.status.state, t.shared.status.reason);
  }

  lemma WritesItsFinish(s: System, w: nat, input: Input, t: System)
    requires Enabled(s, Work(w, input)) && WritePath(s.workers[w]) && t == DoWork(s, w, input)
    requires EndsWell(t.workers[w]) && !EndsWell(s.workers[w])
    ensures s.workers[w].pc == Finishing(t.shared.status.state, t.shared.status.reason) && input == Proceed
    ensures t.workers[w].pc.Returned? && LastWrite(t.workers[w]) == t.shared.status.state
  {
  }

  lemma ProceedReason(s: System, t: System, w: nat, heard: seq<Input>, state: StateName, reason: string)
    requires heard != [] && ReasonFits(s, w, heard, state, reason) && t.processes == s.processes
    ensures ReasonFits(t, w, heard + [Proceed], state, reason)
  {
    HearsMore(heard, Proceed);
    SameFailure(s, t, w, heard, reason);
    assert OsError(reason) in heard + [Proceed] <==> OsError(reason) in heard;
    assert FailureIs(t, w, heard + [Proceed], reason) <==> FailureIs(t, w, heard, reason);
  }
}
