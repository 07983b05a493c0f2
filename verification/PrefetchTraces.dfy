/**
 Three runs that show why the theorems carry the hypotheses they do.
 */
module PrefetchTraces {
  import opened Common
  import opened Packer
  import opened Prefetch
  import opened PrefetchSystem
  import opened PrefetchTheorems

  const PLAN_A := Request({"a"}, false)
  const PLAN_B := Request({"b"}, false)

  ghost predicate AllWorkersReturned(s: System) {
    forall w | 0 <= w < |s.workers| :: s.workers[w].pc.Returned?
  }

  lemma {:induction false} RunSnoc(s: System, acts: seq<Action>, t: System, a: Action)
    requires Run(s, acts, t) && Enabled(t, a)
    ensures Run(s, acts + [a], Apply(t, a))
  {
    assert Run(t, [a], Apply(t, a)) by {
      assert [a][1..] == [];
      assert Run(Apply(t, a), [], Apply(t, a));
    }
    RunConcat(s, acts, t, [a], Apply(t, a));
  }

  lemma Then(s: System, a: Action) returns (t: System)
    requires Reachable(s) && Enabled(s, a)
    ensures Reachable(t) && t == Apply(s, a)
  {
    var acts :| Run(INITIAL, acts, s);
    RunSnoc(INITIAL, acts, s, a);
    t := Apply(s, a);
  }

  /** A freshly installed, current worker goes online, finds a ranked mirror list, writes its
      configuration and launches its first pacman call. */
  lemma Syncs(s: System, w: nat) returns (t: System)
    requires Reachable(s) && w < |s.workers|
    requires s.workers[w].pc == CheckOnline && s.workers[w].generation == s.shared.generation
    ensures Reachable(t)
    ensures t == s.(shared := s.shared.(process := Some(|s.processes|)),
                    workers := s.workers[w := s.workers[w].(pc := Running(Sync, |s.processes|))],
                    processes := s.processes + [Process(w, Sync, true, false, 0, "")])
  {
    t := Then(s, Work(w, Answer(true)));
    t := Then(t, Work(w, Answer(true)));
    t := Then(t, Work(w, Proceed));
    t := Then(t, Work(w, Proceed));
  }

  /** A restart that has not begun halts, signals what it captured (nothing runs) and is ready to install. */
  lemma Halts(s: System, t: nat) returns (u: System)
    requires Reachable(s) && t < |s.threads| && s.threads[t].pc.Before? && s.shared.process == None
    ensures Reachable(u)
    ensures u == s.(shared := s.shared.(generation := s.shared.generation + 1),
                    threads := s.threads[t := s.threads[t].(pc := if s.threads[t].Restart? then Through else Over)])
  {
    u := Then(s, Halt(t));
    u := Then(u, Signal(t));
  }

  /** stop() has returned, nothing is current, and yet the status reads "downloading": the worker
      wrote it between stop()'s two locks. */
  ghost predicate StoppedButDownloading(s: System) {
    Reachable(s) && Quiet(s) && AllThreadsOver(s) && s.shared.status.state == Downloading
    && exists t :: 0 <= t < |s.threads| && s.threads[t].Stopper?
  }

  lemma OneItemPlan() returns (plan: Planning)
    ensures plan.ChosenItems() != [] && !plan.TooSmall()
  {
    var item := Download("a", 1, "a.pkg.tar.zst");
    plan := Planning([item], {}, MIN_BUDGET);
    assert plan.PendingItems() == [item] by {
      assert Pending([item][1..], {}) == [];
    }
    assert SortBySize([item]) == [item];
    assert Greedy([item], MIN_BUDGET) == [item];
  }

  /** The current worker's command ends well. */
  lemma Succeeds(s: System, w: nat) returns (t: System)
    requires Reachable(s) && w < |s.workers| && s.workers[w].pc.Running?
    requires var p := s.workers[w].pc.process;
             p < |s.processes| && s.processes[p].alive && s.shared.process == Some(p)
    ensures Reachable(t)
    ensures var p := s.workers[w].pc.process;
            var stage := s.workers[w].pc.stage;
            t == s.(shared := s.shared.(process := None),
                    workers := s.workers[w := s.workers[w].(pc := AfterCommand(stage, true, s.workers[w].partial, ""))],
                    processes := s.processes[p := s.processes[p].(alive := false, code := 0, complaint := "")])
  {
    t := Then(s, Exit(s.workers[w].pc.process, 0, ""));
    t := Then(t, Work(w, Proceed));
  }

  /** A lone worker has recorded its plan and is about to mark the status "downloading". */
  lemma AboutToMark() returns (s: System)
    ensures Reachable(s)
    ensures s.threads == [Restart(PLAN_A, Over)]
    ensures |s.workers| == 1 && s.workers[0].pc == Marking
    ensures s.workers[0].generation == s.shared.generation
    ensures s.shared.status.state == Preparing
  {
    var plan := OneItemPlan();
    s := AboutToSize();
    s := Then(s, Work(0, Proceed));
    s := Succeeds(s, 0);
    s := Then(s, Work(0, Listing(plan)));
    assert s.workers[0].pc == Planned(plan);
    s := Then(s, Work(0, Proceed));
  }

  lemma AboutToSize() returns (s: System)
    ensures Reachable(s)
    ensures s == System(Shared(FRESH, None, Some(0), 2, Some(PLAN_A), {}),
                        [Restart(PLAN_A, Over)],
                        [Worker(2, PLAN_A, Launching(Size), false, [])],
                        [Process(0, Sync, false, false, 0, "")])
  {
    assert Run(INITIAL, [], INITIAL);
    s := Then(INITIAL, Start(PLAN_A));
    s := Halts(s, 0);
    s := Then(s, Install(0));
    s := Syncs(s, 0);
    s := Succeeds(s, 0);
  }

  lemma StopCanLeaveDownloading()
    ensures exists s :: StoppedButDownloading(s)
  {
    var s := AboutToMark();
    s := Then(s, Stop);
    assert s.shared.status.state == Stopped;
    s := Then(s, Work(0, Proceed));
    s := Then(s, Halt(1));
    s := Then(s, Signal(1));
    assert s.threads[1].Stopper?;
    assert StoppedButDownloading(s);
  }

  /** Every thread has returned and nothing runs, the newest plan is still requested, and the
      status reads "preparing" for good: asking for that plan again is refused. */
  ghost predicate StuckPreparing(s: System, request: Request) {
    && Reachable(s) && AllThreadsOver(s) && AllWorkersReturned(s)
    && (forall p | 0 <= p < |s.processes| :: !s.processes[p].alive)
    && s.shared.request == Some(request)
    && s.shared.status.state == Preparing
    && !Accepts(s.shared, request)
  }

  /** The newest plan's worker is running, and the restart for the older plan has not begun. */
  lemma NewestRunsFirst() returns (s: System)
    ensures Reachable(s)
    ensures s == System(Shared(FRESH, Some(0), Some(0), 2, Some(PLAN_B), {}),
                        [Restart(PLAN_A, Before), Restart(PLAN_B, Over)],
                        [Worker(2, PLAN_B, Running(Sync, 0), false, [])],
                        [Process(0, Sync, true, false, 0, "")])
  {
    assert Run(INITIAL, [], INITIAL);
    s := Then(INITIAL, Start(PLAN_A));
    s := Then(s, Start(PLAN_B));
    assert s.threads == [Restart(PLAN_A, Before), Restart(PLAN_B, Before)];
    s := Halts(s, 1);
    s := Then(s, Install(1));
    s := Syncs(s, 0);
  }

  lemma PlansDiffer()
    ensures PLAN_A != PLAN_B
  {
    assert "a" in PLAN_A.packages;
    assert "a"[0] != "b"[0];
    assert "a" !in PLAN_B.packages;
  }

  /** The restart for the older plan comes late, ends the newest worker's process and gives up. */
  lemma OlderRestartGivesUp() returns (s: System)
    ensures Reachable(s)
    ensures s == System(Shared(FRESH, Some(0), Some(0), 3, Some(PLAN_B), {}),
                        [Restart(PLAN_A, Over), Restart(PLAN_B, Over)],
                        [Worker(2, PLAN_B, Running(Sync, 0), false, [])],
                        [Process(0, Sync, true, true, 0, "")])
  {
    s := NewestRunsFirst();
    s := Then(s, Halt(0));
    s := Then(s, Signal(0));
    PlansDiffer();
    s := Then(s, Install(0));
  }

  /** A restart for an older plan that halts late supersedes the newest plan's worker and then
      returns without installing one. */
  lemma LateRestartLeavesPreparing()
    ensures exists s :: StuckPreparing(s, PLAN_B)
  {
    var s := OlderRestartGivesUp();
    s := Then(s, Exit(0, -15, ""));
    s := Then(s, Work(0, Proceed));
    s := Then(s, Work(0, Proceed));
    assert StuckPreparing(s, PLAN_B);
  }

  /** Two downloads run, and no thread will ever signal the older one. */
  ghost predicate TwoDownloads(s: System, older: nat, newer: nat) {
    && Reachable(s) && AllThreadsOver(s)
    && older != newer && older < |s.processes| && newer < |s.processes|
    && s.processes[older].alive && s.processes[newer].alive
    && !Claimed(s, older)
  }

  /** Two restarts of one request are outstanding, and both have halted. */
  lemma BothHalt() returns (s: System)
    ensures Reachable(s)
    ensures s.threads == [Restart(PLAN_A, Through), Stopper(Over), Restart(PLAN_A, Through)]
    ensures s.workers == [] && s.processes == []
    ensures s.shared.request == Some(PLAN_A) && s.shared.process == None
  {
    assert Run(INITIAL, [], INITIAL);
    s := Then(INITIAL, Start(PLAN_A));
    s := Then(s, Stop);
    s := Then(s, Start(PLAN_A));
    assert s.threads == [Restart(PLAN_A, Before), Stopper(Before), Restart(PLAN_A, Before)];
    s := Halts(s, 1);
    s := Halts(s, 0);
    s := Halts(s, 2);
  }

  /** The first of them installs a worker, which starts a process. */
  lemma FirstInstalls() returns (s: System)
    ensures Reachable(s)
    ensures s.threads == [Restart(PLAN_A, Over), Stopper(Over), Restart(PLAN_A, Through)]
    ensures |s.workers| == 1 && s.processes == [Process(0, Sync, true, false, 0, "")]
    ensures s.shared.request == Some(PLAN_A)
  {
    s := BothHalt();
    s := Then(s, Install(0));
    s := Syncs(s, 0);
  }

  /** Two overlapping restarts of one request: both halt before either installs, so the second
      install replaces a worker whose process nobody captured. */
  lemma OverlappingRestartsRunTwoDownloads()
    ensures exists s, p, q :: TwoDownloads(s, p, q)
  {
    var s := FirstInstalls();
    s := Then(s, Install(2));
    s := Syncs(s, 1);
    assert s.threads == [Restart(PLAN_A, Over), Stopper(Over), Restart(PLAN_A, Over)];
    assert !Claimed(s, 0);
    assert TwoDownloads(s, 0, 1);
  }
}
