/**
 A browser follows the log of one run: the session appends lines while the client polls with a
 cursor. Requests and responses may be delayed or lost; every step is one action.
 */
module LogPolling {
  import opened Common
  import opened Sequences
  import opened Session

  datatype Outcome = SawDone(warnings: seq<string>) | SawError(message: string)

  // sinceRef.current, the lines shown, the step shown, and what ended the polling.
  datatype Client = Client(cursor: nat, lines: seq<string>, step: Option<Step>, outcome: Option<Outcome>)

  // A poll on its way to the session, or back from it.
  datatype Poll = Asked(since: nat) | Answered(since: nat, reply: Reply)

  datatype System = System(session: State, client: Client, polls: seq<Poll>)

  datatype Action =
    | Append(line: string)
    | Finish(error: Option<string>)
    | Ask
    | Serve(i: nat)
    | Deliver(i: nat)
    | Lose(i: nat)

  const NEW_CLIENT: Client := Client(0, [], None, None)

  // What the poll callback does with a response.
  function Received(c: Client, reply: Reply): Client {
    Client(
      reply.next,
      c.lines + reply.lines,
      reply.step,
      if reply.status == Done then Some(SawDone(reply.warnings))
      else if reply.status == Error then
        Some(SawError(if reply.error.Some? then reply.error.value else "installation failed"))
      else c.outcome)
  }

  // The same, in the callback's own steps.
  class ProgressView {
    var since: nat
    var lines: seq<string>
    var step: Option<Step>
    var outcome: Option<Outcome>

    function Shown(): Client
      reads this
    {
      Client(since, lines, step, outcome)
    }

    constructor ()
      ensures Shown() == NEW_CLIENT
    {
      since, lines, step, outcome := 0, [], None, None;
    }

    method OnStatus(reply: Reply)
      modifies this
      ensures Shown() == Received(old(Shown()), reply)
    {
      since := reply.next;
      if |reply.lines| > 0 {
        lines := lines + reply.lines;
      }
      step := reply.step;
      if reply.status == Done {
        outcome := Some(SawDone(reply.warnings));
        return;
      }
      if reply.status == Error {
        outcome := Some(SawError(if reply.error.Some? then reply.error.value else "installation failed"));
        return;
      }
    }
  }

  function Without<T>(items: seq<T>, i: nat): seq<T>
    requires i < |items|
  {
    items[..i] + items[i + 1..]
  }

  // Lines are appended, and the run finished, by the run's own thread while it is running. The
  // client asks until it has seen the outcome.
  predicate Enabled(s: System, a: Action) {
    match a
    case Append(_) => s.session.status == Running
    case Finish(_) => s.session.status == Running
    case Ask => s.client.outcome.None?
    case Serve(i) => i < |s.polls| && s.polls[i].Asked?
    case Deliver(i) => i < |s.polls| && s.polls[i].Answered?
    case Lose(i) => i < |s.polls|
  }

  function Apply(s: System, a: Action): System
    requires Enabled(s, a)
  {
    match a
    case Append(line) => s.(session := Appended(s.session, line))
    case Finish(error) => s.(session := Finished(s.session, error))
    case Ask => s.(polls := s.polls + [Asked(s.client.cursor)])
    case Serve(i) =>
      var since := s.polls[i].since;
      s.(polls := s.polls[i := Answered(since, Snapshot(s.session, since))])
    case Deliver(i) => s.(client := Received(s.client, s.polls[i].reply), polls := Without(s.polls, i))
    case Lose(i) => s.(polls := Without(s.polls, i))
  }

  // One poll at a time: the next is sent when the last has come back or is given up.
  predicate Sequential(s: System, a: Action) {
    a.Ask? ==> s.polls == []
  }

  datatype Run = Start(session: State) | Then(before: Run, action: Action)

  // A run starts when the session does, with a new client.
  ghost predicate Possible(run: Run)
    decreases run, 0
  {
    match run
    case Start(session) => session.status != Running
    case Then(before, a) => Possible(before) && Enabled(End(before), a)
  }

  ghost function End(run: Run): System
    requires Possible(run)
    decreases run, 1
  {
    match run
    case Start(session) => System(Started(session), NEW_CLIENT, [])
    case Then(before, a) => Apply(End(before), a)
  }

  ghost predicate OneAtATime(run: Run)
    requires Possible(run)
  {
    run.Then? ==> OneAtATime(run.before) && Sequential(End(run.before), run.action)
  }

  // -- what every run keeps ---------------------------------------------------------

  predicate Over(status: Status) {
    status == Done || status == Error
  }

  // A response carries the part of the log from its cursor on, and the final log when it reports the end.
  ghost predicate Honest(s: State, since: nat, reply: Reply) {
    && since <= reply.next <= |s.log|
    && reply.lines == s.log[since..reply.next]
    && (Over(reply.status) ==> reply == Snapshot(s, since))
  }

  ghost predicate Coherent(s: System) {
    && s.session.status != Idle
    && s.client.cursor <= |s.session.log|
    && (forall p <- s.polls :: p.since <= |s.session.log|)
    && (forall p <- s.polls :: p.Answered? ==> Honest(s.session, p.since, p.reply))
  }

  // What the client shows is the log up to its cursor.
  ghost predicate InStep(s: System) {
    s.client.cursor <= |s.session.log| && s.client.lines == s.session.log[..s.client.cursor]
  }

  ghost predicate OutcomeIs(s: System) {
    s.client.outcome.Some? ==>
      && Over(s.session.status)
      && s.client.cursor == |s.session.log|
      && s.client.outcome.value ==
           if s.session.status == Done then SawDone(s.session.warnings)
           else SawError(if s.session.error.Some? then s.session.error.value else "installation failed")
  }

  ghost predicate Alone(s: System) {
    && |s.polls| <= 1
    && (forall p <- s.polls :: p.since == s.client.cursor && s.client.outcome.None?)
  }

  lemma LogGrows(s: State, line: string)
    ensures Appended(s, line).log == s.log + [line] && Appended(s, line).status == s.status
  {
  }

  lemma StaysHonest(s: State, line: string, since: nat, reply: Reply)
    requires s.status == Running && Honest(s, since, reply)
    ensures Honest(Appended(s, line), since, reply)
  {
    LogGrows(s, line);
    assert (s.log + [line])[since..reply.next] == s.log[since..reply.next];
  }

  lemma SnapshotIsHonest(s: State, since: nat)
    requires since <= |s.log|
    ensures Honest(s, since, Snapshot(s, since))
  {
  }

  // Every action keeps all responses on their way honest, however many polls overlap.
  lemma StepIsCoherent(s: System, a: Action)
    requires Coherent(s) && Enabled(s, a)
    ensures Coherent(Apply(s, a))
  {
    var t := Apply(s, a);
    match a
    case Append(line) =>
      LogGrows(s.session, line);
      forall p | p in t.polls && p.Answered? ensures Honest(t.session, p.since, p.reply) {
        StaysHonest(s.session, line, p.since, p.reply);
      }
    case Finish(error) =>
    case Ask =>
    case Serve(i) =>
      SnapshotIsHonest(s.session, s.polls[i].since);
    case Deliver(i) =>
    case Lose(i) =>
  }

  // A delivered response keeps the client in step exactly when it was asked for at the client's
  // present cursor.
  lemma DeliveryKeepsStepIff(s: System, i: nat)
    requires Coherent(s) && InStep(s) && Enabled(s, Deliver(i))
    ensures InStep(Apply(s, Deliver(i))) <==> s.polls[i].since == s.client.cursor
  {
    var p := s.polls[i];
    var t := Apply(s, Deliver(i));
    assert |t.client.lines| == s.client.cursor + (p.reply.next - p.since);
    if p.since == s.client.cursor {
      assert s.session.log[..p.reply.next] == s.session.log[..p.since] + s.session.log[p.since..p.reply.next];
    }
  }

  lemma SequentialStep(s: System, a: Action)
    requires Coherent(s) && InStep(s) && OutcomeIs(s) && Alone(s)
    requires Enabled(s, a) && Sequential(s, a)
    ensures InStep(Apply(s, a)) && OutcomeIs(Apply(s, a)) && Alone(Apply(s, a))
    ensures s.client.lines <= Apply(s, a).client.lines
  {
    StepIsCoherent(s, a);
    if a.Append? {
      LogGrows(s.session, a.line);
      assert Apply(s, a).session.log[..s.client.cursor] == s.session.log[..s.client.cursor];
    } else if a.Deliver? {
      DeliveryKeepsStepIff(s, a.i);
    }
  }

  lemma {:induction false} RunIsCoherent(run: Run)
    requires Possible(run)
    ensures Coherent(End(run))
  {
    if run.Then? {
      RunIsCoherent(run.before);
      StepIsCoherent(End(run.before), run.action);
    }
  }

  // In every run that polls one at a time, whatever is lost, each line is shown exactly once and in
  // order up to the cursor; once the outcome is seen, the whole log is shown, and the outcome is the
  // session's own.
  lemma {:induction false} DeliveredExactlyOnce(run: Run)
    requires Possible(run) && OneAtATime(run)
    ensures InStep(End(run)) && Alone(End(run)) && OutcomeIs(End(run))
    ensures End(run).client.outcome.Some? ==> End(run).client.lines == End(run).session.log
  {
    if run.Then? {
      DeliveredExactlyOnce(run.before);
      RunIsCoherent(run.before);
      SequentialStep(End(run.before), run.action);
    }
  }

  ghost predicate Extends(run: Run, earlier: Run) {
    run == earlier || (run.Then? && Extends(run.before, earlier))
  }

  // Once seen, the outcome is final: no longer run changes what is shown or what the session says.
  lemma {:induction false} OutcomeIsFinal(run: Run, earlier: Run)
    requires Possible(run) && OneAtATime(run) && Possible(earlier) && OneAtATime(earlier) && Extends(run, earlier)
    requires End(earlier).client.outcome.Some?
    ensures End(run).client == End(earlier).client && End(run).session == End(earlier).session
  {
    if run != earlier {
      OutcomeIsFinal(run.before, earlier);
      DeliveredExactlyOnce(run.before);
    }
  }

  // -- what the step says ------------------------------------------------------------

  // A response shows the step and the warnings that the log announces up to where it ends.
  ghost predicate Informed(log: seq<string>, reply: Reply) {
    && reply.next <= |log|
    && reply.step == LastStep(log[..reply.next])
    && reply.warnings == Unique(WarningsIn(log[..reply.next]))
  }

  ghost predicate AllInformed(s: System) {
    && s.session.step == LastStep(s.session.log)
    && s.session.warnings == Unique(WarningsIn(s.session.log))
    && (forall p <- s.polls | p.Answered? :: Informed(s.session.log, p.reply))
    && s.client.cursor <= |s.session.log|
    && s.client.step == LastStep(s.session.log[..s.client.cursor])
  }

  lemma StepFollowsLog(s: State, line: string)
    requires s.step == LastStep(s.log)
    ensures Appended(s, line).step == LastStep(s.log + [line])
  {
    var log := s.log + [line];
    assert log[..|log| - 1] == s.log;
    PrefixesDiffer(line);
  }

  lemma StaysInformed(log: seq<string>, line: string, reply: Reply)
    requires Informed(log, reply)
    ensures Informed(log + [line], reply)
  {
    assert (log + [line])[..reply.next] == log[..reply.next];
  }

  lemma AppendKeepsInformed(s: System, line: string)
    requires AllInformed(s) && s.session.status == Running
    ensures AllInformed(Apply(s, Append(line)))
  {
    var t := Apply(s, Append(line));
    LogGrows(s.session, line);
    StepFollowsLog(s.session, line);
    WarningsFollowLog(s.session, line);
    forall p | p in t.polls && p.Answered? ensures Informed(t.session.log, p.reply) {
      StaysInformed(s.session.log, line, p.reply);
    }
    assert t.session.log[..s.client.cursor] == s.session.log[..s.client.cursor];
  }

  lemma StepKeepsInformed(s: System, a: Action)
    requires AllInformed(s) && Enabled(s, a)
    ensures AllInformed(Apply(s, a))
  {
    match a
    case Append(line) => AppendKeepsInformed(s, line);
    case Serve(i) =>
      assert s.session.log[..|s.session.log|] == s.session.log;
    case _ =>
  }

  // However polls overlap or get lost: the step shown is the last one announced up to the cursor.
  lemma {:induction false} StepShownIsLogged(run: Run)
    requires Possible(run)
    ensures AllInformed(End(run))
  {
    if run.Then? {
      StepShownIsLogged(run.before);
      StepKeepsInformed(End(run.before), run.action);
    }
  }

  // With one poll at a time it is the last one among the lines shown.
  lemma StepShownIsTheLinesLast(run: Run)
    requires Possible(run) && OneAtATime(run)
    ensures End(run).client.step == LastStep(End(run).client.lines)
  {
    StepShownIsLogged(run);
    DeliveredExactlyOnce(run);
  }

  // -- what the outcome says ---------------------------------------------------------

  // What the run's thread gave to finish, once it has.
  ghost function FinishOf(run: Run): Option<Option<string>> {
    match run
    case Start(_) => None
    case Then(before, a) => if a.Finish? then Some(a.error) else FinishOf(before)
  }

  predicate Failure(error: Option<string>) {
    error.Some? && error.value != ""
  }

  // The status ends with the call of finish, which happens once, and says whether it failed.
  lemma {:induction false} FinishDecidesStatus(run: Run)
    requires Possible(run)
    ensures FinishOf(run) == None ==> End(run).session.status == Running
    ensures FinishOf(run).Some? ==>
              && End(run).session.error == FinishOf(run).value
              && End(run).session.status == if Failure(FinishOf(run).value) then Error else Done
  {
    if run.Then? {
      FinishDecidesStatus(run.before);
      match run.action
      case Append(line) => LogGrows(End(run.before).session, line);
      case Finish(error) =>
        if error.Some? { FailureIsReported(End(run.before).session, error.value); }
      case _ =>
    }
  }

  lemma WarningsFollowLog(s: State, line: string)
    requires s.warnings == Unique(WarningsIn(s.log))
    ensures Appended(s, line).warnings == Unique(WarningsIn(s.log + [line]))
  {
    var log := s.log + [line];
    assert log[..|log| - 1] == s.log;
    PrefixesDiffer(line);
    if StartsWith(line, WARNING_PREFIX) {
      UniqueLonger(WarningsIn(s.log), line[|WARNING_PREFIX|..]);
      UniqueHolds(WarningsIn(s.log));
    }
  }

  lemma {:induction false} WarningsAreTheLogs(run: Run)
    requires Possible(run)
    ensures End(run).session.warnings == Unique(WarningsIn(End(run).session.log))
  {
    if run.Then? {
      WarningsAreTheLogs(run.before);
      if run.action.Append? {
        LogGrows(End(run.before).session, run.action.line);
        WarningsFollowLog(End(run.before).session, run.action.line);
      }
    }
  }

  // In every run that polls one at a time, an outcome is seen only after finish was called. It is
  // success, with the log's warnings without repetition, exactly when the run gave no error or an
  // empty message; otherwise it is the message the run gave.
  lemma OutcomeReportsError(run: Run)
    requires Possible(run) && OneAtATime(run) && End(run).client.outcome.Some?
    ensures FinishOf(run).Some?
    ensures End(run).client.outcome.value.SawDone? <==> FinishOf(run).value in {None, Some("")}
    ensures match End(run).client.outcome.value
            case SawDone(warnings) => warnings == Unique(WarningsIn(End(run).client.lines))
            case SawError(message) => FinishOf(run).value == Some(message) && message != ""
  {
    DeliveredExactlyOnce(run);
    FinishDecidesStatus(run);
    WarningsAreTheLogs(run);
  }

  // A run that failed with an empty message is seen as done: one such run from every session.
  lemma EmptyMessageIsSeenAsDone(session: State)
    requires session.status != Running
    ensures exists run :: && Possible(run) && OneAtATime(run) && FinishOf(run) == Some(Some(""))
                          && End(run).client.outcome == Some(SawDone([]))
  {
    var over := Finished(Started(session), Some(""));
    var reply := Snapshot(over, 0);
    var r0 := Start(session);
    var r1 := Extended(r0, Finish(Some("")), System(over, NEW_CLIENT, []));
    var r2 := Extended(r1, Ask, System(over, NEW_CLIENT, [Asked(0)]));
    var r3 := Extended(r2, Serve(0), System(over, NEW_CLIENT, [Answered(0, reply)]));
    var r4 := Extended(r3, Deliver(0), System(over, Received(NEW_CLIENT, reply), []));
    assert OneAtATime(r1) && OneAtATime(r2) && OneAtATime(r3);
    assert Possible(r4) && OneAtATime(r4);
  }

  // One undisturbed poll catches up: it shows the whole log, and the outcome if there is one.
  lemma OnePollCatchesUp(run: Run)
    requires Possible(run) && OneAtATime(run) && End(run).polls == [] && End(run).client.outcome.None?
    ensures var polled := Then(Then(Then(run, Ask), Serve(0)), Deliver(0));
            && Possible(polled) && OneAtATime(polled)
            && End(polled).client.lines == End(run).session.log
            && (End(polled).client.outcome.Some? <==> Over(End(run).session.status))
  {
    var asked := Then(run, Ask);
    var served := Then(asked, Serve(0));
    var polled := Then(served, Deliver(0));
    assert End(asked).polls == [Asked(End(run).client.cursor)];
    assert End(served).polls[0].Answered?;
    DeliveredExactlyOnce(run);
    RunIsCoherent(run);
    DeliveredExactlyOnce(polled);
    assert End(polled).client.cursor == |End(run).session.log|;
  }

  // Two polls sent before either comes back show a line twice.
  lemma OverlappingPollsRepeat(session: State, line: string)
    requires session.status != Running
    ensures exists run :: Possible(run) && End(run).session.log == [line] && End(run).client.lines == [line, line]
  {
    var log := Appended(Started(session), line);
    LogGrows(Started(session), line);
    var reply := Snapshot(log, 0);
    assert reply.lines == [line] && reply.status == Running;
    var r0 := Start(session);
    var r1 := Extended(r0, Append(line), System(log, NEW_CLIENT, []));
    var r2 := Extended(r1, Ask, System(log, NEW_CLIENT, [Asked(0)]));
    var r3 := Extended(r2, Ask, System(log, NEW_CLIENT, [Asked(0), Asked(0)]));
    var r4 := Extended(r3, Serve(0), System(log, NEW_CLIENT, [Answered(0, reply), Asked(0)]));
    var r5 := Extended(r4, Serve(1), System(log, NEW_CLIENT, [Answered(0, reply), Answered(0, reply)]));
    var once := Client(1, [line], reply.step, None);
    var r6 := Extended(r5, Deliver(0), System(log, once, [Answered(0, reply)]));
    var r7 := Extended(r6, Deliver(0), System(log, Client(1, [line, line], reply.step, None), []));
    assert Possible(r7);
  }

  lemma Extended(run: Run, a: Action, after: System) returns (longer: Run)
    requires Possible(run) && Enabled(End(run), a) && Apply(End(run), a) == after
    ensures longer == Then(run, a) && Possible(longer) && End(longer) == after
  {
    longer := Then(run, a);
  }
}
