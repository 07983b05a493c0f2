/** The single install run of a live session: its log, step and warnings, read by snapshots. */
module Session {
  import opened Common
  import opened Intervals
  import opened Numerals
  import opened Sequences

  const STEP_PREFIX: string := "[protogenos] step "
  const WARNING_PREFIX: string := "[protogenos] warning: "

  datatype Status = Idle | Running | Done | Error

  datatype Step = Step(index: nat, total: nat, title: string)

  datatype State = State(
    status: Status, log: seq<string>, error: Option<string>, step: Option<Step>, warnings: seq<string>)

  datatype Reply = Reply(
    status: Status, lines: seq<string>, next: nat, error: Option<string>, step: Option<Step>, warnings: seq<string>)

  // -- text -----------------------------------------------------------------

  // str.partition: the text before and after the first separator; all of it and nothing without one.
  function Partition(s: string, sep: string): (string, string)
    requires sep != []
  {
    if StartsWith(s, sep) then ("", s[|sep|..])
    else if s == [] then ("", "")
    else
      var rest := Partition(s[1..], sep);
      ([s[0]] + rest.0, rest.1)
  }

  predicate IsNumber(s: string) {
    s != [] && forall c <- s :: IsDigit(c)
  }

  // What a step line announces, when it is well formed.
  function ReadStep(line: string): Option<Step>
    requires StartsWith(line, STEP_PREFIX)
  {
    var (counter, title) := Partition(line[|STEP_PREFIX|..], ": ");
    var (index, total) := Partition(counter, "/");
    if IsNumber(index) && IsNumber(total) then Some(Step(Numeral(index), Numeral(total), title)) else None
  }

  // The line the installer prints when a step begins.
  function StepLine(step: Step): string {
    STEP_PREFIX + Decimal(step.index) + "/" + Decimal(step.total) + ": " + step.title
  }

  // -- the state changes ------------------------------------------------------

  function Appended(s: State, line: string): State {
    var logged := s.(log := s.log + [line]);
    if StartsWith(line, STEP_PREFIX) then
      if ReadStep(line).Some? then logged.(step := ReadStep(line)) else logged
    else if StartsWith(line, WARNING_PREFIX) && line[|WARNING_PREFIX|..] !in s.warnings then
      logged.(warnings := s.warnings + [line[|WARNING_PREFIX|..]])
    else logged
  }

  function Started(s: State): State {
    if s.status == Running then s else State(Running, [], None, None, [])
  }

  // An error message counts only when it is not empty.
  function Finished(s: State, error: Option<string>): State {
    s.(status := if error.Some? && error.value != "" then Error else Done, error := error)
  }

  // Python's log[since:], where a negative index counts from the end.
  function Slice<T>(log: seq<T>, since: int): seq<T> {
    if since >= |log| then []
    else if since >= 0 then log[since..]
    else if |log| + since >= 0 then log[|log| + since..]
    else log
  }

  // The lines are the end of the log: from the cursor on, or as many as a negative one counts.
  lemma SliceIsSuffix<T>(log: seq<T>, since: int)
    ensures var n := if since >= 0 then Max(|log| - since, 0) else Min(-since, |log|);
            |Slice(log, since)| == n && Slice(log, since) == log[|log| - n..]
  {
  }

  function Snapshot(s: State, since: int): Reply {
    Reply(s.status, Slice(s.log, since), |s.log|, s.error, s.step, s.warnings)
  }

  class InstallSession {
    var status: Status
    var logLines: seq<string>
    var error: Option<string>
    var step: Option<Step>
    var warnings: seq<string>

    function Current(): State
      reads this
    {
      State.State(status, logLines, error, step, warnings)
    }

    constructor ()
      ensures Current() == State.State(Idle, [], None, None, [])
    {
      status, logLines, error, step, warnings := Idle, [], None, None, [];
    }

    method AppendLog(line: string)
      modifies this
      ensures Current() == Appended(old(Current()), line)
    {
      logLines := logLines + [line];
      if StartsWith(line, STEP_PREFIX) {
        var (counter, title) := Partition(line[|STEP_PREFIX|..], ": ");
        var (index, total) := Partition(counter, "/");
        if IsNumber(index) && IsNumber(total) {
          step := Some(Step(Numeral(index), Numeral(total), title));
        }
      } else if StartsWith(line, WARNING_PREFIX) {
        var warning := line[|WARNING_PREFIX|..];
        if warning !in warnings {
          warnings := warnings + [warning];
        }
      }
    }

    method Start() returns (started: bool)
      modifies this
      ensures started == (old(status) != Running)
      ensures Current() == Started(old(Current()))
    {
      if status == Running {
        return false;
      }
      status := Running;
      logLines, error, step, warnings := [], None, None, [];
      return true;
    }

    method Finish(message: Option<string>)
      modifies this
      ensures Current() == Finished(old(Current()), message)
    {
      status := if message.Some? && message.value != "" then Error else Done;
      error := message;
    }

    method TakeSnapshot(since: int) returns (reply: Reply)
      ensures reply == Snapshot(Current(), since)
    {
      reply := Reply(status, Slice(logLines, since), |logLines|, error, step, warnings);
    }
  }

  // -- what the log says ---------------------------------------------------------

  function AppendedAll(s: State, lines: seq<string>): State {
    if lines == [] then s else Appended(AppendedAll(s, lines[..|lines| - 1]), lines[|lines| - 1])
  }

  function WarningsIn(lines: seq<string>): seq<string> {
    if lines == [] then []
    else
      var init, last := WarningsIn(lines[..|lines| - 1]), lines[|lines| - 1];
      if StartsWith(last, WARNING_PREFIX) then init + [last[|WARNING_PREFIX|..]] else init
  }

  function LastStep(lines: seq<string>): Option<Step> {
    if lines == [] then None
    else
      var last := lines[|lines| - 1];
      if StartsWith(last, STEP_PREFIX) && ReadStep(last).Some? then ReadStep(last)
      else LastStep(lines[..|lines| - 1])
  }

  lemma PrefixesDiffer(line: string)
    ensures !(StartsWith(line, STEP_PREFIX) && StartsWith(line, WARNING_PREFIX))
  {
    assert STEP_PREFIX[13] == 's' && WARNING_PREFIX[13] == 'w';
    assert StartsWith(line, STEP_PREFIX) ==> line[..|STEP_PREFIX|][13] == line[13];
    assert StartsWith(line, WARNING_PREFIX) ==> line[..|WARNING_PREFIX|][13] == line[13];
  }

  lemma {:induction false} StepIsLogged(s: State, lines: seq<string>)
    ensures AppendedAll(s, lines).step == if LastStep(lines).Some? then LastStep(lines) else s.step
  {
    if lines != [] {
      StepIsLogged(s, lines[..|lines| - 1]);
    }
  }

  lemma {:induction false} WarningsAreLogged(s: State, lines: seq<string>)
    requires s.warnings == []
    ensures AppendedAll(s, lines).warnings == Unique(WarningsIn(lines))
  {
    if lines != [] {
      var init, last := lines[..|lines| - 1], lines[|lines| - 1];
      WarningsAreLogged(s, init);
      PrefixesDiffer(last);
      if StartsWith(last, WARNING_PREFIX) {
        UniqueLonger(WarningsIn(init), last[|WARNING_PREFIX|..]);
      }
    }
  }

  lemma {:induction false} LinesAreLogged(s: State, lines: seq<string>)
    ensures var after := AppendedAll(s, lines);
            after.log == s.log + lines && after.status == s.status && after.error == s.error
  {
    if lines == [] {
      assert s.log + lines == s.log;
    } else {
      LinesAreLogged(s, lines[..|lines| - 1]);
      assert lines == lines[..|lines| - 1] + [lines[|lines| - 1]];
    }
  }

  // After a start, the session's step is the last one its log announces, and its warnings are the
  // log's warnings without repetition.
  lemma StateIsItsLog(s: State, lines: seq<string>)
    requires s.status != Running
    ensures AppendedAll(Started(s), lines)
         == State.State(Running, lines, None, LastStep(lines), Unique(WarningsIn(lines)))
  {
    StepIsLogged(Started(s), lines);
    WarningsAreLogged(Started(s), lines);
    LinesAreLogged(Started(s), lines);
  }

  function WarningLines(warnings: seq<string>): seq<string> {
    seq(|warnings|, i requires 0 <= i < |warnings| => WARNING_PREFIX + warnings[i])
  }

  lemma OneMoreWarning(lines: seq<string>, warning: string)
    ensures WarningsIn(lines + [WARNING_PREFIX + warning]) == WarningsIn(lines) + [warning]
  {
    var line := WARNING_PREFIX + warning;
    assert line[..|WARNING_PREFIX|] == WARNING_PREFIX && line[|WARNING_PREFIX|..] == warning;
    assert (lines + [line])[..|lines + [line]| - 1] == lines;
  }

  lemma {:induction false} WarningsInSummary(lines: seq<string>, warnings: seq<string>)
    ensures WarningsIn(lines + WarningLines(warnings)) == WarningsIn(lines) + warnings
  {
    if warnings == [] {
      assert lines + WarningLines(warnings) == lines;
    } else {
      var init, last := warnings[..|warnings| - 1], warnings[|warnings| - 1];
      WarningsInSummary(lines, init);
      OneMoreWarning(lines + WarningLines(init), last);
      assert lines + WarningLines(warnings) == lines + WarningLines(init) + [WARNING_PREFIX + last];
      Associates(WarningsIn(lines), init, [last]);
      assert warnings == init + [last];
    }
  }

  // Printing every warning again at the end of the run leaves the warnings shown as they were.
  lemma SummaryRepeatsNothing(lines: seq<string>, warnings: seq<string>)
    requires forall w <- warnings :: w in WarningsIn(lines)
    ensures Unique(WarningsIn(lines + WarningLines(warnings))) == Unique(WarningsIn(lines))
  {
    WarningsInSummary(lines, warnings);
    UniqueAgain(WarningsIn(lines), warnings);
  }

  // -- step lines ------------------------------------------------------------------

  lemma {:induction false} PartitionAt(a: string, sep: string, b: string)
    requires sep != [] && sep[0] !in a
    ensures Partition(a + sep + b, sep) == (a, b)
  {
    var s := a + sep + b;
    if a == [] {
      assert s[..|sep|] == sep && s[|sep|..] == b;
    } else {
      var rest := a[1..];
      PartitionAt(rest, sep, b);
      assert a == [a[0]] + rest;
      PartitionSkips(a[0], rest + sep + b, sep);
      assert s == [a[0]] + (rest + sep + b);
    }
  }

  // A character that does not open the separator goes to the first part.
  lemma PartitionSkips(c: char, s: string, sep: string)
    requires sep != [] && sep[0] != c
    ensures Partition([c] + s, sep) == ([c] + Partition(s, sep).0, Partition(s, sep).1)
  {
    var all := [c] + s;
    assert all[0] == c && all[1..] == s;
    assert |sep| <= |all| ==> all[..|sep|][0] == c;
  }

  lemma FrontJoins(c: char, a: string, sep: string, b: string)
    ensures [c] + (a + sep + b) == ([c] + a) + sep + b
  {
  }

  lemma {:induction false} PartitionSplits(s: string, sep: string)
    requires sep != []
    ensures var (a, b) := Partition(s, sep); s == a + sep + b || (s == a && b == "")
  {
    if StartsWith(s, sep) {
      assert s == sep + s[|sep|..];
    } else if s != [] {
      var rest := s[1..];
      PartitionSplits(rest, sep);
      var (a, b) := Partition(rest, sep);
      FrontJoins(s[0], a, sep, b);
      assert s == [s[0]] + rest;
    }
  }

  lemma {:induction false} PartitionNone(s: string, sep: string)
    requires sep != [] && sep[0] !in s
    ensures Partition(s, sep) == (s, "")
  {
    if s == [] {
      assert |sep| > |s|;
    } else {
      assert |sep| <= |s| ==> s[..|sep|][0] == s[0];
      assert s[0] in s && forall c <- s[1..] :: c in s;
      PartitionNone(s[1..], sep);
      assert s == [s[0]] + s[1..];
    }
  }

  // The line announces the step: both numbers in digits, and whatever follows the first colon and
  // space as its title.
  ghost predicate Announces(line: string, a: string, b: string, step: Step) {
    && IsNumber(a) && IsNumber(b) && Numeral(a) == step.index && Numeral(b) == step.total
    && (|| line == STEP_PREFIX + (a + "/" + b + ": " + step.title)
        || (step.title == "" && line == STEP_PREFIX + (a + "/" + b)))
  }

  lemma CounterReads(a: string, b: string)
    requires IsNumber(a) && IsNumber(b)
    ensures Partition(a + "/" + b, "/") == (a, b) && ':' !in a + "/" + b
  {
    assert '/' !in a && ':' !in a && ':' !in b;
    PartitionAt(a, "/", b);
  }

  lemma AnnouncedReads(line: string, a: string, b: string, step: Step)
    requires Announces(line, a, b, step)
    ensures StartsWith(line, STEP_PREFIX) && ReadStep(line) == Some(step)
  {
    var counter := a + "/" + b;
    CounterReads(a, b);
    if line == STEP_PREFIX + (counter + ": " + step.title) {
      assert line[|STEP_PREFIX|..] == counter + ": " + step.title && line[..|STEP_PREFIX|] == STEP_PREFIX;
      PartitionAt(counter, ": ", step.title);
    } else {
      assert line[|STEP_PREFIX|..] == counter && line[..|STEP_PREFIX|] == STEP_PREFIX;
      PartitionNone(counter, ": ");
    }
  }

  // Exactly which lines announce which step.
  lemma ReadStepIff(line: string, step: Step)
    requires StartsWith(line, STEP_PREFIX)
    ensures ReadStep(line) == Some(step) <==> exists a, b :: Announces(line, a, b, step)
  {
    var rest := line[|STEP_PREFIX|..];
    if ReadStep(line) == Some(step) {
      var (counter, title) := Partition(rest, ": ");
      var (a, b) := Partition(counter, "/");
      assert line == STEP_PREFIX + rest;
      PartitionSplits(rest, ": ");
      PartitionSplits(counter, "/");
      assert Announces(line, a, b, step);
    }
    if a, b :| Announces(line, a, b, step) {
      AnnouncedReads(line, a, b, step);
    }
  }

  // The step shown is the last one announced, whatever other lines follow.
  lemma {:induction false} LastStepIs(before: seq<string>, line: string, step: Step, after: seq<string>)
    requires StartsWith(line, STEP_PREFIX) && ReadStep(line) == Some(step)
    requires forall l <- after :: !(StartsWith(l, STEP_PREFIX) && ReadStep(l).Some?)
    ensures LastStep(before + [line] + after) == Some(step)
  {
    var all := before + [line] + after;
    if after == [] {
      assert all[|all| - 1] == line;
    } else {
      LastStepIs(before, line, step, after[..|after| - 1]);
      assert all[..|all| - 1] == before + [line] + after[..|after| - 1];
      assert all[|all| - 1] == after[|after| - 1];
    }
  }

  // A printed step line reads back as the step it announced, whatever its title.
  lemma StepLineReadsBack(step: Step)
    ensures StartsWith(StepLine(step), STEP_PREFIX) && ReadStep(StepLine(step)) == Some(step)
  {
    var index, total := Decimal(step.index), Decimal(step.total);
    var counter := index + "/" + total;
    var line := StepLine(step);
    assert line == STEP_PREFIX + (counter + ": " + step.title);
    assert line[..|STEP_PREFIX|] == STEP_PREFIX;
    assert line[|STEP_PREFIX|..] == counter + ": " + step.title;
    assert ':' !in counter;
    PartitionAt(counter, ": ", step.title);
    assert '/' !in index;
    PartitionAt(index, "/", total);
    NumeralOfDecimal(step.index);
    NumeralOfDecimal(step.total);
  }

  // -- how a run is reported ---------------------------------------------------------

  // A failed run is reported as failed exactly when its error has a nonempty message.
  lemma FailureIsReported(s: State, message: string)
    ensures Finished(s, Some(message)).status == Error <==> message != ""
    ensures Finished(s, None).status == Done
  {
  }
}
