/**
 The prefetcher's shared fields and its lock-protected blocks. Every block is one atomic step;
 each method below is one `with self._lock` body and is proved against the function of the
 shared state that the transition system in PrefetchSystem interleaves.
 */
module Prefetch {
  import opened Common
  import opened Packer

  datatype StateName = Idle | Preparing | Downloading | Done | Skipped | Failed | Stopped

  // start() sorts and de-duplicates the package names, so a request is a set of names.
  datatype Request = Request(packages: set<string>, multilib: bool)

  datatype Status = Status(state: StateName, packages: nat, total: nat, planned: int, reason: string)

  const FRESH: Status := Status(Preparing, 0, 0, 0, "")

  // Processes and threads are identified by number.
  datatype Shared = Shared(
    status: Status,
    process: Option<nat>,
    thread: Option<nat>,
    generation: nat,
    request: Option<Request>,
    plannedFiles: set<string>)

  // -- the lock-protected blocks, as functions of the shared state -----------

  /** Whether start() has anything to do for this request. */
  predicate Accepts(s: Shared, request: Request) {
    !(s.request == Some(request) && s.status.state !in {Failed, Stopped})
  }

  function Started(s: Shared, request: Request): Shared {
    if Accepts(s, request) then s.(request := Some(request), status := FRESH) else s
  }

  function Halted(s: Shared): Shared {
    s.(generation := s.generation + 1)
  }

  function Installed(s: Shared, request: Request, worker: nat): Shared {
    if s.request != Some(request) then s
    else s.(generation := s.generation + 1, status := FRESH, thread := Some(worker))
  }

  function StopMarked(status: Status): Status {
    if status.state in {Preparing, Downloading} then status.(state := Stopped) else status
  }

  function Stopping(s: Shared): Shared {
    s.(request := None, status := StopMarked(s.status))
  }

  function FinishedAs(s: Shared, generation: nat, state: StateName, reason: string): Shared {
    if generation == s.generation then s.(status := s.status.(state := state, reason := reason)) else s
  }

  function Launched(s: Shared, generation: nat, process: nat): Shared {
    if generation == s.generation then s.(process := Some(process)) else s
  }

  function Cleared(s: Shared, process: nat): Shared {
    if s.process == Some(process) then s.(process := None) else s
  }

  function Recorded(s: Shared, generation: nat, plan: Planning): Shared {
    if generation != s.generation then s
    else s.(status := s.status.(packages := |plan.downloads|, total := plan.Total(), planned := plan.Planned()),
            plannedFiles := plan.Files())
  }

  function MarkedDownloading(s: Shared, generation: nat): Shared {
    if generation == s.generation then s.(status := s.status.(state := Downloading)) else s
  }

  // -- the object ------------------------------------------------------------

  class Prefetcher {
    var status: Status
    var process: Option<nat>
    var thread: Option<nat>
    var generation: nat
    var request: Option<Request>
    var plannedFiles: set<string>

    ghost function View(): Shared
      reads this
    {
      Shared(status, process, thread, generation, request, plannedFiles)
    }

    constructor ()
      ensures View() == Shared(Status(Idle, 0, 0, 0, ""), None, None, 0, None, {})
    {
      status := Status(Idle, 0, 0, 0, "");
      process, thread, request := None, None, None;
      generation := 0;
      plannedFiles := {};
    }

    /** The locked part of start(); the caller spawns a restart thread when it returns true. */
    method Start(newRequest: Request) returns (spawn: bool)
      modifies this
      ensures View() == Started(old(View()), newRequest)
      ensures spawn == Accepts(old(View()), newRequest)
      ensures spawn <==> old(request) != Some(newRequest) || old(status.state) == Failed || old(status.state) == Stopped
      ensures spawn ==> request == Some(newRequest) && status == Status(Preparing, 0, 0, 0, "")
      ensures !spawn ==> View() == old(View())
      ensures generation == old(generation) && process == old(process) && thread == old(thread)
    {
      if request == Some(newRequest) && status.state !in {Failed, Stopped} {
        return false;
      }
      request := Some(newRequest);
      status := FRESH;
      return true;
    }

    /** The locked part of _halt(): supersede every worker and capture what is running. */
    method Halt() returns (capturedProcess: Option<nat>, capturedThread: Option<nat>)
      modifies this
      ensures View() == Halted(old(View()))
      ensures capturedProcess == old(process) && capturedThread == old(thread)
      ensures generation == old(generation) + 1 && status == old(status) && request == old(request)
    {
      generation := generation + 1;
      capturedProcess, capturedThread := process, thread;
    }

    /** The locked part of _restart(): install a worker unless a newer plan replaced this one. */
    method Install(wanted: Request, worker: nat) returns (installed: Option<nat>)
      modifies this
      ensures View() == Installed(old(View()), wanted, worker)
      ensures installed == if old(request) == Some(wanted) then Some(generation) else None
      ensures request == old(request) && process == old(process)
      ensures installed.Some? ==> generation == old(generation) + 1 && thread == Some(worker)
                                  && status == Status(Preparing, 0, 0, 0, "")
      ensures installed.None? ==> View() == old(View())
    {
      if Some(wanted) != request {
        return None;
      }
      generation := generation + 1;
      status := FRESH;
      thread := Some(worker);
      return Some(generation);
    }

    /** The first lock in stop(); _halt() takes the lock again afterwards. */
    method Stop()
      modifies this
      ensures View() == Stopping(old(View()))
      ensures request == None && status == old(status).(state := status.state)
      ensures status.state == if old(status.state) == Preparing || old(status.state) == Downloading then Stopped
                              else old(status.state)
    {
      request := None;
      if status.state in {Preparing, Downloading} {
        status := status.(state := Stopped);
      }
    }

    method Finish(worker: nat, state: StateName, reason: string)
      modifies this
      ensures View() == FinishedAs(old(View()), worker, state, reason)
      ensures worker == old(generation) ==> status == old(status).(state := state, reason := reason)
      ensures worker != old(generation) ==> View() == old(View())
    {
      if worker == generation {
        status := status.(state := state);
        status := status.(reason := reason);
      }
    }

    /** The first lock in _command(): launch only while still current. */
    method Launch(worker: nat, newProcess: nat) returns (launched: bool)
      modifies this
      ensures View() == Launched(old(View()), worker, newProcess)
      ensures launched == (worker == old(generation))
      ensures process == (if launched then Some(newProcess) else old(process)) && status == old(status)
    {
      if worker != generation {
        return false;
      }
      process := Some(newProcess);
      return true;
    }

    /** The second lock in _command(), once the process has exited. */
    method Clear(finished: nat)
      modifies this
      ensures View() == Cleared(old(View()), finished)
      ensures process == if old(process) == Some(finished) then None else old(process)
    {
      if process == Some(finished) {
        process := None;
      }
    }

    method RecordPlan(worker: nat, plan: Planning) returns (current: bool)
      modifies this
      ensures View() == Recorded(old(View()), worker, plan)
      ensures current == (worker == old(generation))
      ensures current ==>
                && status.packages == |plan.downloads| && status.total == Bytes(plan.downloads)
                && status.planned == Bytes(Present(plan.downloads, plan.present)) + Bytes(plan.ChosenItems())
                && (forall name :: name in plannedFiles <==> exists d <- plan.downloads :: d.filename == name)
                && status.state == old(status.state)
      ensures !current ==> View() == old(View())
    {
      if worker != generation {
        return false;
      }
      status := status.(packages := |plan.downloads|);
      status := status.(total := plan.Total());
      status := status.(planned := plan.Planned());
      PlanAccounting(plan);
      plannedFiles := plan.Files();
      return true;
    }

    method MarkDownloading(worker: nat) returns (current: bool)
      modifies this
      ensures View() == MarkedDownloading(old(View()), worker)
      ensures current == (worker == old(generation))
      ensures status == if current then old(status).(state := Downloading) else old(status)
    {
      if worker != generation {
        return false;
      }
      status := status.(state := Downloading);
      return true;
    }
  }
}
