/** The parent as a single consumer of events: each timer tick, I/O request
    or reaped child is handled to completion before the next one, so the
    controller invariant holds between any two events. */
module Simulation {
  import opened Types
  import opened Controller
  import RQ = ReadyQueue
  import SL = SleepList
  import Epoch
  import Notify
  import Startup

  datatype Event =
    | Tick(now: int)                        // SIGALRM
    | IoSignal(pid: int, now: int, roll: nat) // the I/O request signal from `pid`
    | Reaped(pid: int)                      // SIGCHLD, `pid` returned by waitpid

  /** Events the operating system can deliver in state `s`: an I/O request
      only comes from a child that is READY or RUNNING (a child blocked on
      I/O is suspended in `pause`, an exited one is gone), while any child
      not yet reaped can exit, even one blocked on I/O that is killed from
      outside. */
  predicate Deliverable(s: Sched, e: Event)
    requires WF(s)
  {
    match e
    case Tick(_) => true
    case IoSignal(pid, _, _) => FromActive(s, pid)
    case Reaped(pid) => NotReaped(s, pid)
  }

  /** Handle one event. `report` is the final total wait time when the last
      child has been reaped. */
  method Handle(s: Sched, e: Event) returns (s': Sched, report: Option<int>)
    requires Inv(s) && Deliverable(s, e)
    ensures Inv(s') && DoneFrozen(s, s') && s'.baseTQ == s.baseTQ
    ensures report.Some? ==> e.Reaped? && forall i :: 0 <= i < NPROC ==> s'.pcb[i].state == Done
  {
    report := None;
    match e
    case Tick(now) =>
      var woken, granted;
      s', woken, granted := Epoch.TimerTick(s, now);
    case IoSignal(pid, now, roll) =>
      var idx := Notify.FindPid(s.pcb, pid);
      if idx != -1 {
        Notify.SleepSlotFree(s, idx);
      }
      s', idx := Notify.IoRequest(s, pid, now, roll);
    case Reaped(pid) =>
      s', report := Notify.ReapChild(s, pid);
  }

  /** An entry for task `i` on the SLEEP list is due at `now`. */
  predicate Arrived(s: Sched, i: int, now: int)
    requires WF(s)
  {
    exists e :: e in SL.Entries(s.sl) && e.idx == i && e.wake <= now
  }

  /** The exit handler as written, followed by the next expiry: a child
      reaped while its SLEEP entry is listed is DONE after the exit, and the
      expiry turns it back into a READY, queued task. */
  method ExitThenExpire(s: Sched, pid: int, now: int) returns (s1: Sched, s': Sched)
    requires WF(s)
    ensures WF(s1) && WF(s')
    ensures forall i :: 0 <= i < NPROC && s.pcb[i].pid == pid && Arrived(s, i, now) ==>
      && s1.pcb[i].state == Done
      && s'.pcb[i].state == Ready && s'.pcb[i].tq == s.baseTQ
      && i in RQ.Live(s'.rq)
  {
    var report, woken;
    s1, report := Notify.ChildExit(s, pid);
    s', woken := Epoch.SleepUpdate(s1, now);
    SL.ExpirySplit(SL.Entries(s.sl), now);
    RQ.EnqueueFacts(RQ.Live(s1.rq), woken);
  }

  /** The corrected exit handler followed by the next expiry: every child
      reaped stays DONE, and the invariant holds. */
  method ReapThenExpire(s: Sched, pid: int, now: int) returns (s1: Sched, s': Sched)
    requires WF(s)
    ensures WF(s1) && WF(s')
    ensures Inv(s) && NotReaped(s, pid) ==>
      && Inv(s')
      && forall i :: 0 <= i < NPROC && s.pcb[i].pid == pid ==>
           s1.pcb[i].state == Done && s'.pcb[i] == s1.pcb[i]
  {
    var report, woken;
    s1, report := Notify.ReapChild(s, pid);
    s', woken := Epoch.SleepUpdate(s1, now);
  }

  /** Start-up with ten children of pids 100..109 and base quantum 3. */
  method Started() returns (s: Sched)
    ensures Inv(s) && s.runningIdx == -1 && SL.Entries(s.sl) == [] && s.baseTQ == 3
    ensures RQ.Live(s.rq) == seq(NPROC, i => i)
    ensures forall i :: 0 <= i < NPROC ==> s.pcb[i] == Pcb(100 + i, 3, Ready, 0)
  {
    var pids := seq(NPROC, i => 100 + i);
    assert Distinct(pids);
    s := Startup.Start(Some(3), pids);
  }

  /** The first epoch, at time 0, grants child 0, which keeps running. */
  method Granted() returns (s: Sched)
    ensures Inv(s) && s.runningIdx == 0 && SL.Entries(s.sl) == []
    ensures forall i :: 0 <= i < NPROC ==> s.pcb[i].pid == 100 + i
  {
    var s0 := Started();
    var s1, woken := Epoch.SleepUpdate(s0, 0);
    var s2 := Epoch.AccrueWait(s1);
    var s3 := Epoch.ClearStale(s2);
    assert RQ.Live(s3.rq)[0] == 0 && s3.pcb[0].state == Ready;
    var s4 := Epoch.Select(s3);
    var granted;
    s, granted := Epoch.Dispatch(s4);
  }

  /** A state reached from start-up: after the first epoch, child 0 (pid
      100) asks for I/O at time 0 with `roll` 4, so it sleeps until 5. */
  method Reached() returns (s: Sched)
    ensures Inv(s) && NotReaped(s, 100)
    ensures s.pcb[0].pid == 100 && s.pcb[0].state == Sleep && Arrived(s, 0, 5)
  {
    var s0 := Granted();
    var idx;
    s, idx := Notify.IoRequest(s0, 100, 0, 4);
  }

  /** The exit handler as written leaves the invariant at once on the
      reached state: child 0 is DONE, yet still on the SLEEP list. */
  method ExitLeavesInv() returns (s: Sched, s': Sched)
    ensures Inv(s) && NotReaped(s, 100)
    ensures WF(s') && s'.pcb[0].state == Done && 0 in SleepIds(s') && !Inv(s')
  {
    s := Reached();
    var report;
    s', report := Notify.ChildExit(s, 100);
    var e :| e in SL.Entries(s.sl) && e.idx == 0 && e.wake <= 5;
    var j :| 0 <= j < |SL.Entries(s.sl)| && SL.Entries(s.sl)[j] == e;
    assert SleepIds(s')[j] == 0;
  }

  /** The finding in action: reaping child 0 (pid 100) of the reached state,
      then expiring at time 5, brings its DONE PCB back to READY with the
      handler as written, and leaves it DONE with the corrected one. */
  method Revival() returns (asWritten: State, corrected: State)
    ensures asWritten == Ready && corrected == Done
  {
    var s := Reached();
    var s1, s' := ExitThenExpire(s, 100, 5);
    asWritten := s'.pcb[0].state;
    var t1, t' := ReapThenExpire(s, 100, 5);
    corrected := t'.pcb[0].state;
  }
}
