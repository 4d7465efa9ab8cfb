/** The two child-originated notifications: the I/O request (a real-time
    signal carrying the sender's pid) and the exit of a child (SIGCHLD, with
    the pid returned by `waitpid`). */
module Notify {
  import opened Types
  import opened Controller
  import RQ = ReadyQueue
  import SL = SleepList

  /** The lookup loop of the I/O handler: the last PCB carrying `pid`, or
      -1 when no PCB does. */
  method FindPid(pcb: seq<Pcb>, pid: int) returns (idx: int)
    requires |pcb| == NPROC
    ensures idx == -1 <==> !HasPid(pcb, pid)
    ensures idx != -1 ==> 0 <= idx < NPROC && pcb[idx].pid == pid
    ensures forall i :: idx < i < NPROC ==> pcb[i].pid != pid
  {
    idx := -1;
    for i := 0 to NPROC
      invariant -1 <= idx < i
      invariant idx != -1 ==> pcb[idx].pid == pid
      invariant forall j :: idx < j < i ==> pcb[j].pid != pid
    {
      if pcb[i].pid == pid {
        idx := i;
      }
    }
  }

  /** The simulated I/O duration drawn from a `rand()` value: 1 to 5 ticks. */
  function IoDuration(roll: nat): (sec: int)
    ensures 1 <= sec <= 5
  {
    roll % 5 + 1
  }

  /** Block task `idx` on I/O until `now + sec`. */
  function SleepInsert(s: Sched, idx: int, sec: int, now: int): (s': Sched)
    requires WF(s) && 0 <= idx < NPROC && s.sl.scount < NPROC
    ensures WF(s') && s'.rq == s.rq && s'.runningIdx == s.runningIdx
    ensures s'.baseTQ == s.baseTQ && s'.alive == s.alive
    ensures s'.pcb == s.pcb[idx := s.pcb[idx].(state := Sleep)]
    ensures SL.Entries(s'.sl) == SL.Entries(s.sl) + [SL.Sleeper(idx, now + sec)]
  {
    s.(sl := SL.Insert(s.sl, idx, now + sec), pcb := s.pcb[idx := s.pcb[idx].(state := Sleep)])
  }

  /** A task that is neither SLEEP nor DONE always finds a free SLEEP slot,
      so the insertion of the I/O handler stays inside its arrays. */
  lemma SleepSlotFree(s: Sched, idx: int)
    requires Inv(s) && 0 <= idx < NPROC && s.pcb[idx].state != Sleep
    ensures s.sl.scount < NPROC
  {
    RoomForAbsent(SleepIds(s), idx);
  }

  /** I/O request from `pid` at time `now`: an unknown pid changes nothing;
      otherwise its task sleeps for 1 to 5 ticks and stops being the running
      task if it was. */
  method IoRequest(s: Sched, pid: int, now: int, roll: nat) returns (s': Sched, idx: int)
    requires WF(s)
    requires HasPid(s.pcb, pid) ==> s.sl.scount < NPROC
    ensures WF(s')
    ensures idx == -1 <==> !HasPid(s.pcb, pid)
    ensures idx == -1 ==> s' == s
    ensures idx != -1 ==>
      && 0 <= idx < NPROC && s.pcb[idx].pid == pid
      && s'.pcb == s.pcb[idx := s.pcb[idx].(state := Sleep)]
      && SL.Entries(s'.sl) == SL.Entries(s.sl) + [SL.Sleeper(idx, now + IoDuration(roll))]
      && s'.runningIdx == (if s.runningIdx == idx then -1 else s.runningIdx)
      && s'.rq == s.rq && s'.baseTQ == s.baseTQ && s'.alive == s.alive
    ensures Inv(s) && FromActive(s, pid) ==> Inv(s') && DoneFrozen(s, s')
  {
    idx := FindPid(s.pcb, pid);
    if idx == -1 {
      s' := s;
      return;
    }
    var sec := IoDuration(roll);
    s' := SleepInsert(s, idx, sec, now);
    if s'.runningIdx == idx {
      s' := s'.(runningIdx := -1);
    }
    if Inv(s) && FromActive(s, pid) {
      IoKeepsInv(s, s', idx, now + sec);
    }
  }

  /** Sending a READY or RUNNING task to sleep keeps the invariant. */
  lemma IoKeepsInv(s: Sched, s': Sched, idx: int, wake: int)
    requires Inv(s) && WF(s') && 0 <= idx < NPROC
    requires s.pcb[idx].state == Ready || s.pcb[idx].state == Running
    requires s'.pcb == s.pcb[idx := s.pcb[idx].(state := Sleep)]
    requires SL.Entries(s'.sl) == SL.Entries(s.sl) + [SL.Sleeper(idx, wake)]
    requires s'.runningIdx == (if s.runningIdx == idx then -1 else s.runningIdx)
    requires s'.rq == s.rq && s'.baseTQ == s.baseTQ && s'.alive == s.alive
    ensures Inv(s') && DoneFrozen(s, s')
  {
    IoTracked(s, s', idx, wake);
    IoFields(s, s', idx);
    CountAliveSame(s.pcb, s'.pcb);
  }

  lemma IoFields(s: Sched, s': Sched, idx: int)
    requires Inv(s) && WF(s') && 0 <= idx < NPROC
    requires s.pcb[idx].state == Ready || s.pcb[idx].state == Running
    requires s'.pcb == s.pcb[idx := s.pcb[idx].(state := Sleep)]
    requires s'.runningIdx == (if s.runningIdx == idx then -1 else s.runningIdx)
    requires s'.rq == s.rq && s'.baseTQ == s.baseTQ
    ensures PidsDistinct(s'.pcb) && Bounded(s') && RunningUnique(s') && ReadyQueued(s')
    ensures DoneFrozen(s, s')
  {
  }

  lemma IoTracked(s: Sched, s': Sched, idx: int, wake: int)
    requires Inv(s) && WF(s') && 0 <= idx < NPROC
    requires s.pcb[idx].state != Sleep
    requires s'.pcb == s.pcb[idx := s.pcb[idx].(state := Sleep)]
    requires SL.Entries(s'.sl) == SL.Entries(s.sl) + [SL.Sleeper(idx, wake)]
    ensures SleepTracked(s')
  {
    SL.IdsAppend(SL.Entries(s.sl), [SL.Sleeper(idx, wake)]);
    assert SleepIds(s') == SleepIds(s) + [idx];
  }

  /** The report loop: the sum of all wait times. */
  method SumWaits(pcb: seq<Pcb>) returns (tw: int)
    ensures tw == TotalWait(pcb)
  {
    tw := 0;
    for i := 0 to |pcb|
      invariant tw == TotalWait(pcb[..i])
    {
      assert pcb[..i + 1][..i] == pcb[..i];
      tw := tw + pcb[i].waitTime;
    }
    assert pcb[..|pcb|] == pcb;
  }

  /** The per-pid loop of the exit handler. */
  method MarkDone(s: Sched, pid: int) returns (s': Sched)
    requires WF(s)
    ensures WF(s') && s'.rq == s.rq && s'.sl == s.sl && s'.baseTQ == s.baseTQ
    ensures forall i :: 0 <= i < NPROC ==>
      s'.pcb[i] == if s.pcb[i].pid == pid then s.pcb[i].(state := Done) else s.pcb[i]
    ensures s'.alive == s.alive - Matches(s.pcb, pid)
    ensures s'.runningIdx ==
      if s.runningIdx != -1 && s.pcb[s.runningIdx].pid == pid then -1 else s.runningIdx
  {
    var pcb, running, alive := s.pcb, s.runningIdx, s.alive;
    for i := 0 to NPROC
      invariant |pcb| == NPROC
      invariant forall j :: 0 <= j < i ==>
        pcb[j] == if s.pcb[j].pid == pid then s.pcb[j].(state := Done) else s.pcb[j]
      invariant forall j :: i <= j < NPROC ==> pcb[j] == s.pcb[j]
      invariant alive == s.alive - Matches(s.pcb[..i], pid)
      invariant running ==
        if 0 <= s.runningIdx < i && s.pcb[s.runningIdx].pid == pid then -1 else s.runningIdx
    {
      assert s.pcb[..i + 1][..i] == s.pcb[..i];
      if pcb[i].pid == pid {
        pcb := pcb[i := pcb[i].(state := Done)];
        if running == i {
          running := -1;
        }
        alive := alive - 1;
      }
    }
    assert s.pcb[..NPROC] == s.pcb;
    s' := s.(pcb := pcb, runningIdx := running, alive := alive);
  }

  lemma ExitKeepsInv(s: Sched, s': Sched, pid: int)
    requires Inv(s) && FromActive(s, pid) && WF(s')
    requires s'.rq == s.rq && s'.sl == s.sl && s'.baseTQ == s.baseTQ
    requires forall i :: 0 <= i < NPROC ==>
      s'.pcb[i] == if s.pcb[i].pid == pid then s.pcb[i].(state := Done) else s.pcb[i]
    requires s'.alive == s.alive - Matches(s.pcb, pid)
    requires s'.runningIdx ==
      if s.runningIdx != -1 && s.pcb[s.runningIdx].pid == pid then -1 else s.runningIdx
    ensures Inv(s') && DoneFrozen(s, s')
    ensures s'.alive == 0 <==> forall i :: 0 <= i < NPROC ==> s'.pcb[i].state == Done
  {
    CountAliveExit(s.pcb, s'.pcb, pid);
    AllDoneIffNoneAlive(s'.pcb);
  }

  /** Exit of child `pid`: each PCB carrying it becomes DONE, stops being the
      running task, and is taken off the live count. When nothing is left
      alive the simulation ends, reporting the total wait time. */
  method ChildExit(s: Sched, pid: int) returns (s': Sched, report: Option<int>)
    requires WF(s)
    ensures WF(s') && s'.rq == s.rq && s'.sl == s.sl && s'.baseTQ == s.baseTQ
    ensures forall i :: 0 <= i < NPROC ==>
      s'.pcb[i] == if s.pcb[i].pid == pid then s.pcb[i].(state := Done) else s.pcb[i]
    ensures s'.alive == s.alive - Matches(s.pcb, pid)
    ensures s'.runningIdx ==
      if s.runningIdx != -1 && s.pcb[s.runningIdx].pid == pid then -1 else s.runningIdx
    ensures report == if s'.alive == 0 then Some(TotalWait(s'.pcb)) else None
    ensures Inv(s) && FromActive(s, pid) ==> Inv(s') && DoneFrozen(s, s')
    ensures Inv(s) && NotReaped(s, pid) ==>
      (report.Some? <==> forall i :: 0 <= i < NPROC ==> s'.pcb[i].state == Done)
    ensures PidsDistinct(s.pcb) ==>
      s'.alive == if HasPid(s.pcb, pid) then s.alive - 1 else s.alive
  {
    s' := MarkDone(s, pid);
    report := None;
    if s'.alive == 0 {
      var tw := SumWaits(s'.pcb);
      report := Some(tw);
    }
    if Inv(s) && FromActive(s, pid) {
      ExitKeepsInv(s, s', pid);
    }
    if Inv(s) && NotReaped(s, pid) {
      CountAliveExit(s.pcb, s'.pcb, pid);
      AllDoneIffNoneAlive(s'.pcb);
    }
    if HasPid(s.pcb, pid) {
      var k :| 0 <= k < NPROC && s.pcb[k].pid == pid;
      if PidsDistinct(s.pcb) {
        MatchesOne(s.pcb, k);
      }
    } else {
      MatchesNone(s.pcb, pid);
    }
  }
  /** The exit handler with the missing step added: besides marking the
      reaped child DONE, drop its SLEEP entry, so that a child killed while
      blocked on I/O is not woken later. */
  method ReapChild(s: Sched, pid: int) returns (s': Sched, report: Option<int>)
    requires WF(s)
    ensures WF(s') && s'.rq == s.rq && s'.baseTQ == s.baseTQ
    ensures forall i :: 0 <= i < NPROC ==>
      s'.pcb[i] == if s.pcb[i].pid == pid then s.pcb[i].(state := Done) else s.pcb[i]
    ensures s'.alive == s.alive - Matches(s.pcb, pid)
    ensures s'.runningIdx ==
      if s.runningIdx != -1 && s.pcb[s.runningIdx].pid == pid then -1 else s.runningIdx
    ensures SL.Entries(s'.sl) == SL.Survivors(SL.Entries(s.sl), s.pcb, pid)
    ensures report == if s'.alive == 0 then Some(TotalWait(s'.pcb)) else None
    ensures Inv(s) && NotReaped(s, pid) ==> Inv(s') && DoneFrozen(s, s')
    ensures Inv(s) && NotReaped(s, pid) ==>
      (report.Some? <==> forall i :: 0 <= i < NPROC ==> s'.pcb[i].state == Done)
    ensures PidsDistinct(s.pcb) ==>
      s'.alive == if HasPid(s.pcb, pid) then s.alive - 1 else s.alive
  {
    var s1;
    s1, report := ChildExit(s, pid);
    var sl := SL.Purge(s.sl, s.pcb, pid);
    s' := s1.(sl := sl);
    if Inv(s) && NotReaped(s, pid) {
      ReapKeepsInv(s, s', pid);
    }
  }

  /** Reaping any child not yet reaped, sleeping or not, keeps the
      invariant once its SLEEP entry is dropped. */
  lemma ReapKeepsInv(s: Sched, s': Sched, pid: int)
    requires Inv(s) && NotReaped(s, pid) && WF(s')
    requires s'.rq == s.rq && s'.baseTQ == s.baseTQ
    requires forall i :: 0 <= i < NPROC ==>
      s'.pcb[i] == if s.pcb[i].pid == pid then s.pcb[i].(state := Done) else s.pcb[i]
    requires s'.alive == s.alive - Matches(s.pcb, pid)
    requires s'.runningIdx ==
      if s.runningIdx != -1 && s.pcb[s.runningIdx].pid == pid then -1 else s.runningIdx
    requires SL.Entries(s'.sl) == SL.Survivors(SL.Entries(s.sl), s.pcb, pid)
    ensures Inv(s') && DoneFrozen(s, s')
    ensures s'.alive == 0 <==> forall i :: 0 <= i < NPROC ==> s'.pcb[i].state == Done
  {
    ReapTracked(s, s', pid);
    ReapFields(s, s', pid);
    CountAliveExit(s.pcb, s'.pcb, pid);
    AllDoneIffNoneAlive(s'.pcb);
  }

  lemma ReapFields(s: Sched, s': Sched, pid: int)
    requires Inv(s) && WF(s') && s'.rq == s.rq && s'.baseTQ == s.baseTQ
    requires forall i :: 0 <= i < NPROC ==>
      s'.pcb[i] == if s.pcb[i].pid == pid then s.pcb[i].(state := Done) else s.pcb[i]
    requires s'.runningIdx ==
      if s.runningIdx != -1 && s.pcb[s.runningIdx].pid == pid then -1 else s.runningIdx
    ensures PidsDistinct(s'.pcb) && Bounded(s') && RunningUnique(s') && ReadyQueued(s')
    ensures DoneFrozen(s, s')
  {
  }

  lemma ReapTracked(s: Sched, s': Sched, pid: int)
    requires Inv(s) && WF(s')
    requires forall i :: 0 <= i < NPROC ==>
      s'.pcb[i] == if s.pcb[i].pid == pid then s.pcb[i].(state := Done) else s.pcb[i]
    requires SL.Entries(s'.sl) == SL.Survivors(SL.Entries(s.sl), s.pcb, pid)
    ensures SleepTracked(s')
  {
    SL.SurvivorsFacts(SL.Entries(s.sl), s.pcb, pid);
  }
}
