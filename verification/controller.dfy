/** The controller's shared state (the globals of the parent process) and the
    invariant every handler keeps. */
module Controller {
  import opened Types
  import RQ = ReadyQueue
  import SL = SleepList

  /** `pcb`, `running_idx`, `baseTQ`, `alive`, the READY queue and the SLEEP
      list, as one record. */
  datatype Sched = Sched(pcb: seq<Pcb>, runningIdx: int, baseTQ: int, alive: int,
                         rq: RQ.Queue, sl: SL.Sleepers)

  /** What the handlers need to stay inside their arrays. */
  predicate WF(s: Sched) {
    && |s.pcb| == NPROC
    && -1 <= s.runningIdx < NPROC
    && RQ.Valid(s.rq)
    && SL.Valid(s.sl)
  }

  /** PCB indices on the SLEEP list, in list order. */
  function SleepIds(s: Sched): seq<int>
    requires WF(s)
  {
    SL.Ids(SL.Entries(s.sl))
  }

  /** Number of PCBs not yet DONE. */
  function CountAlive(pcb: seq<Pcb>): nat
  {
    if pcb == [] then 0
    else CountAlive(pcb[..|pcb| - 1]) + (if pcb[|pcb| - 1].state == Done then 0 else 1)
  }

  /** Number of PCBs carrying `pid`. */
  function Matches(pcb: seq<Pcb>, pid: int): nat
  {
    if pcb == [] then 0
    else Matches(pcb[..|pcb| - 1], pid) + (if pcb[|pcb| - 1].pid == pid then 1 else 0)
  }

  /** Sum of the recorded wait times. */
  function TotalWait(pcb: seq<Pcb>): int
  {
    if pcb == [] then 0 else TotalWait(pcb[..|pcb| - 1]) + pcb[|pcb| - 1].waitTime
  }

  predicate HasPid(pcb: seq<Pcb>, pid: int) {
    exists i :: 0 <= i < |pcb| && pcb[i].pid == pid
  }

  predicate PidsDistinct(pcb: seq<Pcb>) {
    forall i, j :: 0 <= i < j < |pcb| ==> pcb[i].pid != pcb[j].pid
  }

  /** Quantum and wait time stay within bounds. */
  predicate Bounded(s: Sched)
    requires WF(s)
  {
    forall i :: 0 <= i < NPROC ==>
      0 <= s.pcb[i].tq <= s.baseTQ && s.pcb[i].waitTime >= 0
  }

  /** At most one PCB is RUNNING and `running_idx` names it; a running task
      has quantum left. */
  predicate RunningUnique(s: Sched)
    requires WF(s)
  {
    && (forall i :: 0 <= i < NPROC && s.pcb[i].state == Running ==> i == s.runningIdx)
    && (s.runningIdx != -1 ==>
          s.pcb[s.runningIdx].state == Running && s.pcb[s.runningIdx].tq >= 1)
  }

  /** Every READY task is queued (stale non-READY entries may linger). */
  predicate ReadyQueued(s: Sched)
    requires WF(s)
  {
    forall i :: 0 <= i < NPROC && s.pcb[i].state == Ready ==> i in RQ.Live(s.rq)
  }

  /** The SLEEP list holds exactly the SLEEP tasks, once each. */
  predicate SleepTracked(s: Sched)
    requires WF(s)
  {
    && Distinct(SleepIds(s))
    && forall i :: 0 <= i < NPROC ==> (s.pcb[i].state == Sleep <==> i in SleepIds(s))
  }

  /** The invariant of every reachable controller state. */
  predicate Inv(s: Sched) {
    && WF(s)
    && s.baseTQ >= 1
    && PidsDistinct(s.pcb)
    && Bounded(s)
    && RunningUnique(s)
    && ReadyQueued(s)
    && SleepTracked(s)
    && s.alive == CountAlive(s.pcb)
  }

  /** Notifications only come from a child the controller still counts as
      READY or RUNNING: a child blocked in I/O is suspended and cannot
      signal, and an exited child is reaped once. */
  predicate FromActive(s: Sched, pid: int)
    requires WF(s)
  {
    forall i :: 0 <= i < NPROC && s.pcb[i].pid == pid ==>
      s.pcb[i].state == Ready || s.pcb[i].state == Running
  }

  /** `waitpid` reports each child once: no PCB carrying `pid` is DONE yet.
      The child may be in any other state, including SLEEP, since a child
      blocked on I/O can still be killed from outside. */
  predicate NotReaped(s: Sched, pid: int)
    requires WF(s)
  {
    forall i :: 0 <= i < NPROC && s.pcb[i].pid == pid ==> s.pcb[i].state != Done
  }

  /** DONE is absorbing: a DONE PCB is left exactly as it was. */
  predicate DoneFrozen(s: Sched, s': Sched)
    requires WF(s) && WF(s')
  {
    forall i :: 0 <= i < NPROC && s.pcb[i].state == Done ==> s'.pcb[i] == s.pcb[i]
  }

  lemma {:induction false} CountAliveSame(a: seq<Pcb>, b: seq<Pcb>)
    requires |a| == |b|
    requires forall i :: 0 <= i < |a| ==> (a[i].state == Done <==> b[i].state == Done)
    ensures CountAlive(a) == CountAlive(b)
  {
    if a != [] {
      CountAliveSame(a[..|a| - 1], b[..|b| - 1]);
    }
  }

  /** Marking every live PCB with `pid` DONE lowers the live count by the
      number of such PCBs. */
  lemma {:induction false} CountAliveExit(a: seq<Pcb>, b: seq<Pcb>, pid: int)
    requires |a| == |b|
    requires forall i :: 0 <= i < |a| ==>
      b[i] == if a[i].pid == pid then a[i].(state := Done) else a[i]
    requires forall i :: 0 <= i < |a| && a[i].pid == pid ==> a[i].state != Done
    ensures CountAlive(b) + Matches(a, pid) == CountAlive(a)
  {
    if a != [] {
      CountAliveExit(a[..|a| - 1], b[..|b| - 1], pid);
    }
  }

  lemma {:induction false} MatchesOne(pcb: seq<Pcb>, k: int)
    requires PidsDistinct(pcb) && 0 <= k < |pcb|
    ensures Matches(pcb, pcb[k].pid) == 1
  {
    var n := |pcb| - 1;
    assert PidsDistinct(pcb[..n]);
    if k == n {
      MatchesNone(pcb[..n], pcb[k].pid);
    } else {
      MatchesOne(pcb[..n], k);
    }
  }

  lemma {:induction false} MatchesNone(pcb: seq<Pcb>, pid: int)
    requires !HasPid(pcb, pid)
    ensures Matches(pcb, pid) == 0
  {
    if pcb != [] {
      MatchesNone(pcb[..|pcb| - 1], pid);
    }
  }

  /** The live count reaches 0 exactly when every PCB is DONE. */
  lemma {:induction false} AllDoneIffNoneAlive(pcb: seq<Pcb>)
    ensures CountAlive(pcb) == 0 <==> forall i :: 0 <= i < |pcb| ==> pcb[i].state == Done
  {
    if pcb != [] {
      AllDoneIffNoneAlive(pcb[..|pcb| - 1]);
    }
  }
}
