/** One scheduling epoch (the SIGALRM handler `timer_tick`) and its steps:
    sleep expiry, wait accrual, the stale-RUNNING guard, selection, and
    dispatch with quantum exhaustion. */
module Epoch {
  import opened Types
  import opened Controller
  import RQ = ReadyQueue
  import SL = SleepList

  /** What I/O completion does to a PCB: READY with a fresh quantum. */
  function Wake(p: Pcb, base: int): Pcb {
    p.(tq := base, state := Ready)
  }

  /** The loop body of the expiry for one due entry `idx`: mark it READY
      with a full quantum and push it. */
  method WakeOne(pcb: seq<Pcb>, rq: RQ.Queue, idx: int, base: int)
    returns (pcb': seq<Pcb>, rq': RQ.Queue)
    requires |pcb| == NPROC && RQ.Valid(rq) && 0 <= idx < NPROC
    ensures pcb' == pcb[idx := Wake(pcb[idx], base)]
    ensures RQ.Valid(rq')
    ensures RQ.Live(rq') == if idx in RQ.Live(rq) then RQ.Live(rq) else RQ.Live(rq) + [idx]
  {
    pcb' := pcb[idx := pcb[idx].(tq := base, state := Ready)];
    if idx !in RQ.Live(rq) {
      RQ.PushReadyAbsent(pcb', rq, idx);
    }
    rq' := RQ.Push(pcb', rq, idx);
  }

  /** `pcb` is `pcb0` with exactly the tasks in `woken` woken. */
  predicate WokenFrom(pcb0: seq<Pcb>, pcb: seq<Pcb>, woken: seq<int>, base: int)
    requires |pcb0| == NPROC && |pcb| == NPROC
  {
    forall x :: 0 <= x < NPROC ==>
      pcb[x] == if x in woken then Wake(pcb0[x], base) else pcb0[x]
  }

  lemma WokenStep(pcb0: seq<Pcb>, pcb: seq<Pcb>, woken: seq<int>, idx: int, base: int)
    requires |pcb0| == NPROC && |pcb| == NPROC && 0 <= idx < NPROC
    requires WokenFrom(pcb0, pcb, woken, base)
    ensures WokenFrom(pcb0, pcb[idx := Wake(pcb[idx], base)], woken + [idx], base)
  {
  }

  lemma SplitAround<T>(p: seq<T>, rest: seq<T>)
    requires |rest| > 0
    ensures (p + rest)[..|p|] + (p + rest)[|p| + 1..] == p + rest[1..]
  {
  }

  /** Loop invariant of the expiry after the first `k` original entries:
      slot `i` is the next one to inspect. */
  ghost predicate ExpiryProgress(s: Sched, now: int, k: int, i: int, pcb: seq<Pcb>,
                                 rq: RQ.Queue, sl: SL.Sleepers, woken: seq<int>)
    requires WF(s)
  {
    var es := SL.Entries(s.sl);
    && 0 <= k <= |es|
    && |pcb| == NPROC && RQ.Valid(rq) && SL.Valid(sl)
    && SL.Entries(sl) == SL.Pending(es[..k], now) + es[k..]
    && i == |SL.Pending(es[..k], now)|
    && woken == SL.DueIds(es[..k], now)
    && WokenFrom(s.pcb, pcb, woken, s.baseTQ)
    && RQ.Live(rq) == RQ.Enqueue(RQ.Live(s.rq), woken)
  }

  /** One iteration of the expiry loop. */
  method ExpiryStep(s: Sched, now: int, ghost k: int, i: int, pcb: seq<Pcb>,
                    rq: RQ.Queue, sl: SL.Sleepers, woken: seq<int>)
    returns (i': int, pcb': seq<Pcb>, rq': RQ.Queue, sl': SL.Sleepers, woken': seq<int>)
    requires WF(s) && ExpiryProgress(s, now, k, i, pcb, rq, sl, woken)
    requires i < sl.scount
    ensures ExpiryProgress(s, now, k + 1, i', pcb', rq', sl', woken')
    ensures 0 <= sl'.scount - i' < sl.scount - i
  {
    ghost var es := SL.Entries(s.sl);
    assert SL.Entries(sl)[i] == es[k];
    if sl.wake[i] <= now {
      var idx := sl.idx[i];
      assert SL.Ids(SL.Entries(sl))[i] == idx;
      pcb', rq' := WakeOne(pcb, rq, idx, s.baseTQ);
      sl' := SL.RemoveAt(sl, i);
      woken' := woken + [idx];
      // `sleep_update` decrements `i` here and its loop increments it again
      i' := i;
      DueStep(s, now, k, i, pcb, rq, sl, woken, pcb', rq', sl');
    } else {
      i', pcb', rq', sl', woken' := i + 1, pcb, rq, sl, woken;
      KeepStep(s, now, k, i, pcb, rq, sl, woken);
    }
  }

  /** A due entry: its task is woken and pushed, and its slot is deleted. */
  lemma DueStep(s: Sched, now: int, k: int, i: int, pcb: seq<Pcb>, rq: RQ.Queue,
                sl: SL.Sleepers, woken: seq<int>, pcb': seq<Pcb>, rq': RQ.Queue, sl': SL.Sleepers)
    requires WF(s) && ExpiryProgress(s, now, k, i, pcb, rq, sl, woken)
    requires i < sl.scount && SL.Entries(sl)[i] == SL.Entries(s.sl)[k] && sl.wake[i] <= now
    requires var idx := sl.idx[i];
      && pcb' == pcb[idx := Wake(pcb[idx], s.baseTQ)]
      && RQ.Valid(rq') && SL.Valid(sl')
      && RQ.Live(rq') == (if idx in RQ.Live(rq) then RQ.Live(rq) else RQ.Live(rq) + [idx])
      && SL.Entries(sl') == SL.Entries(sl)[..i] + SL.Entries(sl)[i + 1..]
    ensures ExpiryProgress(s, now, k + 1, i, pcb', rq', sl', woken + [sl.idx[i]])
  {
    var es := SL.Entries(s.sl);
    var idx := sl.idx[i];
    var kept := SL.Pending(es[..k], now);
    SL.PrefixStep(es, k, now);
    WokenStep(s.pcb, pcb, woken, idx, s.baseTQ);
    RQ.EnqueueSnoc(RQ.Live(s.rq), woken, idx);
    SplitAround(kept, es[k..]);
    assert es[k..][1..] == es[k + 1..];
  }

  /** An entry not yet due stays where it is. */
  lemma KeepStep(s: Sched, now: int, k: int, i: int, pcb: seq<Pcb>, rq: RQ.Queue,
                 sl: SL.Sleepers, woken: seq<int>)
    requires WF(s) && ExpiryProgress(s, now, k, i, pcb, rq, sl, woken)
    requires i < sl.scount && SL.Entries(sl)[i] == SL.Entries(s.sl)[k] && sl.wake[i] > now
    ensures ExpiryProgress(s, now, k + 1, i + 1, pcb, rq, sl, woken)
  {
    var es := SL.Entries(s.sl);
    SL.PrefixStep(es, k, now);
    assert SL.Pending(es[..k], now) + es[k..] == (SL.Pending(es[..k], now) + [es[k]]) + es[k + 1..];
  }

  /** Expiry keeps the invariant: only SLEEP tasks are woken, each becomes
      READY and queued, and exactly the not-yet-due sleepers stay listed. */
  lemma ExpiryKeepsInv(s: Sched, s': Sched, woken: seq<int>, now: int)
    requires Inv(s) && WF(s')
    requires woken == SL.DueIds(SL.Entries(s.sl), now)
    requires SL.Entries(s'.sl) == SL.Pending(SL.Entries(s.sl), now)
    requires forall i :: 0 <= i < NPROC ==>
      s'.pcb[i] == if i in woken then Wake(s.pcb[i], s.baseTQ) else s.pcb[i]
    requires RQ.Live(s'.rq) == RQ.Enqueue(RQ.Live(s.rq), woken)
    requires s'.runningIdx == s.runningIdx && s'.baseTQ == s.baseTQ && s'.alive == s.alive
    ensures Inv(s') && DoneFrozen(s, s')
  {
    ExpiryWakesSleepers(s, woken, now);
    ExpiryTracked(s, s', woken, now);
    ExpiryQueued(s, s', woken);
    ExpiryFields(s, s', woken);
    CountAliveSame(s.pcb, s'.pcb);
  }

  /** Each woken task is READY and queued; the others stay queued. */
  lemma ExpiryQueued(s: Sched, s': Sched, woken: seq<int>)
    requires Inv(s) && WF(s')
    requires forall i :: 0 <= i < NPROC ==>
      s'.pcb[i] == if i in woken then Wake(s.pcb[i], s.baseTQ) else s.pcb[i]
    requires RQ.Live(s'.rq) == RQ.Enqueue(RQ.Live(s.rq), woken)
    ensures ReadyQueued(s')
  {
    RQ.EnqueueFacts(RQ.Live(s.rq), woken);
  }

  /** Waking SLEEP tasks keeps the pids, the quantum bounds and the RUNNING
      task, and leaves DONE tasks alone. */
  lemma ExpiryFields(s: Sched, s': Sched, woken: seq<int>)
    requires Inv(s) && WF(s')
    requires forall x :: x in woken ==> 0 <= x < NPROC && s.pcb[x].state == Sleep
    requires forall i :: 0 <= i < NPROC ==>
      s'.pcb[i] == if i in woken then Wake(s.pcb[i], s.baseTQ) else s.pcb[i]
    requires s'.runningIdx == s.runningIdx && s'.baseTQ == s.baseTQ
    ensures PidsDistinct(s'.pcb) && Bounded(s') && RunningUnique(s') && DoneFrozen(s, s')
    ensures forall i :: 0 <= i < NPROC ==> (s'.pcb[i].state == Done <==> s.pcb[i].state == Done)
  {
  }

  /** Only SLEEP tasks are due. */
  lemma ExpiryWakesSleepers(s: Sched, woken: seq<int>, now: int)
    requires Inv(s) && woken == SL.DueIds(SL.Entries(s.sl), now)
    ensures forall x :: x in woken ==> 0 <= x < NPROC && s.pcb[x].state == Sleep
  {
    SL.Partition(SL.Entries(s.sl), now);
  }

  /** After expiry the SLEEP list still holds exactly the SLEEP tasks. */
  lemma ExpiryTracked(s: Sched, s': Sched, woken: seq<int>, now: int)
    requires Inv(s) && WF(s')
    requires woken == SL.DueIds(SL.Entries(s.sl), now)
    requires SL.Entries(s'.sl) == SL.Pending(SL.Entries(s.sl), now)
    requires forall i :: 0 <= i < NPROC ==>
      s'.pcb[i] == if i in woken then Wake(s.pcb[i], s.baseTQ) else s.pcb[i]
    ensures SleepTracked(s')
  {
    SL.Partition(SL.Entries(s.sl), now);
    assert SleepIds(s') == SL.Ids(SL.Pending(SL.Entries(s.sl), now));
  }

  /** Expire the sleepers due at `now`, front to back: each becomes READY
      with a full quantum, is pushed on the READY queue and is removed from
      the list; `woken` lists them in the order they are notified. */
  method SleepUpdate(s: Sched, now: int) returns (s': Sched, woken: seq<int>)
    requires WF(s)
    ensures WF(s')
    ensures woken == SL.DueIds(SL.Entries(s.sl), now)
    ensures SL.Entries(s'.sl) == SL.Pending(SL.Entries(s.sl), now)
    ensures forall i :: 0 <= i < NPROC ==>
      s'.pcb[i] == if i in woken then Wake(s.pcb[i], s.baseTQ) else s.pcb[i]
    ensures RQ.Live(s'.rq) == RQ.Enqueue(RQ.Live(s.rq), woken)
    ensures s'.runningIdx == s.runningIdx && s'.baseTQ == s.baseTQ && s'.alive == s.alive
    ensures Inv(s) ==> Inv(s') && DoneFrozen(s, s')
  {
    ghost var es := SL.Entries(s.sl);
    ghost var k := 0;
    var pcb, rq, sl := s.pcb, s.rq, s.sl;
    woken := [];
    var i := 0;
    assert es[..0] == [];
    while i < sl.scount
      invariant ExpiryProgress(s, now, k, i, pcb, rq, sl, woken)
      decreases sl.scount - i
    {
      i, pcb, rq, sl, woken := ExpiryStep(s, now, k, i, pcb, rq, sl, woken);
      k := k + 1;
    }
    assert es[..k] == es;
    s' := s.(pcb := pcb, rq := rq, sl := sl);
    if Inv(s) {
      ExpiryKeepsInv(s, s', woken, now);
    }
  }

  /** Credit one epoch of waiting to every READY PCB. */
  method AccrueWait(s: Sched) returns (s': Sched)
    requires WF(s)
    ensures WF(s') && s' == s.(pcb := s'.pcb)
    ensures forall i :: 0 <= i < NPROC ==>
      s'.pcb[i].waitTime == s.pcb[i].waitTime + (if s.pcb[i].state == Ready then 1 else 0)
    ensures forall i :: 0 <= i < NPROC ==>
      s'.pcb[i] == s.pcb[i].(waitTime := s'.pcb[i].waitTime)
    ensures Inv(s) ==> Inv(s') && DoneFrozen(s, s')
  {
    var pcb := s.pcb;
    for i := 0 to NPROC
      invariant |pcb| == NPROC
      invariant forall j :: 0 <= j < i ==>
        pcb[j] == s.pcb[j].(waitTime := s.pcb[j].waitTime + (if s.pcb[j].state == Ready then 1 else 0))
      invariant forall j :: i <= j < NPROC ==> pcb[j] == s.pcb[j]
    {
      if pcb[i].state == Ready {
        pcb := pcb[i := pcb[i].(waitTime := pcb[i].waitTime + 1)];
      }
    }
    s' := s.(pcb := pcb);
    if Inv(s) {
      CountAliveSame(s.pcb, s'.pcb);
    }
  }

  /** The stale-RUNNING guard: forget `running_idx` when its task has become
      DONE or SLEEP. With atomic handlers it never fires. */
  function ClearStale(s: Sched): (s': Sched)
    requires WF(s)
    ensures WF(s') && s' == s.(runningIdx := s'.runningIdx)
    ensures s'.runningIdx == s.runningIdx || s'.runningIdx == -1
    ensures s'.runningIdx != s.runningIdx ==>
      s.pcb[s.runningIdx].state == Done || s.pcb[s.runningIdx].state == Sleep
    ensures s'.runningIdx != -1 ==>
      s'.pcb[s'.runningIdx].state != Done && s'.pcb[s'.runningIdx].state != Sleep
    ensures Inv(s) ==> s' == s
  {
    if s.runningIdx != -1 && (s.pcb[s.runningIdx].state == Done || s.pcb[s.runningIdx].state == Sleep)
    then s.(runningIdx := -1)
    else s
  }

  /** Selection: with no task RUNNING, pop the READY queue and, if it yields
      a task, make it RUNNING with a full quantum. */
  method Select(s: Sched) returns (s': Sched)
    requires WF(s)
    ensures WF(s') && s'.sl == s.sl && s'.baseTQ == s.baseTQ && s'.alive == s.alive
    ensures s.runningIdx != -1 ==> s' == s
    ensures forall i :: 0 <= i < NPROC ==> s'.pcb[i].waitTime == s.pcb[i].waitTime
    ensures s.runningIdx == -1 ==>
      var live := RQ.Live(s.rq);
      var k := RQ.FirstReady(s.pcb, live);
      if k < |live| then
        && s'.runningIdx == live[k]
        && s'.pcb == s.pcb[live[k] := s.pcb[live[k]].(state := Running, tq := s.baseTQ)]
        && RQ.Live(s'.rq) == live[k + 1..]
      else
        s'.runningIdx == -1 && s'.pcb == s.pcb && RQ.Live(s'.rq) == []
    ensures Inv(s) ==> Inv(s') && DoneFrozen(s, s')
  {
    s' := s;
    if s.runningIdx == -1 {
      var candidate, rq := RQ.Pop(s.pcb, s.rq);
      s' := s'.(rq := rq);
      if candidate != -1 && s.pcb[candidate].state == Ready {
        s' := s'.(runningIdx := candidate,
                  pcb := s.pcb[candidate := s.pcb[candidate].(state := Running, tq := s.baseTQ)]);
      }
      if Inv(s) {
        SelectKeepsInv(s, s');
      }
    }
  }

  lemma SelectKeepsInv(s: Sched, s': Sched)
    requires Inv(s) && WF(s') && s.runningIdx == -1
    requires s'.sl == s.sl && s'.baseTQ == s.baseTQ && s'.alive == s.alive
    requires
      var live := RQ.Live(s.rq);
      var k := RQ.FirstReady(s.pcb, live);
      if k < |live| then
        && s'.runningIdx == live[k]
        && s'.pcb == s.pcb[live[k] := s.pcb[live[k]].(state := Running, tq := s.baseTQ)]
        && RQ.Live(s'.rq) == live[k + 1..]
      else
        s'.runningIdx == -1 && s'.pcb == s.pcb && RQ.Live(s'.rq) == []
    ensures Inv(s') && DoneFrozen(s, s')
  {
    SelectQueued(s, s');
    CountAliveSame(s.pcb, s'.pcb);
  }

  /** The popped entries in front of the selected task are not READY, so
      every task still READY stays queued. */
  lemma SelectQueued(s: Sched, s': Sched)
    requires Inv(s) && WF(s')
    requires
      var live := RQ.Live(s.rq);
      var k := RQ.FirstReady(s.pcb, live);
      if k < |live| then
        && s'.pcb == s.pcb[live[k] := s.pcb[live[k]].(state := Running, tq := s.baseTQ)]
        && RQ.Live(s'.rq) == live[k + 1..]
      else
        s'.pcb == s.pcb && RQ.Live(s'.rq) == []
    ensures ReadyQueued(s')
  {
    var live := RQ.Live(s.rq);
    var k := RQ.FirstReady(s.pcb, live);
    forall i | 0 <= i < NPROC && s'.pcb[i].state == Ready
      ensures i in RQ.Live(s'.rq)
    {
      var j :| 0 <= j < |live| && live[j] == i;
      assert j > k;
      assert live[k + 1..][j - k - 1] == i;
    }
  }

  /** The optional global refresh: if no READY PCB has quantum left, give
      every READY PCB a full quantum again. */
  method RefreshQuanta(pcb: seq<Pcb>, base: int) returns (pcb': seq<Pcb>, refreshed: bool)
    requires |pcb| == NPROC
    ensures |pcb'| == NPROC
    ensures refreshed <==> forall i :: 0 <= i < NPROC && pcb[i].state == Ready ==> pcb[i].tq <= 0
    ensures forall i :: 0 <= i < NPROC ==>
      pcb'[i] == if refreshed && pcb[i].state == Ready then pcb[i].(tq := base) else pcb[i]
  {
    refreshed := true;
    for i := 0 to NPROC
      invariant refreshed <==> forall j :: 0 <= j < i && pcb[j].state == Ready ==> pcb[j].tq <= 0
    {
      if pcb[i].state == Ready && pcb[i].tq > 0 {
        refreshed := false;
      }
    }
    pcb' := pcb;
    if refreshed {
      for i := 0 to NPROC
        invariant |pcb'| == NPROC
        invariant forall j :: 0 <= j < i ==>
          pcb'[j] == if pcb[j].state == Ready then pcb[j].(tq := base) else pcb[j]
        invariant forall j :: i <= j < NPROC ==> pcb'[j] == pcb[j]
      {
        if pcb'[i].state == Ready {
          pcb' := pcb'[i := pcb'[i].(tq := base)];
        }
      }
    }
  }

  /** Every READY PCB has used up its quantum. */
  predicate AllReadySpent(pcb: seq<Pcb>)
    requires |pcb| == NPROC
  {
    forall i :: 0 <= i < NPROC && pcb[i].state == Ready ==> pcb[i].tq <= 0
  }

  lemma EnqueueOne(live: seq<int>, x: int)
    ensures RQ.Enqueue(live, [x]) == if x in live then live else live + [x]
  {
    assert [x][..0] == [];
  }

  /** Quantum exhaustion of the RUNNING task `r`: refresh the quanta if
      every READY task is spent, make `r` READY again and push it. */
  method Exhaust(pcb: seq<Pcb>, rq: RQ.Queue, r: int, base: int)
    returns (pcb': seq<Pcb>, rq': RQ.Queue)
    requires |pcb| == NPROC && RQ.Valid(rq) && 0 <= r < NPROC
    requires pcb[r].state == Running
    ensures |pcb'| == NPROC && RQ.Valid(rq')
    ensures pcb'[r] == pcb[r].(state := Ready)
    ensures forall i :: 0 <= i < NPROC && i != r ==>
      pcb'[i] == if AllReadySpent(pcb) && pcb[i].state == Ready then pcb[i].(tq := base) else pcb[i]
    ensures RQ.Live(rq') == RQ.Enqueue(RQ.Live(rq), [r])
  {
    var refreshed;
    pcb', refreshed := RefreshQuanta(pcb, base);
    if pcb'[r].state != Done && pcb'[r].state != Sleep {
      pcb' := pcb'[r := pcb'[r].(state := Ready)];
    }
    if r !in RQ.Live(rq) {
      RQ.PushReadyAbsent(pcb', rq, r);
    }
    EnqueueOne(RQ.Live(rq), r);
    rq' := RQ.Push(pcb', rq, r);
  }

  /** The post-state of a dispatch, as promised by `Dispatch`. */
  ghost predicate Dispatched(s: Sched, s': Sched, granted: int)
    requires WF(s) && WF(s')
  {
    && s'.sl == s.sl && s'.baseTQ == s.baseTQ && s'.alive == s.alive
    && granted == (if s.runningIdx != -1 && s.pcb[s.runningIdx].state == Running
                   then s.runningIdx else -1)
    && (granted == -1 ==> s' == s)
    && (granted != -1 ==>
      var left := if s.pcb[granted].tq - 1 < 0 then 0 else s.pcb[granted].tq - 1;
      && s'.pcb[granted] == s.pcb[granted].(tq := left, state := s'.pcb[granted].state)
      && (left > 0 ==>
            && s'.runningIdx == granted
            && s'.pcb == s.pcb[granted := s.pcb[granted].(tq := left)]
            && s'.rq == s.rq)
      && (left == 0 ==>
            && s'.runningIdx == -1
            && s'.pcb[granted].state == Ready
            && RQ.Live(s'.rq) == RQ.Enqueue(RQ.Live(s.rq), [granted])
            && forall i :: 0 <= i < NPROC && i != granted ==>
                 s'.pcb[i] == if AllReadySpent(s.pcb) && s.pcb[i].state == Ready
                              then s.pcb[i].(tq := s.baseTQ) else s.pcb[i]))
  }

  /** Dispatch keeps the invariant; in a reachable state the clamp at 0
      never fires, so the quantum drops by exactly one. */
  lemma DispatchKeepsInv(s: Sched, s': Sched, granted: int)
    requires Inv(s) && WF(s') && Dispatched(s, s', granted)
    ensures granted != -1 ==> s'.pcb[granted].tq == s.pcb[granted].tq - 1
    ensures Inv(s') && DoneFrozen(s, s')
  {
    if granted != -1 {
      DispatchBounded(s, s', granted);
      DispatchRunning(s, s', granted);
      DispatchQueued(s, s', granted);
      DispatchStates(s, s', granted);
      CountAliveSame(s.pcb, s'.pcb);
    }
  }

  lemma DispatchBounded(s: Sched, s': Sched, granted: int)
    requires Inv(s) && WF(s') && Dispatched(s, s', granted) && granted != -1
    ensures s'.pcb[granted].tq == s.pcb[granted].tq - 1
    ensures Bounded(s')
  {
  }

  lemma DispatchRunning(s: Sched, s': Sched, granted: int)
    requires Inv(s) && WF(s') && Dispatched(s, s', granted) && granted != -1
    ensures RunningUnique(s')
  {
  }

  lemma DispatchQueued(s: Sched, s': Sched, granted: int)
    requires Inv(s) && WF(s') && Dispatched(s, s', granted) && granted != -1
    ensures ReadyQueued(s')
  {
    RQ.EnqueueFacts(RQ.Live(s.rq), [granted]);
  }

  /** Dispatch changes no pid and makes no PCB SLEEP or DONE, nor one of
      those anything else. */
  lemma DispatchStates(s: Sched, s': Sched, granted: int)
    requires Inv(s) && WF(s') && Dispatched(s, s', granted) && granted != -1
    ensures forall i :: 0 <= i < NPROC ==>
      && s'.pcb[i].pid == s.pcb[i].pid
      && (s'.pcb[i].state == Sleep <==> s.pcb[i].state == Sleep)
      && (s'.pcb[i].state == Done <==> s.pcb[i].state == Done)
    ensures DoneFrozen(s, s')
  {
  }

  /** Dispatch: grant the RUNNING task one unit and charge its quantum,
      never below 0. On exhaustion refresh the quanta if every READY task is
      spent, put the task back at the tail of the READY queue, and free the
      CPU. */
  method Dispatch(s: Sched) returns (s': Sched, granted: int)
    requires WF(s)
    ensures WF(s') && Dispatched(s, s', granted)
    ensures forall i :: 0 <= i < NPROC ==> s'.pcb[i].waitTime == s.pcb[i].waitTime
    ensures Inv(s) && granted != -1 ==> s'.pcb[granted].tq == s.pcb[granted].tq - 1
    ensures Inv(s) ==> Inv(s') && DoneFrozen(s, s')
  {
    s', granted := s, -1;
    if s.runningIdx != -1 && s.pcb[s.runningIdx].state == Running {
      var r := s.runningIdx;
      granted := r;
      var pcb := s.pcb;
      var tq := pcb[r].tq - 1;
      if tq < 0 {
        tq := 0;
      }
      pcb := pcb[r := pcb[r].(tq := tq)];
      if tq == 0 {
        assert forall i :: 0 <= i < NPROC && i != r ==> pcb[i] == s.pcb[i];
        assert AllReadySpent(pcb) == AllReadySpent(s.pcb);
        var rq;
        pcb, rq := Exhaust(pcb, s.rq, r, s.baseTQ);
        s' := s.(pcb := pcb, rq := rq, runningIdx := -1);
      } else {
        s' := s.(pcb := pcb);
      }
    }
    if Inv(s) {
      DispatchKeepsInv(s, s', granted);
    }
  }

  /** A task is READY once the sleepers due now have been woken. */
  predicate ReadyAfterExpiry(s: Sched, woken: seq<int>, i: int)
    requires WF(s) && 0 <= i < NPROC
  {
    s.pcb[i].state == Ready || i in woken
  }

  /** The PCB table once the sleepers in `woken` have been woken. */
  function Expired(s: Sched, woken: seq<int>): (pcb: seq<Pcb>)
    requires WF(s)
    ensures |pcb| == NPROC
  {
    seq(NPROC, i requires 0 <= i < NPROC => if i in woken then Wake(s.pcb[i], s.baseTQ) else s.pcb[i])
  }

  /** The tasks queued after a scheduling step, before any exhausted task
      is put back: the whole queue if a task was running, else what follows
      the first READY entry. */
  function Remaining(running: int, live: seq<int>, k: nat): seq<int>
  {
    if running != -1 then live else if k < |live| then live[k + 1..] else []
  }

  /** The second half of an epoch: clear a stale `running_idx`, select a
      task if none runs, and dispatch. `granted` is the task sent permission
      (-1 for none). */
  method Schedule(s: Sched) returns (s': Sched, granted: int)
    requires WF(s)
    ensures WF(s') && s'.baseTQ == s.baseTQ && s'.alive == s.alive && s'.sl == s.sl
    ensures forall i :: 0 <= i < NPROC ==> s'.pcb[i].waitTime == s.pcb[i].waitTime
    ensures granted == -1 || 0 <= granted < NPROC
    ensures Inv(s) ==> Inv(s') && DoneFrozen(s, s')
    ensures Inv(s) ==> s'.runningIdx == -1 || s'.runningIdx == granted
    ensures Inv(s) ==>
      (granted != -1 <==> s.runningIdx != -1 || exists i :: 0 <= i < NPROC && s.pcb[i].state == Ready)
    ensures Inv(s) ==>
      var live := RQ.Live(s.rq);
      var k := RQ.FirstReady(s.pcb, live);
      var queued := Remaining(s.runningIdx, live, k);
      && granted == (if s.runningIdx != -1 then s.runningIdx else if k < |live| then live[k] else -1)
      && RQ.Live(s'.rq) ==
           if granted != -1 && s'.runningIdx == -1 then RQ.Enqueue(queued, [granted]) else queued
  {
    var s3 := ClearStale(s);
    var s4 := Select(s3);
    s', granted := Dispatch(s4);
    if Inv(s) {
      TickProgress(s, s4, s', granted);
      TickGrant(s, s4, s', granted);
    }
  }

  /** One timer epoch: expire sleepers, accrue wait time, then schedule.
      `woken` are the tasks sent their wake-up, `granted` the task sent
      permission (-1 for none). */
  method TimerTick(s: Sched, now: int) returns (s': Sched, woken: seq<int>, granted: int)
    requires WF(s)
    ensures WF(s') && s'.baseTQ == s.baseTQ && s'.alive == s.alive
    ensures woken == SL.DueIds(SL.Entries(s.sl), now)
    ensures SL.Entries(s'.sl) == SL.Pending(SL.Entries(s.sl), now)
    ensures forall i :: 0 <= i < NPROC ==>
      s'.pcb[i].waitTime ==
        s.pcb[i].waitTime + (if ReadyAfterExpiry(s, woken, i) then 1 else 0)
    ensures granted == -1 || 0 <= granted < NPROC
    ensures Inv(s) ==> Inv(s') && DoneFrozen(s, s')
    ensures Inv(s) ==> s'.runningIdx == -1 || s'.runningIdx == granted
    ensures Inv(s) ==>
      (granted != -1 <==>
         s.runningIdx != -1 || exists i :: 0 <= i < NPROC && ReadyAfterExpiry(s, woken, i))
    ensures AllIndices(RQ.Enqueue(RQ.Live(s.rq), woken))
    ensures Inv(s) ==>
      var live := RQ.Enqueue(RQ.Live(s.rq), woken);
      var k := RQ.FirstReady(Expired(s, woken), live);
      var queued := Remaining(s.runningIdx, live, k);
      && granted == (if s.runningIdx != -1 then s.runningIdx else if k < |live| then live[k] else -1)
      && RQ.Live(s'.rq) ==
           if granted != -1 && s'.runningIdx == -1 then RQ.Enqueue(queued, [granted]) else queued
  {
    var s1;
    s1, woken := SleepUpdate(s, now);
    var s2 := AccrueWait(s1);
    s', granted := Schedule(s2);
    assert s1.pcb == Expired(s, woken);
    assert forall i :: 0 <= i < NPROC ==>
      (s2.pcb[i].state == Ready <==> ReadyAfterExpiry(s, woken, i));
    RQ.FirstReadyStates(s2.pcb, Expired(s, woken), RQ.Live(s2.rq));
  }

  /** Under the invariant a scheduling step grants the task already
      running, or else the first READY entry of the queue, which leaves the
      queue together with the entries in front of it; an exhausted task goes
      back to the tail. */
  lemma TickGrant(s: Sched, s4: Sched, s': Sched, granted: int)
    requires Inv(s) && WF(s4) && WF(s') && Inv(s4)
    requires s.runningIdx != -1 ==> s4 == s
    requires s.runningIdx == -1 ==>
      var live := RQ.Live(s.rq);
      var k := RQ.FirstReady(s.pcb, live);
      if k < |live| then
        s4.runningIdx == live[k] && RQ.Live(s4.rq) == live[k + 1..]
      else
        s4.runningIdx == -1 && RQ.Live(s4.rq) == []
    requires Dispatched(s4, s', granted)
    ensures
      var live := RQ.Live(s.rq);
      var k := RQ.FirstReady(s.pcb, live);
      var queued := Remaining(s.runningIdx, live, k);
      && granted == (if s.runningIdx != -1 then s.runningIdx else if k < |live| then live[k] else -1)
      && RQ.Live(s'.rq) ==
           if granted != -1 && s'.runningIdx == -1 then RQ.Enqueue(queued, [granted]) else queued
  {
  }

  /** Under the invariant the CPU is never left idle while a READY task
      exists: a scheduling step grants permission iff a task was already
      running or one is READY. */
  lemma TickProgress(s: Sched, s4: Sched, s': Sched, granted: int)
    requires Inv(s) && WF(s4) && WF(s')
    requires s.runningIdx != -1 ==> s4 == s
    requires s.runningIdx == -1 ==>
      var live := RQ.Live(s.rq);
      var k := RQ.FirstReady(s.pcb, live);
      if k < |live| then
        && s4.runningIdx == live[k]
        && s4.pcb == s.pcb[live[k] := s.pcb[live[k]].(state := Running, tq := s.baseTQ)]
      else
        s4.runningIdx == -1
    requires Dispatched(s4, s', granted)
    ensures granted != -1 <==>
      s.runningIdx != -1 || exists i :: 0 <= i < NPROC && s.pcb[i].state == Ready
  {
    if s.runningIdx == -1 {
      var live := RQ.Live(s.rq);
      var k := RQ.FirstReady(s.pcb, live);
      if k == |live| {
        forall i | 0 <= i < NPROC
          ensures s.pcb[i].state != Ready
        {
          if i in live {
            var j :| 0 <= j < |live| && live[j] == i;
            assert j < k;
          }
        }
      } else {
        assert s.pcb[live[k]].state == Ready;
      }
    }
  }
}
