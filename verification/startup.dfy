/** Start-up of the parent: the choice of the base quantum from the command
    line and the initial PCB table with every child READY and queued. */
module Startup {
  import opened Types
  import opened Controller
  import RQ = ReadyQueue
  import SL = SleepList

  /** The base quantum: the parsed first argument when there is one and it
      is positive, otherwise the default of 3. `arg` is `None` when no
      argument was given and `Some(atoi(argv[1]))` otherwise. */
  function BaseQuantum(arg: Option<int>): (tq: int)
    ensures tq >= 1
    ensures arg.Some? && arg.value > 0 ==> tq == arg.value
    ensures !(arg.Some? && arg.value > 0) ==> tq == DEFAULT_TQ
  {
    if arg.Some? && arg.value > 0 then arg.value else DEFAULT_TQ
  }

  /** The zero-initialised globals before any child is forked. */
  function Blank(base: int): (s: Sched)
    ensures WF(s) && s.runningIdx == -1 && s.alive == NPROC && s.baseTQ == base
    ensures RQ.Live(s.rq) == [] && SL.Entries(s.sl) == []
  {
    Sched(seq(NPROC, _ => Pcb(0, 0, Ready, 0)), -1, base, NPROC, RQ.Empty(), SL.Empty())
  }

  /** Start-up: choose the base quantum, then record each forked child
      (`pids[i]` is what `fork` returned for child `i`) as READY with a full
      quantum and no waiting, pushing it on the READY queue in index order. */
  method Start(arg: Option<int>, pids: seq<int>) returns (s: Sched)
    requires |pids| == NPROC
    ensures WF(s) && s.baseTQ == BaseQuantum(arg)
    ensures forall i :: 0 <= i < NPROC ==> s.pcb[i] == Pcb(pids[i], s.baseTQ, Ready, 0)
    ensures RQ.Live(s.rq) == seq(NPROC, i => i)
    ensures SL.Entries(s.sl) == [] && s.runningIdx == -1 && s.alive == NPROC
    ensures Distinct(pids) ==> Inv(s)
  {
    var base := BaseQuantum(arg);
    s := Blank(base);
    for i := 0 to NPROC
      invariant WF(s) && s.baseTQ == base && s.runningIdx == -1 && s.alive == NPROC
      invariant SL.Entries(s.sl) == []
      invariant forall j :: 0 <= j < i ==> s.pcb[j] == Pcb(pids[j], base, Ready, 0)
      invariant forall j :: i <= j < NPROC ==> s.pcb[j] == Pcb(0, 0, Ready, 0)
      invariant RQ.Live(s.rq) == seq(i, j => j)
    {
      var pcb := s.pcb[i := Pcb(pids[i], base, Ready, 0)];
      RQ.PushReadyAbsent(pcb, s.rq, i);
      assert seq(i, j => j) + [i] == seq(i + 1, j => j);
      s := s.(pcb := pcb, rq := RQ.Push(pcb, s.rq, i));
    }
    if Distinct(pids) {
      StartInv(s, pids);
    }
  }

  lemma StartInv(s: Sched, pids: seq<int>)
    requires WF(s) && |pids| == NPROC && Distinct(pids) && s.baseTQ >= 1
    requires forall i :: 0 <= i < NPROC ==> s.pcb[i] == Pcb(pids[i], s.baseTQ, Ready, 0)
    requires RQ.Live(s.rq) == seq(NPROC, i => i)
    requires SL.Entries(s.sl) == [] && s.runningIdx == -1 && s.alive == NPROC
    ensures Inv(s)
  {
    forall i | 0 <= i < NPROC
      ensures i in RQ.Live(s.rq)
    {
      assert RQ.Live(s.rq)[i] == i;
    }
    NoneDone(s.pcb);
  }

  lemma {:induction false} NoneDone(pcb: seq<Pcb>)
    requires forall i :: 0 <= i < |pcb| ==> pcb[i].state != Done
    ensures CountAlive(pcb) == |pcb|
  {
    if pcb != [] {
      NoneDone(pcb[..|pcb| - 1]);
    }
  }
}
