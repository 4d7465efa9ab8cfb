/** Shared vocabulary of the round-robin scheduler: the process-control block,
    the task states, and a few facts about sequences of PCB indices. */
module Types {

  /** Number of child processes (and size of every fixed array). */
  const NPROC: int := 10

  /** Default time quantum when no positive argument is given. */
  const DEFAULT_TQ: int := 3

  datatype State = Ready | Running | Sleep | Done

  /** One process-control block: the child's pid, its remaining quantum,
      its state and the number of epochs it has spent READY. */
  datatype Pcb = Pcb(pid: int, tq: int, state: State, waitTime: int)

  datatype Option<T> = None | Some(value: T)

  predicate Distinct(s: seq<int>) {
    forall i, j :: 0 <= i < j < |s| ==> s[i] != s[j]
  }

  /** Every element of `s` is a valid PCB index. */
  predicate AllIndices(s: seq<int>) {
    forall k :: 0 <= k < |s| ==> 0 <= s[k] < NPROC
  }

  /** `s` with every occurrence of `v` dropped, order kept. */
  function Without(s: seq<int>, v: int): (r: seq<int>)
    ensures forall k :: 0 <= k < |r| ==> r[k] != v && r[k] in s
    ensures v !in s ==> r == s
    ensures Distinct(s) ==> Distinct(r) && |r| + 1 >= |s|
  {
    if s == [] then []
    else
      var rest := Without(s[1..], v);
      assert Distinct(s) ==> Distinct(s[1..]);
      assert forall k :: 0 <= k < |rest| ==> rest[k] in s;
      if s[0] == v then
        assert Distinct(s) ==> v !in s[1..];
        rest
      else
        assert Distinct(s) ==> s[0] !in rest;
        [s[0]] + rest
  }

  /** Pigeonhole: a duplicate-free sequence of values below `n` has at most
      `n` elements. */
  lemma {:induction false} DistinctBound(s: seq<int>, n: nat)
    requires Distinct(s)
    requires forall k :: 0 <= k < |s| ==> 0 <= s[k] < n
    ensures |s| <= n
    decreases n
  {
    if n > 0 {
      var r := Without(s, n - 1);
      forall k | 0 <= k < |r|
        ensures 0 <= r[k] < n - 1
      {
        assert r[k] in s;
      }
      DistinctBound(r, n - 1);
    }
  }

  /** A duplicate-free sequence of PCB indices that lacks `x` has room for it:
      this is why a READY queue that deduplicates never refuses a push for
      lack of capacity. */
  lemma RoomForAbsent(s: seq<int>, x: int)
    requires Distinct(s) && AllIndices(s)
    requires 0 <= x < NPROC && x !in s
    ensures |s| < NPROC
  {
    var t := s + [x];
    assert Distinct(t);
    DistinctBound(t, NPROC);
  }
}
