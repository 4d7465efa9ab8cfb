/** The SLEEP list of the controller: two parallel fixed-size arrays (PCB
    index, wake time) whose first `scount` slots are the blocked tasks in
    insertion order. */
module SleepList {
  import opened Types

  datatype Sleepers = Sleepers(idx: seq<int>, wake: seq<int>, scount: int)

  /** One live slot of the parallel arrays. */
  datatype Sleeper = Sleeper(idx: int, wake: int)

  predicate Shape(sl: Sleepers) {
    |sl.idx| == NPROC && |sl.wake| == NPROC && 0 <= sl.scount <= NPROC
  }

  /** The live slots, in order. */
  function Entries(sl: Sleepers): (r: seq<Sleeper>)
    requires Shape(sl)
    ensures |r| == sl.scount
  {
    seq(sl.scount, j requires 0 <= j < sl.scount => Sleeper(sl.idx[j], sl.wake[j]))
  }

  /** The PCB indices of a run of entries. */
  function Ids(es: seq<Sleeper>): (r: seq<int>)
    ensures |r| == |es|
    ensures forall j :: 0 <= j < |es| ==> r[j] == es[j].idx
  {
    if es == [] then [] else Ids(es[..|es| - 1]) + [es[|es| - 1].idx]
  }

  /** A well-formed list names valid PCB indices only. */
  predicate Valid(sl: Sleepers) {
    Shape(sl) && AllIndices(Ids(Entries(sl)))
  }

  /** The zero-initialised globals `sleep_idx`, `sleep_wake`, `scount`. */
  function Empty(): (sl: Sleepers)
    ensures Valid(sl) && Entries(sl) == []
  {
    Sleepers(seq(NPROC, _ => 0), seq(NPROC, _ => 0), 0)
  }

  /** Record `idx` to wake at `wake` in the next free slot. */
  function Insert(sl: Sleepers, idx: int, wake: int): (r: Sleepers)
    requires Valid(sl) && sl.scount < NPROC && 0 <= idx < NPROC
    ensures Valid(r)
    ensures Entries(r) == Entries(sl) + [Sleeper(idx, wake)]
  {
    var r := Sleepers(sl.idx[sl.scount := idx], sl.wake[sl.scount := wake], sl.scount + 1);
    assert Entries(r) == Entries(sl) + [Sleeper(idx, wake)];
    r
  }

  /** The entries still waiting at time `now`, in their original order. */
  function Pending(es: seq<Sleeper>, now: int): seq<Sleeper>
  {
    if es == [] then []
    else
      var last := es[|es| - 1];
      Pending(es[..|es| - 1], now) + (if last.wake <= now then [] else [last])
  }

  /** The PCB indices of the entries due at time `now`, in list order. */
  function DueIds(es: seq<Sleeper>, now: int): seq<int>
  {
    if es == [] then []
    else
      var last := es[|es| - 1];
      DueIds(es[..|es| - 1], now) + (if last.wake <= now then [last.idx] else [])
  }

  /** Extending a prefix of the list by one entry: a due entry joins the
      woken ids, any other joins the kept entries. */
  lemma PrefixStep(es: seq<Sleeper>, k: int, now: int)
    requires 0 <= k < |es|
    ensures es[k].wake <= now ==>
      Pending(es[..k + 1], now) == Pending(es[..k], now) &&
      DueIds(es[..k + 1], now) == DueIds(es[..k], now) + [es[k].idx]
    ensures es[k].wake > now ==>
      Pending(es[..k + 1], now) == Pending(es[..k], now) + [es[k]] &&
      DueIds(es[..k + 1], now) == DueIds(es[..k], now)
  {
    assert es[..k + 1][..k] == es[..k];
  }

  /** Expiry splits the list: every kept entry is still in the future, an
      index is due exactly when some entry for it has arrived, and kept plus
      due account for every entry. */
  lemma {:induction false} ExpirySplit(es: seq<Sleeper>, now: int)
    ensures forall e :: e in Pending(es, now) ==> e in es && e.wake > now
    ensures forall x :: x in DueIds(es, now) <==> exists e :: e in es && e.idx == x && e.wake <= now
    ensures |Pending(es, now)| + |DueIds(es, now)| == |es|
  {
    if es != [] {
      var init, last := es[..|es| - 1], es[|es| - 1];
      assert es == init + [last];
      ExpirySplit(init, now);
      forall x | x in DueIds(es, now)
        ensures exists e :: e in es && e.idx == x && e.wake <= now
      {
        if x !in DueIds(init, now) {
          assert last in es;
        }
      }
    }
  }

  lemma IdsAppend(a: seq<Sleeper>, b: seq<Sleeper>)
    ensures Ids(a + b) == Ids(a) + Ids(b)
  {
    assert forall j :: 0 <= j < |a + b| ==> Ids(a + b)[j] == (a + b)[j].idx;
  }

  /** When no task sleeps twice, expiry partitions the sleeping indices:
      each is either woken or kept, never both, and the kept ones are still
      listed once each. */
  lemma {:induction false} Partition(es: seq<Sleeper>, now: int)
    requires Distinct(Ids(es))
    ensures Distinct(Ids(Pending(es, now)))
    ensures forall x :: x in Ids(es) <==> x in DueIds(es, now) || x in Ids(Pending(es, now))
    ensures forall x :: !(x in DueIds(es, now) && x in Ids(Pending(es, now)))
  {
    if es != [] {
      var init, last := es[..|es| - 1], es[|es| - 1];
      assert es == init + [last];
      IdsAppend(init, [last]);
      assert Ids(es) == Ids(init) + [last.idx];
      assert Distinct(Ids(init));
      assert last.idx !in Ids(init);
      Partition(init, now);
      var tail := if last.wake <= now then [] else [last];
      IdsAppend(Pending(init, now), tail);
    }
  }

  /** With each task listed once, a listed task is woken exactly when its
      own wake time has arrived. */
  lemma WokenIffArrived(es: seq<Sleeper>, j: int, now: int)
    requires Distinct(Ids(es)) && 0 <= j < |es|
    ensures es[j].idx in DueIds(es, now) <==> es[j].wake <= now
  {
    ExpirySplit(es, now);
    if es[j].idx in DueIds(es, now) {
      var e :| e in es && e.idx == es[j].idx && e.wake <= now;
      var m :| 0 <= m < |es| && es[m] == e;
      assert Ids(es)[m] == Ids(es)[j];
    }
  }

  /** Delete slot `i` by shifting the later slots down one place. */
  method RemoveAt(sl: Sleepers, i: int) returns (r: Sleepers)
    requires Valid(sl) && 0 <= i < sl.scount
    ensures Valid(r) && r.scount == sl.scount - 1
    ensures Entries(r) == Entries(sl)[..i] + Entries(sl)[i + 1..]
  {
    var ids, wakes := sl.idx, sl.wake;
    var j := i;
    while j < sl.scount - 1
      invariant i <= j <= sl.scount - 1
      invariant |ids| == NPROC && |wakes| == NPROC
      invariant forall m :: 0 <= m < i ==> ids[m] == sl.idx[m] && wakes[m] == sl.wake[m]
      invariant forall m :: i <= m < j ==> ids[m] == sl.idx[m + 1] && wakes[m] == sl.wake[m + 1]
      invariant forall m :: j < m < NPROC ==> ids[m] == sl.idx[m] && wakes[m] == sl.wake[m]
    {
      ids := ids[j := ids[j + 1]];
      wakes := wakes[j := wakes[j + 1]];
      j := j + 1;
    }
    r := Sleepers(ids, wakes, sl.scount - 1);
    Shifted(sl, r, i);
  }

  /** Arrays that agree with `sl` below `i` and hold the next slot of `sl`
      from `i` on are `sl` with entry `i` deleted. */
  lemma Shifted(sl: Sleepers, r: Sleepers, i: int)
    requires Valid(sl) && 0 <= i < sl.scount && Shape(r) && r.scount == sl.scount - 1
    requires forall m :: 0 <= m < i ==> r.idx[m] == sl.idx[m] && r.wake[m] == sl.wake[m]
    requires forall m :: i <= m < r.scount ==> r.idx[m] == sl.idx[m + 1] && r.wake[m] == sl.wake[m + 1]
    ensures Valid(r)
    ensures Entries(r) == Entries(sl)[..i] + Entries(sl)[i + 1..]
  {
    assert forall m :: 0 <= m < sl.scount ==> Ids(Entries(sl))[m] == sl.idx[m];
    assert Entries(r) == Entries(sl)[..i] + Entries(sl)[i + 1..];
  }
  /** The entry belongs to a PCB carrying `pid`. */
  predicate Owned(e: Sleeper, pcb: seq<Pcb>, pid: int) {
    0 <= e.idx < |pcb| && pcb[e.idx].pid == pid
  }

  /** The entries that do not belong to `pid`, in their original order. */
  function Survivors(es: seq<Sleeper>, pcb: seq<Pcb>, pid: int): seq<Sleeper>
  {
    if es == [] then []
    else
      var last := es[|es| - 1];
      Survivors(es[..|es| - 1], pcb, pid) + (if Owned(last, pcb, pid) then [] else [last])
  }

  lemma SurvivorsStep(es: seq<Sleeper>, k: int, pcb: seq<Pcb>, pid: int)
    requires 0 <= k < |es|
    ensures Survivors(es[..k + 1], pcb, pid) ==
      Survivors(es[..k], pcb, pid) + (if Owned(es[k], pcb, pid) then [] else [es[k]])
  {
    assert es[..k + 1][..k] == es[..k];
  }

  /** Purging keeps exactly the sleeping indices that do not carry `pid`,
      and keeps them listed once each. */
  lemma SurvivorsFacts(es: seq<Sleeper>, pcb: seq<Pcb>, pid: int)
    requires AllIndices(Ids(es)) && |pcb| == NPROC
    ensures AllIndices(Ids(Survivors(es, pcb, pid)))
    ensures forall x :: x in Ids(Survivors(es, pcb, pid)) <==>
      x in Ids(es) && pcb[x].pid != pid
    ensures Distinct(Ids(es)) ==> Distinct(Ids(Survivors(es, pcb, pid)))
  {
    SurvivorsMembers(es, pcb, pid);
    var r := Ids(Survivors(es, pcb, pid));
    assert forall k :: 0 <= k < |r| ==> r[k] in r;
    if Distinct(Ids(es)) {
      SurvivorsDistinct(es, pcb, pid);
    }
  }

  lemma {:induction false} SurvivorsMembers(es: seq<Sleeper>, pcb: seq<Pcb>, pid: int)
    requires AllIndices(Ids(es)) && |pcb| == NPROC
    ensures forall x :: x in Ids(Survivors(es, pcb, pid)) <==>
      x in Ids(es) && pcb[x].pid != pid
  {
    if es != [] {
      var init, last := es[..|es| - 1], es[|es| - 1];
      assert Ids(es) == Ids(init) + [last.idx];
      assert AllIndices(Ids(init));
      SurvivorsMembers(init, pcb, pid);
      var tail := if Owned(last, pcb, pid) then [] else [last];
      IdsAppend(Survivors(init, pcb, pid), tail);
    }
  }

  lemma {:induction false} SurvivorsDistinct(es: seq<Sleeper>, pcb: seq<Pcb>, pid: int)
    requires AllIndices(Ids(es)) && |pcb| == NPROC && Distinct(Ids(es))
    ensures Distinct(Ids(Survivors(es, pcb, pid)))
  {
    if es != [] {
      var init, last := es[..|es| - 1], es[|es| - 1];
      assert Ids(es) == Ids(init) + [last.idx];
      assert AllIndices(Ids(init)) && Distinct(Ids(init)) && last.idx !in Ids(init);
      SurvivorsDistinct(init, pcb, pid);
      SurvivorsMembers(init, pcb, pid);
      var tail := if Owned(last, pcb, pid) then [] else [last];
      IdsAppend(Survivors(init, pcb, pid), tail);
    }
  }

  /** Progress of the purge after the first `k` original entries; slot `i`
      is the next one to inspect. */
  ghost predicate PurgeProgress(sl0: Sleepers, pcb: seq<Pcb>, pid: int, k: int, i: int, sl: Sleepers)
    requires Shape(sl0)
  {
    var es := Entries(sl0);
    && 0 <= k <= |es| && Valid(sl)
    && Entries(sl) == Survivors(es[..k], pcb, pid) + es[k..]
    && i == |Survivors(es[..k], pcb, pid)|
  }

  /** Remove every entry of a task carrying `pid`, front to back, by the
      same shifting deletion the expiry uses. */
  method Purge(sl: Sleepers, pcb: seq<Pcb>, pid: int) returns (r: Sleepers)
    requires Valid(sl) && |pcb| == NPROC
    ensures Valid(r)
    ensures Entries(r) == Survivors(Entries(sl), pcb, pid)
  {
    ghost var es := Entries(sl);
    ghost var k := 0;
    r := sl;
    var i := 0;
    assert es[..0] == [];
    while i < r.scount
      invariant PurgeProgress(sl, pcb, pid, k, i, r)
      decreases r.scount - i
    {
      i, r := PurgeStep(sl, pcb, pid, k, i, r);
      k := k + 1;
    }
    assert es[..k] == es;
  }

  method PurgeStep(sl0: Sleepers, pcb: seq<Pcb>, pid: int, ghost k: int, i: int, sl: Sleepers)
    returns (i': int, sl': Sleepers)
    requires Shape(sl0) && |pcb| == NPROC
    requires PurgeProgress(sl0, pcb, pid, k, i, sl) && i < sl.scount
    ensures PurgeProgress(sl0, pcb, pid, k + 1, i', sl')
    ensures 0 <= sl'.scount - i' < sl.scount - i
  {
    ghost var es := Entries(sl0);
    assert Entries(sl)[i] == es[k];
    assert Ids(Entries(sl))[i] == sl.idx[i];
    if pcb[sl.idx[i]].pid == pid {
      sl' := RemoveAt(sl, i);
      i' := i;
      PurgeDropped(sl0, pcb, pid, k, i, sl, sl');
    } else {
      i', sl' := i + 1, sl;
      PurgeKept(sl0, pcb, pid, k, i, sl);
    }
  }

  /** Dropping the entry at slot `i`, which is original entry `k` of `pid`. */
  lemma PurgeDropped(sl0: Sleepers, pcb: seq<Pcb>, pid: int, k: int, i: int, sl: Sleepers, sl': Sleepers)
    requires Shape(sl0) && PurgeProgress(sl0, pcb, pid, k, i, sl) && i < sl.scount
    requires Owned(Entries(sl0)[k], pcb, pid)
    requires Valid(sl') && Entries(sl') == Entries(sl)[..i] + Entries(sl)[i + 1..]
    ensures PurgeProgress(sl0, pcb, pid, k + 1, i, sl')
  {
    var es := Entries(sl0);
    var kept := Survivors(es[..k], pcb, pid);
    SurvivorsStep(es, k, pcb, pid);
    assert Survivors(es[..k + 1], pcb, pid) == kept;
    SplitAt(kept, es, k);
    assert Entries(sl) == kept + es[k..] && i == |kept|;
    assert Entries(sl') == kept + es[k + 1..];
  }

  /** Keeping the entry at slot `i`, which is original entry `k`, not of `pid`. */
  lemma PurgeKept(sl0: Sleepers, pcb: seq<Pcb>, pid: int, k: int, i: int, sl: Sleepers)
    requires Shape(sl0) && PurgeProgress(sl0, pcb, pid, k, i, sl) && i < sl.scount
    requires !Owned(Entries(sl0)[k], pcb, pid)
    ensures PurgeProgress(sl0, pcb, pid, k + 1, i + 1, sl)
  {
    var es := Entries(sl0);
    SurvivorsStep(es, k, pcb, pid);
    SplitAt(Survivors(es[..k], pcb, pid), es, k);
  }

  /** Entry `k` of `es` sits right after `kept` in `kept + es[k..]`. */
  lemma SplitAt(kept: seq<Sleeper>, es: seq<Sleeper>, k: int)
    requires 0 <= k < |es|
    ensures (kept + es[k..])[..|kept|] + (kept + es[k..])[|kept| + 1..] == kept + es[k + 1..]
    ensures kept + es[k..] == (kept + [es[k]]) + es[k + 1..]
  {
    assert es[k..][1..] == es[k + 1..];
    assert (kept + es[k..])[..|kept|] == kept;
  }
}
