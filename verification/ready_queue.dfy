/** The READY queue of the controller: a fixed-capacity circular buffer of
    PCB indices that only admits READY, not-yet-queued tasks, and whose pop
    silently discards entries that are no longer READY. */
module ReadyQueue {
  import opened Types

  /** `buf` has NPROC slots; the live entries are the `count` slots starting
      at `front`, wrapping around; `rear` is the next free slot. */
  datatype Queue = Queue(buf: seq<int>, front: int, rear: int, count: int)

  /** Representation invariant of the circular buffer. */
  predicate Shape(q: Queue) {
    && |q.buf| == NPROC
    && 0 <= q.front < NPROC
    && 0 <= q.count <= NPROC
    && q.rear == (q.front + q.count) % NPROC
  }

  /** The live entries, head first. */
  function Live(q: Queue): (r: seq<int>)
    requires |q.buf| == NPROC && 0 <= q.count
    ensures |r| == q.count
  {
    seq(q.count, i requires 0 <= i < q.count => q.buf[(q.front + i) % NPROC])
  }

  /** A well-formed queue: the buffer shape holds, and the live entries are
      distinct PCB indices (deduplication is the queue's own guarantee). */
  predicate Valid(q: Queue) {
    Shape(q) && AllIndices(Live(q)) && Distinct(Live(q))
  }

  /** The zero-initialised globals `rqueue`, `rq_front`, `rq_rear`, `rq_count`. */
  function Empty(): (q: Queue)
    ensures Valid(q) && Live(q) == []
  {
    Queue(seq(NPROC, _ => 0), 0, 0, 0)
  }

  /** The duplicate scan of the push: is `idx` among the live entries from
      position `from` on? */
  function Contains(q: Queue, idx: int, from: nat): (b: bool)
    requires Shape(q) && from <= q.count
    ensures b <==> idx in Live(q)[from..]
    decreases q.count - from
  {
    if from == q.count then false
    else if q.buf[(q.front + from) % NPROC] == idx then
      assert Live(q)[from..][0] == idx;
      true
    else
      assert Live(q)[from..] == [Live(q)[from]] + Live(q)[from + 1..];
      Contains(q, idx, from + 1)
  }

  /** The three conditions under which the push appends. */
  predicate Admits(pcb: seq<Pcb>, q: Queue, idx: int)
    requires Shape(q) && |pcb| == NPROC && 0 <= idx < NPROC
  {
    q.count < NPROC && pcb[idx].state == Ready && idx !in Live(q)
  }

  /** Slot arithmetic of the circular buffer: an offset below 2 * NPROC
      wraps at most once. */
  lemma Wrap(x: int)
    requires 0 <= x < 2 * NPROC
    ensures x % NPROC == if x < NPROC then x else x - NPROC
  {
  }

  lemma AppendAtRear(q: Queue, idx: int)
    requires Shape(q) && q.count < NPROC
    ensures var r := Queue(q.buf[q.rear := idx], q.front, (q.rear + 1) % NPROC, q.count + 1);
      Shape(r) && Live(r) == Live(q) + [idx]
  {
    var r := Queue(q.buf[q.rear := idx], q.front, (q.rear + 1) % NPROC, q.count + 1);
    Wrap(q.front + q.count);
    forall i | 0 <= i < q.count
      ensures Live(r)[i] == Live(q)[i]
    {
      Wrap(q.front + i);
    }
    assert Live(r) == Live(q) + [idx];
  }

  /** Append `idx` at the tail exactly when the queue has room, the task is
      READY and it is not already queued; otherwise leave the queue alone. */
  function Push(pcb: seq<Pcb>, q: Queue, idx: int): (r: Queue)
    requires Valid(q) && |pcb| == NPROC && 0 <= idx < NPROC
    ensures Valid(r) && r.count <= NPROC
    ensures Admits(pcb, q, idx) ==> Live(r) == Live(q) + [idx]
    ensures !Admits(pcb, q, idx) ==> r == q
  {
    if q.count < NPROC && pcb[idx].state == Ready && !Contains(q, idx, 0) then
      AppendAtRear(q, idx);
      var r := Queue(q.buf[q.rear := idx], q.front, (q.rear + 1) % NPROC, q.count + 1);
      assert idx !in Live(q);
      assert Distinct(Live(r));
      r
    else
      q
  }

  /** Capacity never blocks a push: a READY task that is not queued is always
      appended. */
  lemma PushReadyAbsent(pcb: seq<Pcb>, q: Queue, idx: int)
    requires Valid(q) && |pcb| == NPROC && 0 <= idx < NPROC
    requires pcb[idx].state == Ready && idx !in Live(q)
    ensures Live(Push(pcb, q, idx)) == Live(q) + [idx]
  {
    RoomForAbsent(Live(q), idx);
  }

  /** Pushing twice is pushing once. */
  lemma PushIdempotent(pcb: seq<Pcb>, q: Queue, idx: int)
    requires Valid(q) && |pcb| == NPROC && 0 <= idx < NPROC
    ensures Push(pcb, Push(pcb, q, idx), idx) == Push(pcb, q, idx)
  {
    var r := Push(pcb, q, idx);
    if Admits(pcb, q, idx) {
      assert Live(r)[|Live(q)|] == idx;
    }
  }

  /** The live entries after pushing each of `ids` in turn, when every one
      of them is READY: each is appended unless already present. */
  function Enqueue(live: seq<int>, ids: seq<int>): seq<int>
  {
    if ids == [] then live
    else
      var prev := Enqueue(live, ids[..|ids| - 1]);
      var x := ids[|ids| - 1];
      if x in prev then prev else prev + [x]
  }

  lemma EnqueueSnoc(live: seq<int>, ids: seq<int>, x: int)
    ensures Enqueue(live, ids + [x]) ==
      if x in Enqueue(live, ids) then Enqueue(live, ids) else Enqueue(live, ids) + [x]
  {
    assert (ids + [x])[..|ids|] == ids;
  }

  /** Enqueueing keeps the old entries in front, in order, adds exactly the
      new ids, and introduces no duplicate. */
  lemma {:induction false} EnqueueFacts(live: seq<int>, ids: seq<int>)
    ensures |Enqueue(live, ids)| >= |live| && Enqueue(live, ids)[..|live|] == live
    ensures forall x :: x in Enqueue(live, ids) <==> x in live || x in ids
    ensures Distinct(live) ==> Distinct(Enqueue(live, ids))
  {
    if ids != [] {
      var init := ids[..|ids| - 1];
      assert ids == init + [ids[|ids| - 1]];
      EnqueueFacts(live, init);
    }
  }

  /** Position of the first READY live entry, or `|live|` if there is none:
      the reference for what the pop must return. */
  function FirstReady(pcb: seq<Pcb>, live: seq<int>): (k: nat)
    requires |pcb| == NPROC && AllIndices(live)
    ensures k <= |live|
    ensures forall j :: 0 <= j < k ==> pcb[live[j]].state != Ready
    ensures k < |live| ==> pcb[live[k]].state == Ready
  {
    if live == [] then 0
    else if pcb[live[0]].state == Ready then 0
    else 1 + FirstReady(pcb, live[1..])
  }

  /** The first READY entry depends on the PCB states only. */
  lemma {:induction false} FirstReadyStates(p1: seq<Pcb>, p2: seq<Pcb>, live: seq<int>)
    requires |p1| == NPROC && |p2| == NPROC && AllIndices(live)
    requires forall i :: 0 <= i < NPROC ==> p1[i].state == p2[i].state
    ensures FirstReady(p1, live) == FirstReady(p2, live)
  {
    if live != [] {
      FirstReadyStates(p1, p2, live[1..]);
    }
  }

  /** Remove the head slot, overwriting it with -1 as the source does. */
  function DropHead(q: Queue): (r: Queue)
    requires Valid(q) && q.count > 0
    ensures Valid(r) && Live(r) == Live(q)[1..]
  {
    var r := Queue(q.buf[q.front := -1], (q.front + 1) % NPROC, q.rear, q.count - 1);
    DropHeadLive(q, r);
    r
  }

  lemma DropHeadLive(q: Queue, r: Queue)
    requires Valid(q) && q.count > 0
    requires r == Queue(q.buf[q.front := -1], (q.front + 1) % NPROC, q.rear, q.count - 1)
    ensures Valid(r) && Live(r) == Live(q)[1..]
  {
    Wrap(q.front + 1);
    forall i | 0 <= i < r.count
      ensures Live(r)[i] == Live(q)[i + 1]
    {
      Wrap(r.front + i);
      Wrap(q.front + i + 1);
    }
  }

  /** The head slot holds the first live entry. */
  function Head(q: Queue): (idx: int)
    requires Shape(q) && q.count > 0
    ensures idx == Live(q)[0]
  {
    q.buf[q.front]
  }

  /** Inspecting entry `j` while no earlier entry was READY: if it is READY
      it is the first, otherwise the first READY lies further on. */
  lemma FirstReadyAt(pcb: seq<Pcb>, live: seq<int>, j: int)
    requires |pcb| == NPROC && AllIndices(live)
    requires 0 <= j < |live| && FirstReady(pcb, live) >= j
    ensures pcb[live[j]].state == Ready ==> FirstReady(pcb, live) == j
    ensures pcb[live[j]].state != Ready ==> FirstReady(pcb, live) > j
  {
  }

  /** Pop the first READY entry. Every entry in front of it is discarded for
      good; if none is READY the result is -1 and the queue is emptied. */
  method Pop(pcb: seq<Pcb>, q: Queue) returns (r: int, q': Queue)
    requires Valid(q) && |pcb| == NPROC
    ensures Valid(q')
    ensures r == -1 || (0 <= r < NPROC && pcb[r].state == Ready)
    ensures var live, k := Live(q), FirstReady(pcb, Live(q));
      if k < |live| then r == live[k] && Live(q') == live[k + 1..]
      else r == -1 && Live(q') == []
  {
    ghost var live := Live(q);
    q' := q;
    var search := q.count;
    while search > 0
      invariant Valid(q')
      invariant 0 <= search == q'.count <= |live|
      invariant Live(q') == live[|live| - search..]
      invariant FirstReady(pcb, live) >= |live| - search
    {
      ghost var j := |live| - search;
      var idx := Head(q');
      assert idx == live[j];
      q' := DropHead(q');
      assert Live(q') == live[j + 1..];
      search := search - 1;
      FirstReadyAt(pcb, live, j);
      if pcb[idx].state == Ready {
        r := idx;
        return;
      }
    }
    r := -1;
  }
}
