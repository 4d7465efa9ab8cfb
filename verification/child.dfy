/** The child process `child_main`: a private CPU burst counter driven by
    SIGUSR1. Each signal while waiting for permission runs one unit of work;
    when the burst runs out the child either exits or asks for I/O and
    blocks, and the next signal (the wake-up) restores the initial burst. */
module Child {

  /** Largest initial burst. */
  const MAX_BURST: int := 10

  /** Where the child's main loop is suspended. */
  datatype Phase = AwaitingPermission | BlockedOnIo | Exited

  datatype Proc = Proc(initBurst: int, burst: int, phase: Phase)

  /** What the child sends the parent after handling one signal. */
  datatype Emit = Nothing | IoRequestSent | ExitSent

  /** Invariant of a running child: the burst stays within 0..initBurst,
      it is positive while waiting for permission and 0 once the child has
      blocked or exited. */
  predicate Valid(c: Proc) {
    && 1 <= c.initBurst <= MAX_BURST
    && 0 <= c.burst <= c.initBurst
    && (c.phase == AwaitingPermission <==> c.burst >= 1)
  }

  /** Start of the child: the initial burst drawn from a `rand()` value. */
  function Spawn(roll: nat): (c: Proc)
    ensures Valid(c) && c.phase == AwaitingPermission && c.burst == c.initBurst
  {
    var b := roll % MAX_BURST + 1;
    Proc(b, b, AwaitingPermission)
  }

  /** One SIGUSR1. `coin` is the `rand()` value drawn when the burst runs
      out: even means exit, odd means request I/O. */
  function OnSignal(c: Proc, coin: nat): (r: (Proc, Emit))
    ensures r.0.initBurst == c.initBurst
    ensures Valid(c) ==> Valid(r.0)
    ensures c.phase == AwaitingPermission && c.burst <= 0 ==> r == (c, Nothing)
    ensures c.phase == AwaitingPermission && c.burst > 0 ==> r.0.burst == c.burst - 1
    ensures r.1 != Nothing <==> c.phase == AwaitingPermission && c.burst == 1
    ensures r.1 == ExitSent <==> c.phase == AwaitingPermission && c.burst == 1 && coin % 2 == 0
    ensures r.1 == ExitSent ==> r.0.phase == Exited
    ensures r.1 == IoRequestSent ==> r.0.phase == BlockedOnIo
    ensures c.phase == BlockedOnIo ==>
      r.1 == Nothing && r.0.phase == AwaitingPermission && r.0.burst == c.initBurst
    ensures c.phase == Exited ==> r == (c, Nothing)
  {
    match c.phase
    case Exited => (c, Nothing)
    case BlockedOnIo => (c.(burst := c.initBurst, phase := AwaitingPermission), Nothing)
    case AwaitingPermission =>
      if c.burst > 0 then
        var b := c.burst - 1;
        if b == 0 then
          if coin % 2 == 0 then (c.(burst := 0, phase := Exited), ExitSent)
          else (c.(burst := 0, phase := BlockedOnIo), IoRequestSent)
        else (c.(burst := b), Nothing)
      else (c, Nothing)
  }

  /** Deliver one signal per coin, in order; the second component lists what
      the child sent after each. */
  function Run(c: Proc, coins: seq<nat>): (Proc, seq<Emit>)
    decreases |coins|
  {
    if coins == [] then (c, [])
    else
      var step := OnSignal(c, coins[0]);
      var rest := Run(step.0, coins[1..]);
      (rest.0, [step.1] + rest.1)
  }

  /** A burst of `b` units takes exactly `b` permissions: the first `b - 1`
      send nothing, the last sends the exit or I/O notification (exit when
      its coin is even), and the child ends blocked or exited with burst 0. */
  lemma {:induction false} BurstTakesItsLength(c: Proc, coins: seq<nat>)
    requires Valid(c) && c.phase == AwaitingPermission
    requires |coins| == c.burst
    ensures var r := Run(c, coins);
      && r.0.burst == 0 && r.0.phase != AwaitingPermission
      && |r.1| == |coins|
      && (forall j :: 0 <= j < |coins| - 1 ==> r.1[j] == Nothing)
      && (r.1[|coins| - 1] == ExitSent <==> coins[|coins| - 1] % 2 == 0)
      && r.1[|coins| - 1] != Nothing
      && (r.0.phase == Exited <==> coins[|coins| - 1] % 2 == 0)
    decreases |coins|
  {
    var step := OnSignal(c, coins[0]);
    if c.burst > 1 {
      BurstTakesItsLength(step.0, coins[1..]);
      assert coins[1..][|coins| - 2] == coins[|coins| - 1];
    }
  }

  /** After blocking on I/O, the wake-up signal followed by a full burst of
      permissions brings the child to the end of the same burst again. */
  lemma WakeRestartsBurst(c: Proc, wakeCoin: nat, coins: seq<nat>)
    requires Valid(c) && c.phase == BlockedOnIo
    requires |coins| == c.initBurst
    ensures var w := OnSignal(c, wakeCoin).0;
      w.burst == c.initBurst && Run(w, coins).0.phase != AwaitingPermission
  {
    var w := OnSignal(c, wakeCoin).0;
    BurstTakesItsLength(w, coins);
  }
}
