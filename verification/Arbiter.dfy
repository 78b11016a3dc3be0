/** containerAccessArbitrator of pkg/agent/server.go as a step system: a mutex, a condition
    variable and the busy set, under every schedule of any finite set of RPCs. */
module Arbiter {
  import opened Wrappers

  /** Where an RPC is. lock runs from Start to Entered, unlock from Leaving to Left. */
  datatype Stage =
    | Start                 // lock called, mutex not yet taken
    | Testing               // in lock with the mutex, about to test busy
    | Enrolled              // in Wait: on the notify list, mutex not yet released
    | Asleep                // in Wait: mutex released
    | Awake                 // woken, mutex not yet taken again
    | Entered               // busy set, mutex not yet released
    | Critical(step: nat)   // between lock and unlock
    | Leaving               // unlock called, mutex not yet taken
    | Unlocking             // about to delete from busy
    | Signalling            // about to broadcast
    | Left                  // mutex not yet released
    | Done

  datatype Proc = Proc(cid: string, stage: Stage)

  datatype Arb = Arb(mutex: Option<nat>, busy: set<string>, procs: seq<Proc>)

  /** The last step of any handler. */
  const LAST: nat := 8

  /** What a handler does next: go on to a later step, or return. */
  datatype Choice = Advance(step: nat) | Return

  function Move(a: Arb, p: nat, stage: Stage): Arb
    requires p < |a.procs|
  {
    a.(procs := a.procs[p := a.procs[p].(stage := stage)])
  }

  function Wake(q: Proc): Proc {
    if q.stage.Asleep? then q.(stage := Awake) else q
  }

  function WakeAll(procs: seq<Proc>): (r: seq<Proc>)
    ensures |r| == |procs| && forall i :: 0 <= i < |procs| ==> r[i] == Wake(procs[i])
  {
    seq(|procs|, i requires 0 <= i < |procs| => Wake(procs[i]))
  }

  /** One step of RPC p, or None if it cannot move. */
  function Step(a: Arb, p: nat, ch: Choice): Option<Arb> {
    if p >= |a.procs| then None
    else
      var cid := a.procs[p].cid;
      match a.procs[p].stage
      case Start => if a.mutex.None? then Some(Move(a, p, Testing).(mutex := Some(p))) else None
      case Awake => if a.mutex.None? then Some(Move(a, p, Testing).(mutex := Some(p))) else None
      case Testing =>
        if cid in a.busy then Some(Move(a, p, Enrolled))
        else Some(Move(a, p, Entered).(busy := a.busy + {cid}))
      case Enrolled => Some(Move(a, p, Asleep).(mutex := None))
      case Asleep => None
      case Entered => Some(Move(a, p, Critical(0)).(mutex := None))
      case Critical(k) =>
        (match ch
         case Advance(j) => if k < j <= LAST then Some(Move(a, p, Critical(j))) else None
         case Return => Some(Move(a, p, Leaving)))
      case Leaving => if a.mutex.None? then Some(Move(a, p, Unlocking).(mutex := Some(p))) else None
      case Unlocking => Some(Move(a, p, Signalling).(busy := a.busy - {cid}))
      case Signalling => Some(Move(a.(procs := WakeAll(a.procs)), p, Left))
      case Left => Some(Move(a, p, Done).(mutex := None))
      case Done => None
  }

  // ----- safety -----

  predicate HoldsMutex(s: Stage) {
    s.Testing? || s.Enrolled? || s.Entered? || s.Unlocking? || s.Signalling? || s.Left?
  }

  /** Holds the container ID. */
  predicate Owns(s: Stage) {
    s.Entered? || s.Critical? || s.Leaving? || s.Unlocking?
  }

  predicate Waits(s: Stage) {
    s.Enrolled? || s.Asleep?
  }

  ghost predicate MutexInv(a: Arb) {
    && (forall p :: 0 <= p < |a.procs| && HoldsMutex(a.procs[p].stage) ==> a.mutex == Some(p))
    && (a.mutex.Some? ==> a.mutex.value < |a.procs| && HoldsMutex(a.procs[a.mutex.value].stage))
  }

  /** At most one RPC per container ID is past lock and not through unlock. */
  ghost predicate Exclusive(a: Arb) {
    forall p, q, c :: OwnsId(a, p, c) && OwnsId(a, q, c) ==> p == q
  }

  ghost predicate OwnsId(a: Arb, p: int, c: string) {
    0 <= p < |a.procs| && a.procs[p].cid == c && Owns(a.procs[p].stage)
  }

  /** busy is exactly the set of held IDs. */
  ghost predicate BusyExact(a: Arb) {
    && (forall p :: 0 <= p < |a.procs| && Owns(a.procs[p].stage) ==> a.procs[p].cid in a.busy)
    && (forall c :: c in a.busy ==> exists p :: OwnsId(a, p, c))
  }

  /** Nobody sleeps on an ID that is free, unless the broadcast is about to come. */
  ghost predicate NoLostWakeup(a: Arb) {
    forall p :: 0 <= p < |a.procs| && Waits(a.procs[p].stage) ==>
      a.procs[p].cid in a.busy || SignalDue(a)
  }

  predicate SignalDue(a: Arb) {
    a.mutex.Some? && a.mutex.value < |a.procs| && a.procs[a.mutex.value].stage.Signalling?
  }

  predicate StepsBounded(a: Arb) {
    forall p :: 0 <= p < |a.procs| && a.procs[p].stage.Critical? ==> a.procs[p].stage.step <= LAST
  }

  ghost predicate Inv(a: Arb) {
    MutexInv(a) && Exclusive(a) && BusyExact(a) && NoLostWakeup(a) && StepsBounded(a)
  }

  predicate Initial(a: Arb) {
    a.mutex == None && a.busy == {} && forall p :: 0 <= p < |a.procs| ==> a.procs[p].stage.Start?
  }

  lemma InitialInv(a: Arb)
    requires Initial(a)
    ensures Inv(a)
  {
  }

  lemma StepKeepsMutex(a: Arb, p: nat, ch: Choice)
    requires MutexInv(a) && Step(a, p, ch).Some?
    ensures MutexInv(Step(a, p, ch).value) && |Step(a, p, ch).value.procs| == |a.procs|
    ensures forall q :: 0 <= q < |a.procs| ==> Step(a, p, ch).value.procs[q].cid == a.procs[q].cid
  {
  }

  /** Other RPCs own what they owned. */
  lemma OwnersElsewhere(a: Arb, p: nat, ch: Choice, q: nat)
    requires Step(a, p, ch).Some? && q < |a.procs| && q != p
    ensures |Step(a, p, ch).value.procs| == |a.procs|
    ensures Step(a, p, ch).value.procs[q] in {a.procs[q], Wake(a.procs[q])}
    ensures Owns(Step(a, p, ch).value.procs[q].stage) <==> Owns(a.procs[q].stage)
    ensures a.procs[q].stage.Critical? <==> Step(a, p, ch).value.procs[q].stage.Critical?
    ensures a.procs[q].stage.Critical? ==> Step(a, p, ch).value.procs[q] == a.procs[q]
  {
  }

  /** Ownership and busy change together: at the end of lock and in the middle of unlock. */
  lemma OwnershipChange(a: Arb, p: nat, ch: Choice)
    requires Step(a, p, ch).Some?
    ensures p < |a.procs| == |Step(a, p, ch).value.procs|
    ensures Step(a, p, ch).value.procs[p].cid == a.procs[p].cid
    ensures var b, c, s := Step(a, p, ch).value, a.procs[p].cid, a.procs[p].stage;
            var t := b.procs[p].stage;
            if s.Testing? && c !in a.busy then b.busy == a.busy + {c} && !Owns(s) && Owns(t)
            else if s.Unlocking? then b.busy == a.busy - {c} && Owns(s) && !Owns(t)
            else b.busy == a.busy && Owns(s) == Owns(t)
  {
  }

  lemma StepKeepsOwners(a: Arb, p: nat, ch: Choice)
    requires MutexInv(a) && Exclusive(a) && BusyExact(a) && Step(a, p, ch).Some?
    ensures Exclusive(Step(a, p, ch).value) && BusyExact(Step(a, p, ch).value)
  {
    hide Step, MutexInv, Owns;
    OwnershipChange(a, p, ch);
    var b := Step(a, p, ch).value;
    var c := a.procs[p].cid;
    StepKeepsMutex(a, p, ch);
    forall q, d | q != p
      ensures OwnsId(b, q, d) <==> OwnsId(a, q, d)
    {
      if 0 <= q < |a.procs| { OwnersElsewhere(a, p, ch, q); }
    }
    forall q, d | OwnsId(b, q, d)
      ensures d in b.busy && (q != p && OwnsId(b, p, c) ==> d != c)
    {
      if q != p {
        assert OwnsId(a, q, d);
        assert OwnsId(a, p, c) ==> d != c;
      }
    }
    forall d | d in b.busy
      ensures exists q :: OwnsId(b, q, d)
    {
      if d == c && Owns(b.procs[p].stage) {
        assert OwnsId(b, p, d);
      } else {
        var q :| OwnsId(a, q, d);
        assert OwnsId(b, q, d);
      }
    }
    forall q | 0 <= q < |b.procs| && Owns(b.procs[q].stage)
      ensures b.procs[q].cid in b.busy
    {
      assert OwnsId(b, q, b.procs[q].cid);
    }
  }

  lemma StepKeepsWakeups(a: Arb, p: nat, ch: Choice)
    requires MutexInv(a) && NoLostWakeup(a) && StepsBounded(a) && Step(a, p, ch).Some?
    ensures NoLostWakeup(Step(a, p, ch).value) && StepsBounded(Step(a, p, ch).value)
  {
    var b := Step(a, p, ch).value;
    StepKeepsMutex(a, p, ch);
    forall q: nat | q < |b.procs| && Waits(b.procs[q].stage)
      ensures b.procs[q].cid in b.busy || SignalDue(b)
    {
      if q != p { OwnersElsewhere(a, p, ch, q); }
      WaiterStays(a, p, ch, q);
    }
  }

  lemma WaiterStays(a: Arb, p: nat, ch: Choice, q: nat)
    requires MutexInv(a) && NoLostWakeup(a) && Step(a, p, ch).Some?
    requires q < |Step(a, p, ch).value.procs| == |a.procs| && Waits(Step(a, p, ch).value.procs[q].stage)
    ensures var b := Step(a, p, ch).value; b.procs[q].cid in b.busy || SignalDue(b)
  {
    assert q != p ==> Waits(a.procs[q].stage);
  }

  lemma StepKeepsInv(a: Arb, p: nat, ch: Choice)
    requires Inv(a) && Step(a, p, ch).Some?
    ensures Inv(Step(a, p, ch).value)
  {
    hide Step, MutexInv, Exclusive, BusyExact, NoLostWakeup, StepsBounded;
    StepKeepsMutex(a, p, ch);
    StepKeepsOwners(a, p, ch);
    StepKeepsWakeups(a, p, ch);
  }

  // ----- runs -----

  datatype Turn = Turn(p: nat, ch: Choice)

  function After(a: Arb, turns: seq<Turn>): Option<Arb>
    decreases |turns|
  {
    if turns == [] then Some(a)
    else
      match Step(a, turns[0].p, turns[0].ch)
      case None => None
      case Some(b) => After(b, turns[1..])
  }

  lemma {:induction false} RunKeepsInv(a: Arb, turns: seq<Turn>)
    requires Inv(a) && After(a, turns).Some?
    ensures Inv(After(a, turns).value)
    decreases |turns|
  {
    hide Inv, Step;
    if turns != [] {
      StepKeepsInv(a, turns[0].p, turns[0].ch);
      RunKeepsInv(Step(a, turns[0].p, turns[0].ch).value, turns[1..]);
    }
  }

  /** Safety, under every schedule: one owner per container ID, busy exactly the owned IDs, and
      while the mutex is free every sleeper's ID is busy. */
  lemma ArbitratorSafe(a0: Arb, turns: seq<Turn>)
    requires Initial(a0) && After(a0, turns).Some?
    ensures var a := After(a0, turns).value;
            && Exclusive(a) && BusyExact(a)
            && (a.mutex.None? ==>
                  forall p :: 0 <= p < |a.procs| && a.procs[p].stage.Asleep? ==> a.procs[p].cid in a.busy)
  {
    hide Step;
    InitialInv(a0);
    RunKeepsInv(a0, turns);
  }

  predicate Finished(a: Arb) {
    forall p :: 0 <= p < |a.procs| ==> a.procs[p].stage.Done?
  }

  /** No deadlock: unless every RPC is done, some RPC can move. */
  lemma SomeoneCanMove(a: Arb)
    requires Inv(a) && !Finished(a)
    ensures exists p: nat, ch :: Step(a, p, ch).Some?
  {
    if a.mutex.Some? {
      assert Step(a, a.mutex.value, Return).Some?;
    } else {
      var p: nat :| p < |a.procs| && !a.procs[p].stage.Done?;
      if a.procs[p].stage.Asleep? {
        var c := a.procs[p].cid;
        assert c in a.busy;
        var q :| OwnsId(a, q, c);
        assert Step(a, q, Return).Some?;
      } else {
        assert Step(a, p, Return).Some?;
      }
    }
  }

  // ----- termination -----

  /** Progress that is never undone. */
  function Distance(s: Stage): nat {
    match s
    case Critical(k) => if k <= LAST then 6 + LAST - k else 6
    case Entered => 7 + LAST
    case Leaving => 4
    case Unlocking => 3
    case Signalling => 2
    case Left => 1
    case Done => 0
    case _ => 8 + LAST
  }

  /** Progress a broadcast can undo: one more round of waiting. */
  function Round(s: Stage): nat {
    match s
    case Start => 3
    case Awake => 3
    case Testing => 2
    case Enrolled => 1
    case _ => 0
  }

  function Sum(f: Stage -> nat, procs: seq<Proc>): nat {
    if procs == [] then 0 else f(procs[0].stage) + Sum(f, procs[1..])
  }

  lemma {:induction false} SumUpdate(f: Stage -> nat, procs: seq<Proc>, p: nat, q: Proc)
    requires p < |procs|
    ensures Sum(f, procs[p := q]) == Sum(f, procs) - f(procs[p].stage) + f(q.stage)
  {
    var n := procs[p := q];
    if p == 0 {
      assert n[1..] == procs[1..];
    } else {
      assert n[1..] == procs[1..][p - 1 := q];
      SumUpdate(f, procs[1..], p - 1, q);
    }
  }

  lemma {:induction false} SumWake(procs: seq<Proc>)
    ensures Sum(Distance, WakeAll(procs)) == Sum(Distance, procs)
    ensures Sum(Round, WakeAll(procs)) <= 3 * |procs|
  {
    if procs != [] {
      SumWake(procs[1..]);
      assert WakeAll(procs)[1..] == WakeAll(procs[1..]);
    }
  }

  lemma {:induction false} SumRound(procs: seq<Proc>)
    ensures Sum(Round, procs) <= 3 * |procs|
  {
    if procs != [] {
      SumRound(procs[1..]);
    }
  }

  /** The lexicographic measure (Distance, Round), folded into one number. */
  function Measure(a: Arb): nat {
    Sum(Distance, a.procs) * (3 * |a.procs| + 1) + Sum(Round, a.procs)
  }

  /** A move either brings the RPC closer to its end, or keeps the distance and uses up part of a
      round of waiting. */
  lemma StageProgress(a: Arb, p: nat, ch: Choice)
    requires StepsBounded(a) && Step(a, p, ch).Some? && !a.procs[p].stage.Signalling?
    ensures var s, t := a.procs[p].stage, Step(a, p, ch).value.procs[p].stage;
            && Step(a, p, ch).value.procs == a.procs[p := a.procs[p].(stage := t)]
            && (Distance(t) < Distance(s) || (Distance(t) == Distance(s) && Round(t) < Round(s)))
  {
  }

  lemma Folded(d: nat, e: nat, r: nat, w: nat, n: nat)
    requires e < d || (e == d && w < r)
    requires w <= n
    ensures e * (n + 1) + w < d * (n + 1) + r
  {
    if e < d {
      assert (d - e) * (n + 1) == d * (n + 1) - e * (n + 1);
      assert (d - e - 1) * (n + 1) >= 0;
      assert (d - e) * (n + 1) == (d - e - 1) * (n + 1) + (n + 1);
    }
  }

  /** Every step of every schedule makes the measure smaller, including the wake-ups that go back
      to sleep. */
  lemma StepDecreases(a: Arb, p: nat, ch: Choice)
    requires StepsBounded(a) && Step(a, p, ch).Some?
    ensures Measure(Step(a, p, ch).value) < Measure(a)
  {
    var b := Step(a, p, ch).value;
    var s := a.procs[p].stage;
    if s.Signalling? {
      Broadcast(a, p, ch);
    } else {
      StageProgress(a, p, ch);
      var t := b.procs[p].stage;
      hide Step;
      SumUpdate(Distance, a.procs, p, a.procs[p].(stage := t));
      SumUpdate(Round, a.procs, p, a.procs[p].(stage := t));
      SumRound(b.procs);
      Folded(Sum(Distance, a.procs), Sum(Distance, b.procs), Sum(Round, a.procs), Sum(Round, b.procs), 3 * |a.procs|);
    }
  }

  lemma Broadcast(a: Arb, p: nat, ch: Choice)
    requires p < |a.procs| && a.procs[p].stage.Signalling?
    ensures Step(a, p, ch).Some? && Measure(Step(a, p, ch).value) < Measure(a)
  {
    var b := Step(a, p, ch).value;
    var w := WakeAll(a.procs);
    assert b.procs == w[p := w[p].(stage := Left)];
    SumWake(a.procs);
    SumUpdate(Distance, w, p, w[p].(stage := Left));
    SumRound(b.procs);
    Folded(Sum(Distance, a.procs), Sum(Distance, b.procs), Sum(Round, a.procs), Sum(Round, b.procs), 3 * |a.procs|);
  }

  /** Termination: no schedule is longer than the measure, and one that cannot be continued has
      every RPC done. */
  lemma {:induction false} RunsEnd(a: Arb, turns: seq<Turn>)
    requires Inv(a) && After(a, turns).Some?
    ensures |turns| + Measure(After(a, turns).value) <= Measure(a)
    ensures var b := After(a, turns).value;
            (forall p: nat, ch :: Step(b, p, ch).None?) ==> Finished(b)
    decreases |turns|
  {
    hide Inv, Step, Measure, Finished, StepsBounded;
    if turns == [] {
      if !Finished(a) { SomeoneCanMove(a); }
    } else {
      StepKeepsInv(a, turns[0].p, turns[0].ch);
      InvBounds(a);
      StepDecreases(a, turns[0].p, turns[0].ch);
      RunsEnd(Step(a, turns[0].p, turns[0].ch).value, turns[1..]);
    }
  }

  lemma InvBounds(a: Arb)
    requires Inv(a)
    ensures StepsBounded(a)
  {
  }
}
