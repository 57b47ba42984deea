/** The reusable barrier (src/spinlocks.h: SpinBarrier::wait), under sequential consistency: every atomic
    operation is one step, and a schedule says which thread takes the next step. Counters have 32 bits. */
module SpinBarrier {
  import opened Arithmetic

  /** Where a thread is inside wait(): `Loaded` has read step_, `Last` has found itself the last to arrive,
      `Cleared` has also reset nwait_, `Spin` waits for step_ to change. The step read is kept. */
  datatype Pc = Idle | Loaded(step: nat) | Last(step: nat) | Cleared(step: nat) | Spin(step: nat)

  /** `arrived` and `completed` count a thread's increments of nwait_ and its returns from wait(). */
  datatype Thread = Thread(pc: Pc, arrived: nat, completed: nat)

  /** The two shared counters and the threads; `rounds` counts the stores to step_. */
  datatype State = State(nwait: nat, step: nat, rounds: nat, threads: seq<Thread>) {
    function With(i: nat, t: Thread): (s: State)
      requires i < |threads|
      ensures |s.threads| == |threads|
    {
      this.(threads := threads[i := t])
    }
  }

  function Init(n: nat): State {
    State(0, 0, 0, seq(n, _ => Thread(Idle, 0, 0)))
  }

  /** One atomic operation of thread `i` inside wait(); an idle thread begins its next wait(). */
  function Step(s: State, i: nat): (r: State)
    requires i < |s.threads|
    ensures |r.threads| == |s.threads|
  {
    var n := |s.threads|;
    var t := s.threads[i];
    match t.pc
    case Idle => s.With(i, t.(pc := Loaded(s.step)))
    case Loaded(b) =>
      var next := if s.nwait == n - 1 then Last(b) else Spin(b);
      s.(nwait := (s.nwait + 1) % TWO_TO_32).With(i, t.(pc := next, arrived := t.arrived + 1))
    case Last(b) => s.(nwait := 0).With(i, t.(pc := Cleared(b)))
    case Cleared(b) =>
      s.(step := (b + 1) % TWO_TO_32, rounds := s.rounds + 1).With(i, t.(pc := Idle, completed := t.completed + 1))
    case Spin(b) =>
      if s.step == b then s else s.With(i, t.(pc := Idle, completed := t.completed + 1))
  }

  /** The state after a schedule. */
  function Exec(s: State, schedule: seq<nat>): (r: State)
    requires forall k :: 0 <= k < |schedule| ==> schedule[k] < |s.threads|
    ensures |r.threads| == |s.threads|
    decreases |schedule|
  {
    if schedule == [] then s else Exec(Step(s, schedule[0]), schedule[1..])
  }

  // ---------------------------------------------------------------- the invariant

  /** How many threads have arrived more than `r` times. */
  function Arrivals(ts: seq<Thread>, r: nat): (k: nat)
    ensures k <= |ts|
  {
    if ts == [] then 0 else Arrivals(ts[..|ts| - 1], r) + if ts[|ts| - 1].arrived > r then 1 else 0
  }

  predicate IsLast(t: Thread) { t.pc.Last? || t.pc.Cleared? }

  /** A thread is either before its arrival in round `r`, or waiting in it, or still leaving the round before. */
  predicate ThreadOk(t: Thread, r: nat) {
    match t.pc
    case Idle => t.arrived == t.completed == r
    case Loaded(b) => t.arrived == t.completed == r && b == r % TWO_TO_32
    case Last(b) => t.arrived == r + 1 && t.completed == r && b == r % TWO_TO_32
    case Cleared(b) => t.arrived == r + 1 && t.completed == r && b == r % TWO_TO_32
    case Spin(b) => t.arrived == t.completed + 1 && t.completed <= r <= t.arrived && b == t.completed % TWO_TO_32
  }

  ghost predicate SomeLast(ts: seq<Thread>) { exists i :: 0 <= i < |ts| && IsLast(ts[i]) }

  ghost predicate SomeCleared(ts: seq<Thread>) { exists i :: 0 <= i < |ts| && ts[i].pc.Cleared? }

  ghost predicate Inv(s: State) {
    && 0 < |s.threads| < TWO_TO_32
    && s.step == s.rounds % TWO_TO_32
    && (forall i :: 0 <= i < |s.threads| ==> ThreadOk(s.threads[i], s.rounds))
    && (forall i, j :: 0 <= i < j < |s.threads| ==> !(IsLast(s.threads[i]) && IsLast(s.threads[j])))
    && (SomeLast(s.threads) <==> Arrivals(s.threads, s.rounds) == |s.threads|)
    && s.nwait == if SomeCleared(s.threads) then 0 else Arrivals(s.threads, s.rounds)
  }

  lemma {:induction false} ArrivalsUpdate(ts: seq<Thread>, i: nat, t: Thread, r: nat)
    requires i < |ts|
    ensures Arrivals(ts[i := t], r) + (if ts[i].arrived > r then 1 else 0)
         == Arrivals(ts, r) + (if t.arrived > r then 1 else 0)
  {
    var k := |ts| - 1;
    if i == k {
      assert ts[i := t][..k] == ts[..k];
    } else {
      ArrivalsUpdate(ts[..k], i, t, r);
      assert ts[i := t][..k] == ts[..k][i := t];
    }
  }

  lemma {:induction false} AllArrived(ts: seq<Thread>, r: nat)
    ensures Arrivals(ts, r) == |ts| <==> forall i :: 0 <= i < |ts| ==> ts[i].arrived > r
    ensures Arrivals(ts, r) == 0 <==> forall i :: 0 <= i < |ts| ==> ts[i].arrived <= r
  {
    if ts != [] {
      var k := |ts| - 1;
      AllArrived(ts[..k], r);
      assert forall i :: 0 <= i < k ==> ts[..k][i] == ts[i];
    }
  }

  lemma InitInv(n: nat)
    requires 0 < n < TWO_TO_32
    ensures Inv(Init(n))
  {
    AllArrived(Init(n).threads, 0);
  }

  lemma StepInv(s: State, i: nat)
    requires Inv(s) && i < |s.threads|
    ensures Inv(Step(s, i))
  {
    var t := s.threads[i];
    match t.pc
    case Idle => LocalInv(s, i, t.(pc := Loaded(s.step)));
    case Loaded(b) => ArriveInv(s, i);
    case Last(b) => ClearInv(s, i);
    case Cleared(b) => AdvanceInv(s, i);
    case Spin(b) =>
      if s.step != b {
        LocalInv(s, i, t.(pc := Idle, completed := t.completed + 1));
      }
  }

  /** A step that touches neither counter and is not the last arriver's. */
  lemma LocalInv(s: State, i: nat, t: Thread)
    requires Inv(s) && i < |s.threads| && t.arrived == s.threads[i].arrived
    requires !IsLast(s.threads[i]) && !IsLast(t) && ThreadOk(t, s.rounds)
    ensures Inv(s.With(i, t))
  {
    hide Arrivals;
    ArrivalsUpdate(s.threads, i, t, s.rounds);
    var r := s.With(i, t);
    assert forall j :: 0 <= j < |s.threads| && j != i ==> r.threads[j] == s.threads[j];
    if j :| 0 <= j < |s.threads| && IsLast(s.threads[j]) {
      assert IsLast(r.threads[j]);
    }
    if j :| 0 <= j < |s.threads| && s.threads[j].pc.Cleared? {
      assert r.threads[j].pc.Cleared?;
    }
  }

  lemma ArriveInv(s: State, i: nat)
    requires Inv(s) && i < |s.threads| && s.threads[i].pc.Loaded?
    ensures Inv(Step(s, i))
  {
    hide Arrivals;
    var r := Step(s, i);
    var n := |s.threads|;
    AllArrived(s.threads, s.rounds);
    ArrivalsUpdate(s.threads, i, r.threads[i], s.rounds);
    assert forall j :: 0 <= j < n && j != i ==> r.threads[j] == s.threads[j];
    assert s.threads[i].arrived == s.rounds;
    assert forall j :: 0 <= j < n ==> !IsLast(s.threads[j]);
    assert s.nwait == Arrivals(s.threads, s.rounds) < n;
    if s.nwait == n - 1 {
      assert IsLast(r.threads[i]);
    }
  }

  lemma ClearInv(s: State, i: nat)
    requires Inv(s) && i < |s.threads| && s.threads[i].pc.Last?
    ensures Inv(Step(s, i))
  {
    hide Arrivals;
    var r := Step(s, i);
    ArrivalsUpdate(s.threads, i, r.threads[i], s.rounds);
    assert forall j :: 0 <= j < |s.threads| && j != i ==> r.threads[j] == s.threads[j];
    assert IsLast(s.threads[i]) && IsLast(r.threads[i]) && r.threads[i].pc.Cleared?;
  }

  lemma AdvanceInv(s: State, i: nat)
    requires Inv(s) && i < |s.threads| && s.threads[i].pc.Cleared?
    ensures Inv(Step(s, i))
  {
    hide Arrivals;
    var r := Step(s, i);
    var n := |s.threads|;
    AllArrived(s.threads, s.rounds);
    AllArrived(r.threads, r.rounds);
    assert IsLast(s.threads[i]);
    assert s.nwait == 0;
    assert forall j :: 0 <= j < n && j != i ==> r.threads[j] == s.threads[j] && !IsLast(s.threads[j]);
    assert r.step == r.rounds % TWO_TO_32 by {
      NextStep(s.rounds);
    }
  }

  lemma NextStep(r: nat)
    ensures (r % TWO_TO_32 + 1) % TWO_TO_32 == (r + 1) % TWO_TO_32
    ensures r % TWO_TO_32 != (r + 1) % TWO_TO_32
  {
  }

  lemma {:induction false} ExecInv(s: State, schedule: seq<nat>)
    requires Inv(s) && forall k :: 0 <= k < |schedule| ==> schedule[k] < |s.threads|
    ensures Inv(Exec(s, schedule))
    decreases |schedule|
  {
    if schedule != [] {
      StepInv(s, schedule[0]);
      ExecInv(Step(s, schedule[0]), schedule[1..]);
    }
  }

  // ---------------------------------------------------------------- safety, over all schedules

  predicate Legal(n: nat, schedule: seq<nat>) {
    0 < n < TWO_TO_32 && forall k :: 0 <= k < |schedule| ==> schedule[k] < n
  }

  /** No thread returns from its k-th wait before all threads have arrived in their k-th, and no thread is
      ever two waits ahead: the barrier can be reused. */
  lemma NobodyPassesEarly(n: nat, schedule: seq<nat>, i: nat, j: nat)
    requires Legal(n, schedule) && i < n && j < n
    ensures var ts := Exec(Init(n), schedule).threads;
      && ts[i].completed <= ts[j].arrived <= ts[j].completed + 1
      && ts[i].completed <= ts[j].completed + 1
  {
    InitInv(n);
    ExecInv(Init(n), schedule);
    var s := Exec(Init(n), schedule);
    assert ThreadOk(s.threads[i], s.rounds) && ThreadOk(s.threads[j], s.rounds);
  }

  /** nwait_ is the number of threads that have arrived in the current round, except between the reset of
      nwait_ by the last arriver and its store to step_, when all have arrived and nwait_ is zero. */
  lemma WaitersCounted(n: nat, schedule: seq<nat>)
    requires Legal(n, schedule)
    ensures var s := Exec(Init(n), schedule);
      && s.step == s.rounds % 0x1_0000_0000
      && ((forall i :: 0 <= i < n ==> !s.threads[i].pc.Cleared?) ==> s.nwait == Arrivals(s.threads, s.rounds))
      && (forall i :: 0 <= i < n && s.threads[i].pc.Cleared? ==>
            s.nwait == 0 && forall j :: 0 <= j < n ==> s.threads[j].arrived == s.rounds + 1)
  {
    InitInv(n);
    ExecInv(Init(n), schedule);
    var s := Exec(Init(n), schedule);
    AllArrived(s.threads, s.rounds);
    forall i | 0 <= i < n && s.threads[i].pc.Cleared?
      ensures s.nwait == 0 && forall j :: 0 <= j < n ==> s.threads[j].arrived == s.rounds + 1
    {
      assert IsLast(s.threads[i]);
      forall j | 0 <= j < n
        ensures s.threads[j].arrived == s.rounds + 1
      {
        assert ThreadOk(s.threads[j], s.rounds);
      }
    }
  }

  /** Every step of wait(), told in rounds and not in 32-bit counters: a call reads step_, arrives, is the last of its
      round exactly when all others have arrived, and returns: the last after two more steps, the others as soon as the
      round is over and not before. No other thread moves. */
  lemma WaitExactly(n: nat, schedule: seq<nat>, i: nat)
    requires Legal(n, schedule) && i < n
    ensures var s := Exec(Init(n), schedule); var r := Step(s, i);
      && (forall j :: 0 <= j < n && j != i ==> r.threads[j] == s.threads[j])
      && var t, u := s.threads[i], r.threads[i];
         match t.pc
         case Idle => u.pc.Loaded? && u.arrived == t.arrived && u.completed == t.completed && r.rounds == s.rounds
         case Loaded(_) =>
           && u.arrived == t.arrived + 1 && u.completed == t.completed && r.rounds == s.rounds
           && (if forall j :: 0 <= j < n && j != i ==> s.threads[j].arrived > s.rounds then u.pc.Last? else u.pc.Spin?)
         case Last(_) =>
           u.pc.Cleared? && u.arrived == t.arrived && u.completed == t.completed && r.rounds == s.rounds
         case Cleared(_) =>
           u.pc.Idle? && u.arrived == t.arrived && u.completed == t.completed + 1 && r.rounds == s.rounds + 1
         case Spin(_) =>
           && r.rounds == s.rounds && u.arrived == t.arrived
           && (if s.rounds > t.completed then u.pc.Idle? && u.completed == t.completed + 1 else u == t)
  {
    hide Exec;
    InitInv(n);
    ExecInv(Init(n), schedule);
    var s := Exec(Init(n), schedule);
    var t := s.threads[i];
    assert ThreadOk(t, s.rounds);
    NextStep(t.completed);
    if t.pc.Loaded? {
      LastExactly(s, i);
    }
  }

  lemma LastExactly(s: State, i: nat)
    requires Inv(s) && i < |s.threads| && s.threads[i].pc.Loaded?
    ensures s.nwait == |s.threads| - 1 <==>
      forall j :: 0 <= j < |s.threads| && j != i ==> s.threads[j].arrived > s.rounds
  {
    hide Arrivals;
    var ts, r := s.threads, s.rounds;
    var us := ts[i := ts[i].(arrived := r + 1)];
    assert ThreadOk(ts[i], r);
    ArrivalsUpdate(ts, i, us[i], r);
    AllArrived(us, r);
    AllArrived(ts, r);
    assert !SomeLast(ts);
    assert !SomeCleared(ts);
    assert forall j :: 0 <= j < |ts| && j != i ==> us[j] == ts[j];
  }

  // ---------------------------------------------------------------- progress

  /** A step that changes nothing: the spin loop reads an unchanged step_. */
  predicate Waits(s: State, i: nat)
    requires i < |s.threads|
  {
    s.threads[i].pc.Spin? && s.threads[i].pc.step == s.step
  }

  /** Every thread is outside wait() or spinning in vain. */
  predicate Stuck(s: State) {
    forall i :: 0 <= i < |s.threads| ==> s.threads[i].pc.Idle? || Waits(s, i)
  }

  /** Nothing waits forever: when no thread inside wait() can move, then somebody has yet to call it, and
      everyone inside waits for exactly those threads. */
  lemma StuckWaitsForCallers(s: State)
    requires Inv(s) && Stuck(s)
    ensures exists i :: 0 <= i < |s.threads| && s.threads[i].pc.Idle?
    ensures forall i, j :: 0 <= i < |s.threads| && 0 <= j < |s.threads| ==>
      s.threads[i].pc.Spin? && s.threads[j].pc.Idle? ==> s.threads[j].arrived < s.threads[i].arrived
  {
    AllArrived(s.threads, s.rounds);
    NextStep(s.rounds);
    forall i | 0 <= i < |s.threads| && s.threads[i].pc.Spin?
      ensures s.threads[i].arrived == s.rounds + 1
    {
      assert ThreadOk(s.threads[i], s.rounds) && Waits(s, i);
      if s.threads[i].arrived == s.rounds {
        NextStep(s.threads[i].completed);
      }
    }
    forall j | 0 <= j < |s.threads| && s.threads[j].pc.Idle?
      ensures s.threads[j].arrived == s.rounds
    {
      assert ThreadOk(s.threads[j], s.rounds);
    }
  }

  function Left(t: Thread): nat {
    match t.pc
    case Idle => 0
    case Spin(_) => 1
    case Cleared(_) => 2
    case Last(_) => 3
    case Loaded(_) => 4
  }

  function StepsLeft(ts: seq<Thread>): (k: nat)
    ensures k <= 4 * |ts|
  {
    if ts == [] then 0 else StepsLeft(ts[..|ts| - 1]) + Left(ts[|ts| - 1])
  }

  lemma {:induction false} StepsLeftUpdate(ts: seq<Thread>, i: nat, t: Thread)
    requires i < |ts|
    ensures StepsLeft(ts[i := t]) == StepsLeft(ts) - Left(ts[i]) + Left(t)
  {
    var k := |ts| - 1;
    if i == k {
      assert ts[i := t][..k] == ts[..k];
    } else {
      StepsLeftUpdate(ts[..k], i, t);
      assert ts[i := t][..k] == ts[..k][i := t];
    }
  }

  /** A schedule in which nobody calls wait() anew and nobody spins in vain. */
  ghost predicate Busy(s: State, schedule: seq<nat>)
    requires forall k :: 0 <= k < |schedule| ==> schedule[k] < |s.threads|
    decreases |schedule|
  {
    schedule == [] ||
    (!s.threads[schedule[0]].pc.Idle? && !Waits(s, schedule[0]) && Busy(Step(s, schedule[0]), schedule[1..]))
  }

  /** Without new calls, at most four useful steps a thread remain. */
  lemma {:induction false} BusyIsShort(s: State, schedule: seq<nat>)
    requires forall k :: 0 <= k < |schedule| ==> schedule[k] < |s.threads|
    requires Busy(s, schedule)
    ensures |schedule| + StepsLeft(Exec(s, schedule).threads) <= StepsLeft(s.threads) <= 4 * |s.threads|
    decreases |schedule|
  {
    if schedule != [] {
      var r := Step(s, schedule[0]);
      StepsLeftUpdate(s.threads, schedule[0], r.threads[schedule[0]]);
      BusyIsShort(r, schedule[1..]);
    }
  }

  /** A thread in its wait number `k` (from zero), or just back from it. */
  predicate InRound(t: Thread, k: nat) {
    if t.pc.Idle? then t.completed == k + 1 else t.completed == k
  }

  /** Once all threads have called wait(), all of them return from it: every useful schedule is short
      (`BusyIsShort`), and when it cannot be continued everybody is back. */
  lemma {:induction false} EverybodyReturns(s: State, k: nat, schedule: seq<nat>)
    requires Inv(s) && forall i :: 0 <= i < |s.threads| ==> InRound(s.threads[i], k)
    requires forall x :: 0 <= x < |schedule| ==> schedule[x] < |s.threads|
    requires Busy(s, schedule) && Stuck(Exec(s, schedule))
    ensures var ts := Exec(s, schedule).threads;
      forall i :: 0 <= i < |ts| ==> ts[i].pc.Idle? && ts[i].completed == k + 1
    decreases |schedule|
  {
    hide Inv;
    if schedule == [] {
      StuckMeansBack(s, k);
    } else {
      var i := schedule[0];
      StepInv(s, i);
      RoundStep(s, k, i);
      EverybodyReturns(Step(s, i), k, schedule[1..]);
      assert Exec(s, schedule) == Exec(Step(s, i), schedule[1..]);
    }
  }

  lemma StuckMeansBack(s: State, k: nat)
    requires Inv(s) && Stuck(s) && forall i :: 0 <= i < |s.threads| ==> InRound(s.threads[i], k)
    ensures forall i :: 0 <= i < |s.threads| ==> s.threads[i].pc.Idle? && s.threads[i].completed == k + 1
  {
    StuckWaitsForCallers(s);
    var j :| 0 <= j < |s.threads| && s.threads[j].pc.Idle?;
    assert ThreadOk(s.threads[j], s.rounds) && InRound(s.threads[j], k);
    NextStep(k);
    forall i | 0 <= i < |s.threads|
      ensures s.threads[i].pc.Idle? && s.threads[i].completed == k + 1
    {
      assert ThreadOk(s.threads[i], s.rounds) && InRound(s.threads[i], k);
    }
  }

  lemma RoundStep(s: State, k: nat, i: nat)
    requires i < |s.threads| && !s.threads[i].pc.Idle?
    requires forall j :: 0 <= j < |s.threads| ==> InRound(s.threads[j], k)
    ensures forall j :: 0 <= j < |s.threads| ==> InRound(Step(s, i).threads[j], k)
  {
    forall j | 0 <= j < |s.threads|
      ensures InRound(Step(s, i).threads[j], k)
    {
      assert InRound(s.threads[j], k) && InRound(s.threads[i], k);
    }
  }

  // ---------------------------------------------------------------- wait() itself

  /** The barrier object, driven one atomic operation at a time. */
  class Barrier {
    const n: nat
    var nwait: nat
    var step: nat
    ghost var state: State

    ghost predicate Valid()
      reads this
    {
      Inv(state) && |state.threads| == n && nwait == state.nwait && step == state.step
    }

    constructor (n: nat)
      requires 0 < n < TWO_TO_32
      ensures Valid() && this.n == n && state == Init(n)
    {
      this.n, nwait, step := n, 0, 0;
      state := Init(n);
      InitInv(n);
    }

    /** The next atomic operation of wait() for a thread at `pc`; gives the thread's new place. */
    method Advance(ghost i: nat, pc: Pc) returns (next: Pc)
      requires Valid() && i < n && state.threads[i].pc == pc
      modifies this
      ensures Valid() && state == Step(old(state), i) && next == state.threads[i].pc
    {
      StepInv(state, i);
      match pc {
        case Idle => next := Loaded(step);
        case Loaded(b) =>
          var was := nwait;
          nwait := (nwait + 1) % TWO_TO_32;
          next := if was == n - 1 then Last(b) else Spin(b);
        case Last(b) =>
          nwait := 0;
          next := Cleared(b);
        case Cleared(b) =>
          step := (b + 1) % TWO_TO_32;
          next := Idle;
        case Spin(b) => next := if step == b then pc else Idle;
      }
      state := Step(state, i);
    }
  }
}
