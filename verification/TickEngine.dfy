/** The two-phase tick loop of the simulator threads (src/simroot.cpp: simroot_thread_function,
    stop_sim_and_exit, add_sim_object), built on the spin barrier, one atomic step at a time. */
module TickEngine {
  import opened Arithmetic
  import B = SpinBarrier

  // ---------------------------------------------------------------- the objects of one thread

  /** A registered object: it runs every `latency` ticks, when `current` has counted down to zero. */
  datatype Entry = Entry(latency: int, current: int, doCurrent: bool, doApply: bool) {
    function Next(): Entry { this.(current := (if current == 0 then latency else current) - 1) }
  }

  function NewEntry(latency: int, doCurrent: bool, doApply: bool): Entry {
    Entry(latency, if latency > 0 then latency - 1 else 0, doCurrent, doApply)
  }

  /** The countdown of an object after `t` ticks. With a latency below zero it never comes back to zero. */
  predicate OnTime(x: Entry, t: nat) {
    x.current ==
      if x.latency > 0 then x.latency - 1 - t % x.latency else if t == 0 then 0 else x.latency - t
  }

  /** An object of this latency is due in tick `t`. */
  predicate DueAt(latency: int, t: nat) { if latency > 0 then (t + 1) % latency == 0 else t == 0 }

  lemma OnTimeDue(x: Entry, t: nat)
    requires OnTime(x, t)
    ensures x.current == 0 <==> DueAt(x.latency, t)
  {
    if x.latency > 0 {
      Countdown(t, x.latency);
    }
  }

  lemma NextOnTime(x: Entry, t: nat)
    requires OnTime(x, t)
    ensures OnTime(x.Next(), t + 1)
  {
    if x.latency > 0 {
      Countdown(t, x.latency);
    }
  }

  lemma Countdown(t: nat, l: int)
    requires l > 0
    ensures (t + 1) % l == if t % l == l - 1 then 0 else t % l + 1
    ensures (t + 1) % l == 0 <==> t % l == l - 1
  {
    var q, m := t / l, t % l;
    assert t + 1 == l * q + (m + 1);
    if m == l - 1 {
      assert t + 1 == l * (q + 1);
      DivModUnique(t + 1, l, q + 1, 0);
    } else {
      DivModUnique(t + 1, l, q, m + 1);
    }
  }

  // ---------------------------------------------------------------- the machine

  /** Where a thread is in its loop; `k` is the object it is at, `busy` that it is inside the callback. */
  datatype Phase =
    | Check
    | Cur(k: nat, busy: bool)
    | WaitCur
    | Apply(k: nat, busy: bool)
    | Count
    | WaitApply
    | Exited

  datatype Worker = Worker(at: Phase, simobjs: seq<Entry>)

  /** A callback begins or ends. `round` is the number of barriers the thread has passed, `seen` what
      current_tick reads. */
  datatype Event = Event(worker: nat, obj: nat, apply: bool, begin: bool, round: nat, seen: nat)

  datatype Engine = Engine(barrier: B.State, workers: seq<Worker>, processing: bool, tick: nat, log: seq<Event>) {
    function With(i: nat, at: Phase): Engine
      requires i < |workers|
    {
      this.(workers := workers[i := workers[i].(at := at)])
    }

    function Advance(i: nat, k: nat): Engine
      requires i < |workers| && k < |workers[i].simobjs|
    {
      var w := workers[i];
      this.(workers := workers[i := Worker(Apply(k + 1, false), w.simobjs[k := w.simobjs[k].Next()])])
    }

    function Log(i: nat, k: nat, apply: bool, begin: bool): Engine
      requires i < |barrier.threads|
    {
      this.(log := log + [Event(i, k, apply, begin, barrier.threads[i].completed, tick)])
    }
  }

  /** A scheduling choice: a thread takes its next step, or stop_sim_and_exit is called from inside the
      callback a thread is in. */
  datatype Choice = Move(i: nat) | Stop(i: nat)

  function Init(tasks: seq<seq<Entry>>, tick: nat): Engine {
    Engine(B.Init(|tasks|), seq(|tasks|, i requires 0 <= i < |tasks| => Worker(Check, tasks[i])), true, tick, [])
  }

  predicate Shape(e: Engine) { |e.workers| == |e.barrier.threads| }

  predicate InCallback(w: Worker) { (w.at.Cur? || w.at.Apply?) && w.at.busy }

  /** One atomic operation inside the barrier; the thread goes on to `next` when wait() returns. */
  function WaitStep(e: Engine, i: nat, next: Phase): (r: Engine)
    requires Shape(e) && i < |e.workers|
    ensures Shape(r) && |r.workers| == |e.workers|
  {
    var b := B.Step(e.barrier, i);
    var r := e.(barrier := b);
    if b.threads[i].pc.Idle? then r.With(i, next) else r
  }

  function MoveStep(e: Engine, i: nat): (r: Engine)
    requires Shape(e) && i < |e.workers|
    ensures Shape(r) && |r.workers| == |e.workers|
  {
    var w := e.workers[i];
    var n := |w.simobjs|;
    match w.at
    case Check => e.With(i, if e.processing then Cur(0, false) else Exited)
    case Cur(k, busy) =>
      if k >= n then e.With(i, WaitCur)
      else if busy then e.Log(i, k, false, false).With(i, Cur(k + 1, false))
      else if w.simobjs[k].current == 0 && w.simobjs[k].doCurrent then e.Log(i, k, false, true).With(i, Cur(k, true))
      else e.With(i, Cur(k + 1, false))
    case WaitCur => WaitStep(e, i, Apply(0, false))
    case Apply(k, busy) =>
      if k >= n then e.With(i, Count)
      else if busy then e.Log(i, k, true, false).Advance(i, k)
      else if w.simobjs[k].current == 0 && w.simobjs[k].doApply then e.Log(i, k, true, true).With(i, Apply(k, true))
      else e.Advance(i, k)
    case Count => e.(tick := if i == 0 then e.tick + 1 else e.tick).With(i, WaitApply)
    case WaitApply => WaitStep(e, i, Check)
    case Exited => e
  }

  function Step(e: Engine, c: Choice): (r: Engine)
    requires Shape(e) && c.i < |e.workers|
    ensures Shape(r) && |r.workers| == |e.workers|
  {
    match c
    case Move(i) => MoveStep(e, i)
    case Stop(i) => if InCallback(e.workers[i]) then e.(processing := false) else e
  }

  predicate Legal(n: nat, schedule: seq<Choice>) { forall k :: 0 <= k < |schedule| ==> schedule[k].i < n }

  function Exec(e: Engine, schedule: seq<Choice>): (r: Engine)
    requires Shape(e) && Legal(|e.workers|, schedule)
    ensures Shape(r) && |r.workers| == |e.workers|
    decreases |schedule|
  {
    if schedule == [] then e else Exec(Step(e, schedule[0]), schedule[1..])
  }

  // ---------------------------------------------------------------- the invariant

  /** The barriers a thread has passed tell where in the loop it is. */
  predicate WorkerOk(at: Phase, b: B.Thread) {
    match at
    case Check => b.pc.Idle? && b.completed % 2 == 0
    case Cur(_, _) => b.pc.Idle? && b.completed % 2 == 0
    case WaitCur => b.completed % 2 == 0
    case Apply(_, _) => b.pc.Idle? && b.completed % 2 == 1
    case Count => b.pc.Idle? && b.completed % 2 == 1
    case WaitApply => b.completed % 2 == 1
    case Exited => b.pc.Idle? && b.completed % 2 == 0
  }

  /** How many ticks the object `k` of a thread has been through. */
  function TicksOf(at: Phase, completed: nat, k: nat): nat {
    completed / 2 + if at.Count? || at.WaitApply? || (at.Apply? && k < at.k) then 1 else 0
  }

  ghost predicate EntriesOk(w: Worker, completed: nat) {
    forall k :: 0 <= k < |w.simobjs| ==> OnTime(w.simobjs[k], TicksOf(w.at, completed, k))
  }

  /** Thread 0 has counted the ticks it has been through. */
  predicate TickOk(e: Engine, start: nat)
    requires Shape(e) && |e.workers| > 0
  {
    var c := e.barrier.threads[0].completed;
    e.tick == start + c / 2 + if e.workers[0].at.WaitApply? then 1 else 0
  }

  ghost predicate EventOk(e: Engine, start: nat, v: Event)
    requires Shape(e)
  {
    && v.worker < |e.workers| && v.round <= e.barrier.threads[v.worker].completed
    && v.apply == (v.round % 2 == 1)
    && (!v.apply ==> v.seen == start + v.round / 2)
  }

  ghost predicate LogOk(e: Engine, start: nat)
    requires Shape(e)
  {
    && (forall k :: 0 <= k < |e.log| ==> EventOk(e, start, e.log[k]))
    && (forall j, k :: 0 <= j < k < |e.log| ==> e.log[j].round <= e.log[k].round)
  }

  ghost predicate Inv(e: Engine, start: nat) {
    && Shape(e) && B.Inv(e.barrier)
    && (forall i :: 0 <= i < |e.workers| ==> WorkerOk(e.workers[i].at, e.barrier.threads[i]))
    && (forall i :: 0 <= i < |e.workers| ==> EntriesOk(e.workers[i], e.barrier.threads[i].completed))
    && TickOk(e, start)
    && LogOk(e, start)
  }

  lemma InitInv(tasks: seq<seq<Entry>>, start: nat)
    requires 0 < |tasks| < TWO_TO_32
    requires forall i, k :: 0 <= i < |tasks| && 0 <= k < |tasks[i]| ==> OnTime(tasks[i][k], 0)
    ensures Inv(Init(tasks, start), start)
  {
    B.InitInv(|tasks|);
  }

  /** What the barrier gives at every moment. */
  lemma BarrierGap(b: B.State, i: nat, j: nat)
    requires B.Inv(b) && i < |b.threads| && j < |b.threads|
    ensures b.threads[i].completed <= b.threads[j].arrived <= b.threads[j].completed + 1
    ensures b.threads[i].pc.Idle? ==> b.threads[i].arrived == b.threads[i].completed
  {
    assert B.ThreadOk(b.threads[i], b.rounds) && B.ThreadOk(b.threads[j], b.rounds);
  }

  /** What a step of the barrier does to the counts of the thread that takes it, and to no other. */
  lemma BarrierStep(b: B.State, i: nat)
    requires i < |b.threads|
    ensures var r := B.Step(b, i);
      && (forall j :: 0 <= j < |b.threads| && j != i ==> r.threads[j] == b.threads[j])
      && r.threads[i].completed == b.threads[i].completed + (if r.threads[i].pc.Idle? then 1 else 0)
  {
  }

  lemma StepInv(e: Engine, start: nat, c: Choice)
    requires Inv(e, start) && c.i < |e.workers|
    ensures Inv(Step(e, c), start)
  {
    hide B.Inv;
    match c
    case Stop(i) =>
    case Move(i) =>
      match e.workers[i].at
      case WaitCur => WaitInv(e, start, i, Apply(0, false));
      case WaitApply => WaitInv(e, start, i, Check);
      case Apply(k, busy) => ApplyInv(e, start, i);
      case Cur(k, busy) => CurInv(e, start, i);
      case Count => CountInv(e, start, i);
      case Check => QuietInv(e, start, i, if e.processing then Cur(0, false) else Exited);
      case Exited =>
  }

  /** A thread moves on within a phase. */
  lemma QuietInv(e: Engine, start: nat, i: nat, at: Phase)
    requires Inv(e, start) && i < |e.workers| && WorkerOk(at, e.barrier.threads[i])
    requires EntriesOk(e.workers[i].(at := at), e.barrier.threads[i].completed)
    requires !at.WaitApply? && !e.workers[i].at.WaitApply?
    ensures Inv(e.With(i, at), start)
  {
    hide B.Inv, WorkerOk, EntriesOk;
    var r := e.With(i, at);
    assert forall j :: 0 <= j < |e.workers| && j != i ==> r.workers[j] == e.workers[j];
  }

  /** A callback event of a thread keeps the log in order: nobody has gone further than this thread. */
  lemma LogInv(e: Engine, start: nat, i: nat, k: nat, apply: bool, begin: bool)
    requires Inv(e, start) && i < |e.workers|
    requires if apply then e.workers[i].at.Apply? else e.workers[i].at.Cur?
    ensures Inv(e.Log(i, k, apply, begin), start)
  {
    hide B.Inv, EntriesOk;
    var b := e.barrier;
    var r := e.Log(i, k, apply, begin);
    forall j | 0 <= j < |e.log|
      ensures e.log[j].round <= b.threads[i].completed
    {
      BarrierGap(b, e.log[j].worker, i);
      BarrierGap(b, i, i);
      assert EventOk(e, start, e.log[j]);
    }
    BarrierGap(b, 0, i);
    BarrierGap(b, i, 0);
    BarrierGap(b, i, i);
    BarrierGap(b, 0, 0);
    assert WorkerOk(e.workers[0].at, b.threads[0]) && WorkerOk(e.workers[i].at, b.threads[i]);
    SameTick(b.threads[0].completed, b.threads[i].completed);
    assert EventOk(r, start, r.log[|e.log|]);
    forall j | 0 <= j < |e.log|
      ensures EventOk(r, start, r.log[j])
    {
      assert EventOk(e, start, e.log[j]) && r.log[j] == e.log[j];
    }
  }

  lemma SameTick(c: nat, d: nat)
    ensures d % 2 == 0 && d == c + 1 ==> d / 2 == c / 2 + 1 && c % 2 == 1
  {
  }

  lemma CurInv(e: Engine, start: nat, i: nat)
    requires Shape(e) && Inv(e, start) && i < |e.workers| && e.workers[i].at.Cur?
    ensures Inv(MoveStep(e, i), start)
  {
    hide Inv;
    var w := e.workers[i];
    var k := w.at.k;
    var r := e;
    if k < |w.simobjs| && (w.at.busy || (w.simobjs[k].current == 0 && w.simobjs[k].doCurrent)) {
      LogInv(e, start, i, k, false, !w.at.busy);
      r := e.Log(i, k, false, !w.at.busy);
    }
    var at := MoveStep(e, i).workers[i].at;
    CurParts(r, start, i, at);
    QuietInv(r, start, i, at);
  }

  lemma CurParts(e: Engine, start: nat, i: nat, at: Phase)
    requires Inv(e, start) && i < |e.workers| && e.workers[i].at.Cur? && (at.Cur? || at.WaitCur?)
    ensures WorkerOk(at, e.barrier.threads[i])
    ensures EntriesOk(e.workers[i].(at := at), e.barrier.threads[i].completed)
  {
    hide B.Inv, LogOk, TickOk, OnTime;
    assert EntriesOk(e.workers[i], e.barrier.threads[i].completed);
    assert WorkerOk(e.workers[i].at, e.barrier.threads[i]);
  }

  lemma ApplyInv(e: Engine, start: nat, i: nat)
    requires Shape(e) && Inv(e, start) && i < |e.workers| && e.workers[i].at.Apply?
    ensures Inv(MoveStep(e, i), start)
  {
    hide Inv;
    var w := e.workers[i];
    var k := w.at.k;
    if k >= |w.simobjs| {
      ApplyParts(e, start, i, Count);
      QuietInv(e, start, i, Count);
    } else if w.at.busy {
      LogInv(e, start, i, k, true, false);
      AdvanceInv(e.Log(i, k, true, false), start, i);
    } else if w.simobjs[k].current == 0 && w.simobjs[k].doApply {
      LogInv(e, start, i, k, true, true);
      ApplyParts(e.Log(i, k, true, true), start, i, Apply(k, true));
      QuietInv(e.Log(i, k, true, true), start, i, Apply(k, true));
    } else {
      AdvanceInv(e, start, i);
    }
  }

  lemma ApplyParts(e: Engine, start: nat, i: nat, at: Phase)
    requires Inv(e, start) && i < |e.workers| && e.workers[i].at.Apply?
    requires at == Apply(e.workers[i].at.k, true) || (at == Count && e.workers[i].at.k >= |e.workers[i].simobjs|)
    ensures WorkerOk(at, e.barrier.threads[i])
    ensures EntriesOk(e.workers[i].(at := at), e.barrier.threads[i].completed)
  {
    hide B.Inv, LogOk, TickOk, OnTime;
    assert EntriesOk(e.workers[i], e.barrier.threads[i].completed);
    assert WorkerOk(e.workers[i].at, e.barrier.threads[i]);
  }

  /** The countdown of the object just done moves on. */
  lemma AdvanceInv(e: Engine, start: nat, i: nat)
    requires Inv(e, start) && i < |e.workers| && e.workers[i].at.Apply? && e.workers[i].at.k < |e.workers[i].simobjs|
    ensures Inv(e.Advance(i, e.workers[i].at.k), start)
  {
    hide B.Inv, OnTime;
    var w := e.workers[i];
    var c := e.barrier.threads[i].completed;
    var r := e.Advance(i, w.at.k);
    NextOnTime(w.simobjs[w.at.k], c / 2);
    assert EntriesOk(w, c) && WorkerOk(w.at, e.barrier.threads[i]);
    assert EntriesOk(r.workers[i], c);
    assert forall j :: 0 <= j < |e.workers| && j != i ==> r.workers[j] == e.workers[j];
  }

  lemma CountInv(e: Engine, start: nat, i: nat)
    requires Inv(e, start) && i < |e.workers| && e.workers[i].at.Count?
    ensures Inv(MoveStep(e, i), start)
  {
    hide B.Inv, OnTime;
    var r := MoveStep(e, i);
    var c := e.barrier.threads[i].completed;
    assert EntriesOk(e.workers[i], c) && WorkerOk(e.workers[i].at, e.barrier.threads[i]);
    assert EntriesOk(r.workers[i], c);
    assert forall j :: 0 <= j < |e.workers| && j != i ==> r.workers[j] == e.workers[j];
    forall j | 0 <= j < |e.log|
      ensures EventOk(r, start, r.log[j])
    {
      assert EventOk(e, start, e.log[j]);
    }
  }

  lemma WaitInv(e: Engine, start: nat, i: nat, next: Phase)
    requires Inv(e, start) && i < |e.workers|
    requires (e.workers[i].at.WaitCur? && next == Apply(0, false)) || (e.workers[i].at.WaitApply? && next == Check)
    ensures Inv(WaitStep(e, i, next), start)
  {
    hide B.Inv, B.Step, OnTime;
    B.StepInv(e.barrier, i);
    BarrierStep(e.barrier, i);
    var r := WaitStep(e, i, next);
    var c := e.barrier.threads[i].completed;
    assert EntriesOk(e.workers[i], c) && WorkerOk(e.workers[i].at, e.barrier.threads[i]);
    SameTick(c, c + 1);
    assert EntriesOk(r.workers[i], r.barrier.threads[i].completed);
    assert forall j :: 0 <= j < |e.workers| && j != i ==> r.workers[j] == e.workers[j];
    forall j | 0 <= j < |e.log|
      ensures EventOk(r, start, r.log[j])
    {
      assert EventOk(e, start, e.log[j]);
    }
  }

  lemma {:induction false} ExecInv(e: Engine, start: nat, schedule: seq<Choice>)
    requires Shape(e) && Inv(e, start) && Legal(|e.workers|, schedule)
    ensures Inv(Exec(e, schedule), start)
    decreases |schedule|
  {
    hide Inv, Step;
    if schedule != [] {
      StepInv(e, start, schedule[0]);
      ExecInv(Step(e, schedule[0]), start, schedule[1..]);
    }
  }
}
