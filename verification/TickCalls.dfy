/** Which callbacks the simulator threads make: every object that is due, in every tick, once in each phase that it asks
    for, and nothing else (src/simroot.cpp:186-247). */
module TickCalls {
  import opened Arithmetic
  import opened TickEngine
  import opened TickRuns
  import B = SpinBarrier

  /** A callback of an object of some thread begins or ends; `round` is twice the tick, and one more for
      apply_next_tick. */
  datatype Call = Call(obj: nat, apply: bool, begin: bool, round: nat)

  predicate IsCall(v: Event, i: nat, c: Call) { v.worker == i && Call(v.obj, v.apply, v.begin, v.round) == c }

  /** How often the log has it. */
  function Times(log: seq<Event>, i: nat, c: Call): nat {
    if log == [] then 0 else Times(log[..|log| - 1], i, c) + if IsCall(log[|log| - 1], i, c) then 1 else 0
  }

  /** The part of the log that is of thread `i`. */
  function Own(log: seq<Event>, i: nat): seq<Call> {
    if log == [] then []
    else
      var v := log[|log| - 1];
      Own(log[..|log| - 1], i) + if v.worker == i then [Call(v.obj, v.apply, v.begin, v.round)] else []
  }

  // ---------------------------------------------------------------- what should be called

  /** The object is due in the tick of this round, and asks for this phase. */
  predicate Wants(x: Entry, round: nat) {
    DueAt(x.latency, round / 2) && if round % 2 == 0 then x.doCurrent else x.doApply
  }

  function ObjCalls(x: Entry, k: nat, round: nat): seq<Call> {
    if Wants(x, round) then [Call(k, round % 2 == 1, true, round), Call(k, round % 2 == 1, false, round)] else []
  }

  /** The calls of one phase, for the first `k` objects. */
  function PhaseCalls(objs: seq<Entry>, round: nat, k: nat): seq<Call>
    requires k <= |objs|
  {
    if k == 0 then [] else PhaseCalls(objs, round, k - 1) + ObjCalls(objs[k - 1], k - 1, round)
  }

  function PastCalls(objs: seq<Entry>, rounds: nat): seq<Call> {
    if rounds == 0 then [] else PastCalls(objs, rounds - 1) + PhaseCalls(objs, rounds - 1, |objs|)
  }

  /** The calls of a thread that has passed so many barriers and is at this place. */
  function Expected(objs: seq<Entry>, at: Phase, completed: nat): seq<Call> {
    PastCalls(objs, completed) +
    match at
    case Cur(k, busy) => Begun(objs, k, busy, completed)
    case Apply(k, busy) => Begun(objs, k, busy, completed)
    case WaitCur => PhaseCalls(objs, completed, |objs|)
    case Count => PhaseCalls(objs, completed, |objs|)
    case WaitApply => PhaseCalls(objs, completed, |objs|)
    case _ => []
  }

  function Begun(objs: seq<Entry>, k: nat, busy: bool, round: nat): seq<Call> {
    PhaseCalls(objs, round, Min(k, |objs|)) + if busy then [Call(k, round % 2 == 1, true, round)] else []
  }

  // ---------------------------------------------------------------- what is called

  /** The objects are those registered; only their countdowns move. */
  predicate SameObjs(now: seq<Entry>, objs: seq<Entry>) {
    && |now| == |objs|
    && forall k :: 0 <= k < |objs| ==> now[k] == objs[k].(current := now[k].current)
  }

  predicate PlaceOk(objs: seq<Entry>, at: Phase, completed: nat) {
    match at
    case Cur(k, busy) => k <= |objs| && (busy ==> k < |objs| && Wants(objs[k], completed))
    case Apply(k, busy) => k <= |objs| && (busy ==> k < |objs| && Wants(objs[k], completed))
    case _ => true
  }

  ghost predicate WorkerCalls(e: Engine, i: nat, objs: seq<Entry>)
    requires Shape(e) && i < |e.workers|
  {
    var w, c := e.workers[i], e.barrier.threads[i].completed;
    SameObjs(w.simobjs, objs) && PlaceOk(objs, w.at, c) && Own(e.log, i) == Expected(objs, w.at, c)
  }

  ghost predicate AllCalls(e: Engine, tasks: seq<seq<Entry>>)
    requires Shape(e)
  {
    |e.workers| == |tasks| && forall i :: 0 <= i < |tasks| ==> WorkerCalls(e, i, tasks[i])
  }

  lemma LogOne(e: Engine, i: nat, k: nat, apply: bool, begin: bool, j: nat)
    requires Shape(e) && i < |e.workers|
    ensures Own(e.Log(i, k, apply, begin).log, j) ==
      Own(e.log, j) + if i == j then [Call(k, apply, begin, e.barrier.threads[i].completed)] else []
  {
    var r := e.Log(i, k, apply, begin);
    assert r.log[..|e.log|] == e.log;
  }

  /** A step of one thread changes nothing of what is known of another. */
  lemma OtherCalls(e: Engine, c: Choice, j: nat, objs: seq<Entry>)
    requires Shape(e) && c.i < |e.workers| && j < |e.workers| && j != c.i && WorkerCalls(e, j, objs)
    ensures WorkerCalls(Step(e, c), j, objs)
  {
    hide B.Step, Own, Expected, Wants;
    BarrierStep(e.barrier, c.i);
    if c.Move? {
      var w := e.workers[c.i];
      if w.at.Cur? || w.at.Apply? {
        LogOne(e, c.i, w.at.k, w.at.Apply?, true, j);
        LogOne(e, c.i, w.at.k, w.at.Apply?, false, j);
        assert Own(e.log, j) + [] == Own(e.log, j);
      }
    }
  }

  lemma CurCalls(e: Engine, start: nat, i: nat, objs: seq<Entry>)
    requires Inv(e, start) && i < |e.workers| && WorkerCalls(e, i, objs) && e.workers[i].at.Cur?
    ensures WorkerCalls(MoveStep(e, i), i, objs)
  {
    hide B.Inv, LogOk, TickOk, Own, Expected, OnTime, Wants;
    var w, c := e.workers[i], e.barrier.threads[i].completed;
    assert WorkerOk(w.at, e.barrier.threads[i]) && EntriesOk(w, c);
    NextCalls(e, i, objs, w.at.k, false);
  }

  lemma ApplyCalls(e: Engine, start: nat, i: nat, objs: seq<Entry>)
    requires Inv(e, start) && i < |e.workers| && WorkerCalls(e, i, objs) && e.workers[i].at.Apply?
    ensures WorkerCalls(MoveStep(e, i), i, objs)
  {
    hide B.Inv, LogOk, TickOk, Own, Expected, OnTime, Wants;
    var w, c := e.workers[i], e.barrier.threads[i].completed;
    assert WorkerOk(w.at, e.barrier.threads[i]) && EntriesOk(w, c);
    NextCalls(e, i, objs, w.at.k, true);
  }

  function At(apply: bool, k: nat, busy: bool): Phase { if apply then Apply(k, busy) else Cur(k, busy) }

  /** What begins, and what ends, at object `k`. */
  ghost predicate ExpectedMore(objs: seq<Entry>, k: nat, apply: bool, c: nat)
    requires k < |objs|
  {
    var before := Expected(objs, At(apply, k, false), c);
    var busy := Expected(objs, At(apply, k, true), c);
    && busy == before + [Call(k, apply, true, c)]
    && Expected(objs, At(apply, k + 1, false), c) ==
         if Wants(objs[k], c) then busy + [Call(k, apply, false, c)] else before
  }

  lemma OneObject(objs: seq<Entry>, k: nat, round: nat)
    requires k < |objs|
    ensures PhaseCalls(objs, round, k + 1) == PhaseCalls(objs, round, k) + ObjCalls(objs[k], k, round)
    ensures PhaseCalls(objs, round, k) + [] == PhaseCalls(objs, round, k)
  {
  }

  lemma MoreIsExpected(objs: seq<Entry>, k: nat, apply: bool, c: nat)
    requires k < |objs| && apply == (c % 2 == 1)
    ensures ExpectedMore(objs, k, apply, c)
  {
    hide Wants, PastCalls, PhaseCalls;
    var past, phase := PastCalls(objs, c), PhaseCalls(objs, c, k);
    var b, d := Call(k, apply, true, c), Call(k, apply, false, c);
    OneObject(objs, k, c);
    assert phase + [] == phase;
    assert past + (phase + [b]) == past + phase + [b];
    assert past + (phase + [b, d]) == past + (phase + [b]) + [d];
  }

  lemma AllIsExpected(objs: seq<Entry>, apply: bool, c: nat)
    ensures Expected(objs, if apply then Count else WaitCur, c) == Expected(objs, At(apply, |objs|, false), c)
  {
    hide PastCalls, PhaseCalls;
    assert PhaseCalls(objs, c, |objs|) + [] == PhaseCalls(objs, c, |objs|);
  }

  /** The object a thread is at: whether it is called, and what its call adds. */
  lemma NextCalls(e: Engine, i: nat, objs: seq<Entry>, k: nat, apply: bool)
    requires Shape(e) && i < |e.workers| && SameObjs(e.workers[i].simobjs, objs) && k <= |objs|
    requires apply == (e.barrier.threads[i].completed % 2 == 1)
    requires k < |objs| ==> OnTime(e.workers[i].simobjs[k], e.barrier.threads[i].completed / 2)
    ensures var c := e.barrier.threads[i].completed;
      && (k < |objs| ==>
            var x := e.workers[i].simobjs[k];
            Wants(objs[k], c) <==> x.current == 0 && if apply then x.doApply else x.doCurrent)
      && (k < |objs| ==> ExpectedMore(objs, k, apply, c))
      && (k == |objs| ==>
            Expected(objs, if apply then Count else WaitCur, c) == Expected(objs, At(apply, k, false), c))
      && Own(e.Log(i, k, apply, true).log, i) == Own(e.log, i) + [Call(k, apply, true, c)]
      && Own(e.Log(i, k, apply, false).log, i) == Own(e.log, i) + [Call(k, apply, false, c)]
  {
    hide Own, Expected, ExpectedMore, OnTime, PhaseCalls;
    LogOne(e, i, k, apply, true, i);
    LogOne(e, i, k, apply, false, i);
    if k < |objs| {
      OnTimeDue(e.workers[i].simobjs[k], e.barrier.threads[i].completed / 2);
      MoreIsExpected(objs, k, apply, e.barrier.threads[i].completed);
    } else {
      AllIsExpected(objs, apply, e.barrier.threads[i].completed);
    }
  }

  lemma WaitCalls(e: Engine, start: nat, i: nat, objs: seq<Entry>)
    requires Inv(e, start) && i < |e.workers| && WorkerCalls(e, i, objs)
    requires e.workers[i].at.WaitCur? || e.workers[i].at.WaitApply?
    ensures WorkerCalls(MoveStep(e, i), i, objs)
  {
    hide B.Inv, B.Step, LogOk, TickOk, EntriesOk, Own;
    BarrierStep(e.barrier, i);
  }

  lemma CallsStep(e: Engine, start: nat, tasks: seq<seq<Entry>>, c: Choice)
    requires Shape(e) && Inv(e, start) && AllCalls(e, tasks) && c.i < |e.workers|
    ensures AllCalls(Step(e, c), tasks)
  {
    hide Inv, WorkerCalls;
    var r := Step(e, c);
    forall j | 0 <= j < |tasks|
      ensures WorkerCalls(r, j, tasks[j])
    {
      if j != c.i {
        OtherCalls(e, c, j, tasks[j]);
      } else {
        OwnStep(e, start, c, tasks[j]);
      }
    }
  }

  lemma OwnStep(e: Engine, start: nat, c: Choice, objs: seq<Entry>)
    requires Shape(e) && Inv(e, start) && c.i < |e.workers| && WorkerCalls(e, c.i, objs)
    ensures WorkerCalls(Step(e, c), c.i, objs)
  {
    hide Inv, PastCalls, PhaseCalls;
    if c.Move? {
      match e.workers[c.i].at
      case Cur(k, busy) => CurCalls(e, start, c.i, objs);
      case Apply(k, busy) => ApplyCalls(e, start, c.i, objs);
      case WaitCur => WaitCalls(e, start, c.i, objs);
      case WaitApply => WaitCalls(e, start, c.i, objs);
      case Count =>
      case Exited =>
      case Check => NoCallsYet(objs, e.barrier.threads[c.i].completed);
    }
  }

  lemma NoCallsYet(objs: seq<Entry>, round: nat)
    ensures Begun(objs, 0, false, round) == []
  {
  }

  lemma {:induction false} ExecCalls(e: Engine, start: nat, tasks: seq<seq<Entry>>, schedule: seq<Choice>)
    requires Shape(e) && Inv(e, start) && AllCalls(e, tasks) && Legal(|e.workers|, schedule)
    ensures AllCalls(Exec(e, schedule), tasks)
    decreases |schedule|
  {
    hide Inv, AllCalls, Step;
    if schedule != [] {
      StepInv(e, start, schedule[0]);
      CallsStep(e, start, tasks, schedule[0]);
      ExecCalls(Step(e, schedule[0]), start, tasks, schedule[1..]);
    }
  }

  /** Over every run: what a thread has called, in order, is what its place says it should have called. */
  lemma CallbacksExactly(tasks: seq<seq<Entry>>, start: nat, schedule: seq<Choice>, i: nat)
    requires Started(tasks) && Legal(|tasks|, schedule) && i < |tasks|
    ensures var e := Exec(Init(tasks, start), schedule);
      Own(e.log, i) == Expected(tasks[i], e.workers[i].at, e.barrier.threads[i].completed)
  {
    hide Inv, Exec, Expected;
    RunInv(tasks, start, []);
    NothingRun(Init(tasks, start));
    InitCalls(tasks, start);
    ExecCalls(Init(tasks, start), start, tasks, schedule);
    assert WorkerCalls(Exec(Init(tasks, start), schedule), i, tasks[i]);
  }

  lemma InitCalls(tasks: seq<seq<Entry>>, start: nat)
    ensures AllCalls(Init(tasks, start), tasks)
  {
  }

  // ---------------------------------------------------------------- once each

  /** The thread has begun, or ended, its call of object `k` in this round. */
  predicate HasMade(at: Phase, completed: nat, c: Call) {
    c.round < completed ||
    (c.round == completed && match at
     case Cur(k, busy) => c.obj < k || (c.obj == k && busy && c.begin)
     case Apply(k, busy) => c.obj < k || (c.obj == k && busy && c.begin)
     case WaitCur => true
     case Count => true
     case WaitApply => true
     case _ => false)
  }

  /** A call that the object asks for. */
  predicate Asked(objs: seq<Entry>, c: Call) {
    c.obj < |objs| && c.apply == (c.round % 2 == 1) && Wants(objs[c.obj], c.round)
  }

  lemma {:induction false} TimesOwn(log: seq<Event>, i: nat, c: Call)
    ensures Times(log, i, c) == multiset(Own(log, i))[c]
  {
    if log != [] {
      TimesOwn(log[..|log| - 1], i, c);
    }
  }

  lemma {:induction false} PhaseOnce(objs: seq<Entry>, round: nat, k: nat, c: Call)
    requires k <= |objs|
    ensures multiset(PhaseCalls(objs, round, k))[c] ==
      if c.round == round && c.obj < k && Asked(objs, c) then 1 else 0
  {
    hide Wants, ObjCalls;
    if k > 0 {
      PhaseOnce(objs, round, k - 1, c);
      ObjOnce(objs[k - 1], k - 1, round, c);
    }
  }

  lemma ObjOnce(x: Entry, k: nat, round: nat, c: Call)
    ensures multiset(ObjCalls(x, k, round))[c] ==
      if c.round == round && c.obj == k && c.apply == (round % 2 == 1) && Wants(x, round) then 1 else 0
  {
    hide Wants;
  }

  lemma {:induction false} PastOnce(objs: seq<Entry>, rounds: nat, c: Call)
    ensures multiset(PastCalls(objs, rounds))[c] ==
      if c.round < rounds && Asked(objs, c) then 1 else 0
  {
    hide Wants, PhaseCalls;
    if rounds > 0 {
      PastOnce(objs, rounds - 1, c);
      PhaseOnce(objs, rounds - 1, |objs|, c);
    }
  }

  lemma ExpectedOnce(objs: seq<Entry>, at: Phase, completed: nat, c: Call)
    requires PlaceOk(objs, at, completed)
    ensures multiset(Expected(objs, at, completed))[c] == if HasMade(at, completed, c) && Asked(objs, c) then 1 else 0
  {
    hide Wants, PhaseCalls, PastCalls;
    PastOnce(objs, completed, c);
    PhaseOnce(objs, completed, |objs|, c);
    if at.Cur? || at.Apply? {
      BegunOnce(objs, at.k, at.busy, completed, c);
    }
  }

  lemma BegunOnce(objs: seq<Entry>, k: nat, busy: bool, round: nat, c: Call)
    requires k <= |objs| && (busy ==> k < |objs| && Wants(objs[k], round))
    ensures multiset(Begun(objs, k, busy, round))[c] ==
      if c.round == round && (c.obj < k || (c.obj == k && busy && c.begin)) && Asked(objs, c) then 1 else 0
  {
    hide Wants, PhaseCalls;
    PhaseOnce(objs, round, k, c);
  }

  /** Over every run, for every thread, object, tick and phase: the call is begun once and ended once if the object is
      due in the tick and asks for the phase, as soon as the thread has come that far, and never otherwise. */
  lemma EachCallOnce(tasks: seq<seq<Entry>>, start: nat, schedule: seq<Choice>, i: nat, c: Call)
    requires Started(tasks) && Legal(|tasks|, schedule) && i < |tasks|
    ensures var e := Exec(Init(tasks, start), schedule);
      Times(e.log, i, c) ==
        if HasMade(e.workers[i].at, e.barrier.threads[i].completed, c) && Asked(tasks[i], c) then 1 else 0
  {
    hide Exec, Wants, PhaseCalls, PastCalls, Expected, HasMade, Asked, Inv, Own, Times;
    RunInv(tasks, start, []);
    NothingRun(Init(tasks, start));
    InitCalls(tasks, start);
    ExecCalls(Init(tasks, start), start, tasks, schedule);
    var e := Exec(Init(tasks, start), schedule);
    assert WorkerCalls(e, i, tasks[i]);
    TimesOwn(e.log, i, c);
    ExpectedOnce(tasks[i], e.workers[i].at, e.barrier.threads[i].completed, c);
  }

  /** Every call that begins is the next that ends. */
  ghost predicate InPairs(s: seq<Call>) {
    && (forall j :: 0 <= j < |s| - 1 && s[j].begin ==> s[j + 1] == s[j].(begin := false))
    && (forall j :: 0 <= j < |s| && !s[j].begin ==> j > 0 && s[j - 1] == s[j].(begin := true))
  }

  ghost predicate Closed(s: seq<Call>) { s == [] || !s[|s| - 1].begin }

  lemma PairsJoin(a: seq<Call>, b: seq<Call>)
    requires InPairs(a) && Closed(a) && InPairs(b)
    ensures InPairs(a + b) && (Closed(b) ==> Closed(a + b))
  {
  }

  lemma {:induction false} PhasePairs(objs: seq<Entry>, round: nat, k: nat)
    requires k <= |objs|
    ensures InPairs(PhaseCalls(objs, round, k)) && Closed(PhaseCalls(objs, round, k))
  {
    hide InPairs, Closed, ObjCalls;
    NoPairs();
    if k > 0 {
      PhasePairs(objs, round, k - 1);
      ObjPairs(objs[k - 1], k - 1, round);
      PairsJoin(PhaseCalls(objs, round, k - 1), ObjCalls(objs[k - 1], k - 1, round));
    }
  }

  lemma ObjPairs(x: Entry, k: nat, round: nat)
    ensures InPairs(ObjCalls(x, k, round)) && Closed(ObjCalls(x, k, round))
  {
    hide Wants;
  }

  lemma NoPairs()
    ensures InPairs([]) && Closed([])
  {
  }

  lemma {:induction false} PastPairs(objs: seq<Entry>, rounds: nat)
    ensures InPairs(PastCalls(objs, rounds)) && Closed(PastCalls(objs, rounds))
  {
    hide InPairs, Closed, PhaseCalls;
    NoPairs();
    if rounds > 0 {
      PastPairs(objs, rounds - 1);
      PhasePairs(objs, rounds - 1, |objs|);
      PairsJoin(PastCalls(objs, rounds - 1), PhaseCalls(objs, rounds - 1, |objs|));
    }
  }

  /** A thread is in one callback at a time: each ends before the next begins. */
  lemma OneAtATime(tasks: seq<seq<Entry>>, start: nat, schedule: seq<Choice>, i: nat)
    requires Started(tasks) && Legal(|tasks|, schedule) && i < |tasks|
    ensures InPairs(Own(Exec(Init(tasks, start), schedule).log, i))
  {
    hide Exec, InPairs, Closed, PastCalls, PhaseCalls;
    CallbacksExactly(tasks, start, schedule, i);
    var e := Exec(Init(tasks, start), schedule);
    var objs, at, c := tasks[i], e.workers[i].at, e.barrier.threads[i].completed;
    var none: seq<Call> := [];
    PastPairs(objs, c);
    PhasePairs(objs, c, |objs|);
    NoPairs();
    var now := if at.Cur? || at.Apply? then Begun(objs, at.k, at.busy, c)
               else if at.WaitCur? || at.Count? || at.WaitApply? then PhaseCalls(objs, c, |objs|) else none;
    if at.Cur? || at.Apply? {
      PhasePairs(objs, c, Min(at.k, |objs|));
      OneBegun(Call(at.k, c % 2 == 1, true, c));
      PairsJoin(PhaseCalls(objs, c, Min(at.k, |objs|)), if at.busy then [Call(at.k, c % 2 == 1, true, c)] else none);
    }
    PairsJoin(PastCalls(objs, c), now);
  }

  lemma OneBegun(c: Call)
    requires c.begin
    ensures InPairs([c])
  {
  }
}
