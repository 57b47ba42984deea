/** What every run of the tick loop keeps: two exclusive phases, one tick for everybody, and an orderly end
    (src/simroot.cpp:186-247, 290-292). */
module TickRuns {
  import opened Arithmetic
  import opened TickEngine
  import B = SpinBarrier

  // ---------------------------------------------------------------- two phases

  ghost predicate Started(tasks: seq<seq<Entry>>) {
    && 0 < |tasks| < TWO_TO_32
    && forall i, k :: 0 <= i < |tasks| && 0 <= k < |tasks[i]| ==>
         exists l, c, a :: tasks[i][k] == NewEntry(l, c, a)
  }

  lemma RunInv(tasks: seq<seq<Entry>>, start: nat, schedule: seq<Choice>)
    requires Started(tasks) && Legal(|tasks|, schedule)
    ensures Inv(Exec(Init(tasks, start), schedule), start)
  {
    forall i, k | 0 <= i < |tasks| && 0 <= k < |tasks[i]|
      ensures OnTime(tasks[i][k], 0)
    {
      var l, c, a :| tasks[i][k] == NewEntry(l, c, a);
    }
    InitInv(tasks, start);
    ExecInv(Init(tasks, start), start, schedule);
  }

  /** At no moment is one thread in its apply_next_tick phase and another in its on_current_tick phase, and
      all threads in the on_current_tick phase see the same current_tick. */
  lemma PhasesExclusive(tasks: seq<seq<Entry>>, start: nat, schedule: seq<Choice>, i: nat, j: nat)
    requires Started(tasks) && Legal(|tasks|, schedule) && i < |tasks| && j < |tasks|
    ensures var e := Exec(Init(tasks, start), schedule);
      && !(e.workers[i].at.Cur? && e.workers[j].at.Apply?)
      && (e.workers[i].at.Cur? ==> e.tick == start + e.barrier.threads[i].completed / 2)
      && (e.workers[i].at.Cur? && e.workers[j].at.Cur? ==>
            e.barrier.threads[i].completed == e.barrier.threads[j].completed)
  {
    hide EntriesOk, LogOk, B.Inv, Exec;
    RunInv(tasks, start, schedule);
    var e := Exec(Init(tasks, start), schedule);
    BarrierGap(e.barrier, i, j);
    BarrierGap(e.barrier, j, i);
    BarrierGap(e.barrier, i, i);
    BarrierGap(e.barrier, j, j);
    BarrierGap(e.barrier, i, 0);
    BarrierGap(e.barrier, 0, i);
    BarrierGap(e.barrier, 0, 0);
    assert WorkerOk(e.workers[i].at, e.barrier.threads[i]);
    assert WorkerOk(e.workers[j].at, e.barrier.threads[j]);
    assert WorkerOk(e.workers[0].at, e.barrier.threads[0]);
  }

  /** The callbacks of a whole run, by all threads, in the order in which they begin and end: first all
      on_current_tick calls of a tick, then all its apply_next_tick calls, then the next tick. */
  lemma CallbacksInOrder(tasks: seq<seq<Entry>>, start: nat, schedule: seq<Choice>, j: nat, k: nat)
    requires Started(tasks) && Legal(|tasks|, schedule)
    requires j < k < |Exec(Init(tasks, start), schedule).log|
    ensures var log := Exec(Init(tasks, start), schedule).log;
      var t, u := log[j].round / 2, log[k].round / 2;
      && t <= u && (t == u && log[j].apply ==> log[k].apply)
      && (!log[j].apply ==> log[j].seen == start + t)
  {
    hide EntriesOk, B.Inv, Exec, TickOk;
    RunInv(tasks, start, schedule);
    var e := Exec(Init(tasks, start), schedule);
    assert EventOk(e, start, e.log[j]) && EventOk(e, start, e.log[k]);
    assert e.log[j].round <= e.log[k].round;
  }

  /** The countdown of an object is at zero in both phases of the same ticks: one tick in `latency`. */
  lemma ObjectsOnTime(tasks: seq<seq<Entry>>, start: nat, schedule: seq<Choice>, i: nat, k: nat)
    requires Started(tasks) && Legal(|tasks|, schedule) && i < |tasks|
    ensures var e := Exec(Init(tasks, start), schedule);
      var w, t := e.workers[i], e.barrier.threads[i].completed / 2;
      (w.at.Cur? || (w.at.Apply? && w.at.k == k)) && k < |w.simobjs| && w.simobjs[k].latency > 0 ==>
        (w.simobjs[k].current == 0 <==> (t + 1) % w.simobjs[k].latency == 0)
  {
    hide LogOk, B.Inv, Exec, TickOk;
    RunInv(tasks, start, schedule);
    var e := Exec(Init(tasks, start), schedule);
    var w, t := e.workers[i], e.barrier.threads[i].completed / 2;
    assert EntriesOk(w, e.barrier.threads[i].completed);
    if k < |w.simobjs| && w.simobjs[k].latency > 0 {
      assert OnTime(w.simobjs[k], TicksOf(w.at, e.barrier.threads[i].completed, k));
      Countdown(t, w.simobjs[k].latency);
    }
  }

  // ---------------------------------------------------------------- stopping

  /** Where a thread may be once the stop in tick `t` has been seen or will be seen. */
  predicate Leaving(at: Phase, completed: nat, t: nat) {
    match at
    case Cur(_, _) => completed == 2 * t
    case WaitCur => completed == 2 * t
    case Apply(_, _) => completed == 2 * t + 1
    case Count => completed == 2 * t + 1
    case WaitApply => completed == 2 * t + 1
    case Check => completed == 2 * t + 2
    case Exited => completed == 2 * t + 2
  }

  /** Everybody will leave the loop after tick `t`. */
  ghost predicate Orderly(e: Engine, t: nat)
    requires Shape(e)
  {
    !e.processing && forall i :: 0 <= i < |e.workers| ==> Leaving(e.workers[i].at, e.barrier.threads[i].completed, t)
  }

  /** Running: nobody has been told to stop. */
  ghost predicate Running(e: Engine) {
    e.processing && forall i :: 0 <= i < |e.workers| ==> !e.workers[i].at.Exited?
  }

  lemma OrderlyStep(e: Engine, start: nat, t: nat, c: Choice)
    requires Inv(e, start) && Orderly(e, t) && c.i < |e.workers|
    ensures Orderly(Step(e, c), t)
  {
    hide B.Inv, B.Step, EntriesOk, LogOk, TickOk;
    var r := Step(e, c);
    BarrierStep(e.barrier, c.i);
    assert Leaving(e.workers[c.i].at, e.barrier.threads[c.i].completed, t);
    forall j | 0 <= j < |e.workers|
      ensures Leaving(r.workers[j].at, r.barrier.threads[j].completed, t)
    {
      assert Leaving(e.workers[j].at, e.barrier.threads[j].completed, t);
      assert WorkerOk(e.workers[c.i].at, e.barrier.threads[c.i]);
    }
  }

  lemma {:induction false} OrderlyExec(e: Engine, start: nat, t: nat, schedule: seq<Choice>)
    requires Shape(e) && Inv(e, start) && Orderly(e, t) && Legal(|e.workers|, schedule)
    ensures Orderly(Exec(e, schedule), t)
    decreases |schedule|
  {
    hide Inv, Step, Orderly;
    if schedule != [] {
      StepInv(e, start, schedule[0]);
      OrderlyStep(e, start, t, schedule[0]);
      OrderlyExec(Step(e, schedule[0]), start, t, schedule[1..]);
    }
  }

  /** Some thread has yet to look at is_processing for the tick that thread `i` is in the middle of. */
  ghost predicate SomebodyBehind(e: Engine, i: nat)
    requires i < |e.workers|
  {
    e.workers[i].at.Cur? && exists j :: 0 <= j < |e.workers| && (e.workers[j].at.Check? || e.workers[j].at.WaitApply?)
  }

  /** Exactly when stop_sim_and_exit, called from inside a callback, ends the run properly. From an
      apply_next_tick callback it always does. From an on_current_tick callback it does just when every
      thread has entered the tick; otherwise the calling thread never gets out of its barrier. */
  lemma StopExactly(e: Engine, start: nat, i: nat)
    requires Shape(e) && Inv(e, start) && Running(e) && i < |e.workers|
    requires (e.workers[i].at.Cur? || e.workers[i].at.Apply?) && e.workers[i].at.busy
    ensures !Step(e, Stop(i)).processing
    ensures e.workers[i].at.Apply? ==> !SomebodyBehind(e, i)
    ensures !SomebodyBehind(e, i) ==>
      forall schedule :: Legal(|e.workers|, schedule) ==>
        Orderly(Exec(Step(e, Stop(i)), schedule), e.barrier.threads[i].completed / 2)
    ensures SomebodyBehind(e, i) ==>
      forall schedule :: Legal(|e.workers|, schedule) ==> !Exec(Step(e, Stop(i)), schedule).workers[i].at.Exited?
  {
    hide Inv, Exec, Orderly;
    var r := Step(e, Stop(i));
    StepInv(e, start, Stop(i));
    if SomebodyBehind(e, i) {
      var j := WhoIsBehind(e, start, i);
      forall schedule | Legal(|e.workers|, schedule)
        ensures !Exec(r, schedule).workers[i].at.Exited?
      {
        LostExec(r, start, i, j, e.barrier.threads[i].completed, schedule);
      }
    } else {
      NobodyBehind(e, start, i);
      forall schedule | Legal(|e.workers|, schedule)
        ensures Orderly(Exec(r, schedule), e.barrier.threads[i].completed / 2)
      {
        OrderlyExec(r, start, e.barrier.threads[i].completed / 2, schedule);
      }
    }
  }

  /** Two threads: the first calls stop_sim_and_exit from its first on_current_tick while the second has
      yet to enter the loop. The first thread then never gets out of its barrier. */
  lemma StopTooEarly(schedule: seq<Choice>)
    requires Legal(2, schedule)
    ensures var tasks := [[NewEntry(1, true, true)], []];
      var e := Exec(Init(tasks, 0), [Move(0), Move(0), Stop(0)]);
      Started(tasks) && e.barrier.threads[0].pc.Idle? && !Exec(e, schedule).workers[0].at.Exited?
  {
    hide Inv;
    var tasks := [[NewEntry(1, true, true)], []];
    assert Started(tasks);
    var e0 := Init(tasks, 0);
    var e1 := Step(e0, Move(0));
    var e2 := Step(e1, Move(0));
    var e3 := Step(e2, Stop(0));
    assert Exec(e0, [Move(0), Move(0), Stop(0)]) == e3 by {
      ThreeSteps(e0, Move(0), Move(0), Stop(0));
    }
    RunInv(tasks, 0, []);
    NothingRun(e0);
    StepInv(e0, 0, Move(0));
    StepInv(e1, 0, Move(0));
    assert e2.workers[0].at == Cur(0, true) && e2.workers[1].at == Check;
    assert SomebodyBehind(e2, 0);
    StopExactly(e2, 0, 0);
  }

  lemma ThreeSteps(e: Engine, a: Choice, b: Choice, c: Choice)
    requires Shape(e) && a.i < |e.workers| && b.i < |e.workers| && c.i < |e.workers|
    ensures Legal(|e.workers|, [a, b, c]) && Exec(e, [a, b, c]) == Step(Step(Step(e, a), b), c)
  {
    hide Step, Exec;
    assert [a, b, c] == [a] + [b, c] && [b, c] == [b] + [c] && [c] == [c] + [];
    var e1 := Step(e, a);
    var e2 := Step(e1, b);
    FirstStep(e, a, [b, c]);
    FirstStep(e1, b, [c]);
    FirstStep(e2, c, []);
    NothingRun(Step(e2, c));
  }

  lemma FirstStep(e: Engine, c: Choice, rest: seq<Choice>)
    requires Shape(e) && c.i < |e.workers| && Legal(|e.workers|, rest)
    ensures Legal(|e.workers|, [c] + rest) && Exec(e, [c] + rest) == Exec(Step(e, c), rest)
  {
    hide Step;
    assert ([c] + rest)[1..] == rest;
  }

  lemma NobodyBehind(e: Engine, start: nat, i: nat)
    requires Inv(e, start) && Running(e) && i < |e.workers| && InCallback(e.workers[i]) && !SomebodyBehind(e, i)
    ensures Orderly(Step(e, Stop(i)), e.barrier.threads[i].completed / 2)
  {
    hide B.Inv, EntriesOk, LogOk, TickOk;
    forall j | 0 <= j < |e.workers|
      ensures Leaving(e.workers[j].at, e.barrier.threads[j].completed, e.barrier.threads[i].completed / 2)
    {
      BarrierGap(e.barrier, i, j);
      BarrierGap(e.barrier, j, i);
      BarrierGap(e.barrier, i, i);
      BarrierGap(e.barrier, j, j);
      assert WorkerOk(e.workers[j].at, e.barrier.threads[j]);
      assert WorkerOk(e.workers[i].at, e.barrier.threads[i]);
    }
  }

  /** Thread `i` is before the barrier number `c`, which thread `j` will never reach. */
  ghost predicate Lost(e: Engine, i: nat, j: nat, c: nat)
    requires Shape(e)
  {
    && i < |e.workers| && j < |e.workers| && i != j && !e.processing
    && (e.workers[i].at.Cur? || e.workers[i].at.WaitCur?) && e.barrier.threads[i].completed == c
    && match e.workers[j].at
       case Check => e.barrier.threads[j].completed == c
       case Exited => e.barrier.threads[j].completed == c
       case WaitApply => e.barrier.threads[j].completed + 1 == c
       case _ => false
  }

  lemma WhoIsBehind(e: Engine, start: nat, i: nat) returns (j: nat)
    requires Inv(e, start) && i < |e.workers| && InCallback(e.workers[i]) && SomebodyBehind(e, i)
    ensures Lost(Step(e, Stop(i)), i, j, e.barrier.threads[i].completed)
  {
    hide B.Inv, EntriesOk, LogOk, TickOk;
    j :| 0 <= j < |e.workers| && (e.workers[j].at.Check? || e.workers[j].at.WaitApply?);
    BarrierGap(e.barrier, i, j);
    BarrierGap(e.barrier, j, i);
    BarrierGap(e.barrier, i, i);
    BarrierGap(e.barrier, j, j);
    assert WorkerOk(e.workers[j].at, e.barrier.threads[j]);
    assert WorkerOk(e.workers[i].at, e.barrier.threads[i]);
  }

  /** What the invariant says of two threads. */
  ghost predicate PairOk(e: Engine, i: nat, j: nat)
    requires Shape(e) && i < |e.workers| && j < |e.workers|
  {
    var ts := e.barrier.threads;
    && WorkerOk(e.workers[i].at, ts[i]) && WorkerOk(e.workers[j].at, ts[j])
    && ts[i].completed <= ts[j].arrived <= ts[j].completed + 1 && (ts[j].pc.Idle? ==> ts[j].arrived == ts[j].completed)
  }

  lemma InvPair(e: Engine, start: nat, i: nat, j: nat)
    requires Inv(e, start) && i < |e.workers| && j < |e.workers|
    ensures PairOk(e, i, j)
  {
    hide B.Inv, EntriesOk, LogOk, TickOk;
    BarrierGap(e.barrier, i, j);
    BarrierGap(e.barrier, j, j);
  }

  lemma LostStep(e: Engine, i: nat, j: nat, c: nat, choice: Choice)
    requires Shape(e) && choice.i < |e.workers| && Lost(e, i, j, c) && PairOk(e, i, j) && PairOk(Step(e, choice), i, j)
    ensures Lost(Step(e, choice), i, j, c)
  {
    hide B.Step;
    BarrierStep(e.barrier, choice.i);
  }

  lemma {:induction false} LostExec(e: Engine, start: nat, i: nat, j: nat, c: nat, schedule: seq<Choice>)
    requires Shape(e) && Inv(e, start) && Lost(e, i, j, c) && Legal(|e.workers|, schedule)
    ensures !Exec(e, schedule).workers[i].at.Exited?
    decreases |schedule|
  {
    hide Inv, Step;
    if schedule != [] {
      StepInv(e, start, schedule[0]);
      InvPair(e, start, i, j);
      InvPair(Step(e, schedule[0]), start, i, j);
      LostStep(e, i, j, c, schedule[0]);
      LostExec(Step(e, schedule[0]), start, i, j, c, schedule[1..]);
    }
  }

  // ---------------------------------------------------------------- whole runs

  /** stop_sim_and_exit is called only from apply_next_tick callbacks. */
  ghost predicate StopsInApply(e: Engine, schedule: seq<Choice>)
    requires Shape(e) && Legal(|e.workers|, schedule)
    decreases |schedule|
  {
    schedule == [] ||
    ((schedule[0].Stop? ==> e.workers[schedule[0].i].at.Apply?) && StopsInApply(Step(e, schedule[0]), schedule[1..]))
  }

  lemma RunningStep(e: Engine, start: nat, c: Choice)
    requires Shape(e) && Inv(e, start) && Running(e) && c.i < |e.workers|
    requires c.Stop? ==> e.workers[c.i].at.Apply?
    ensures Running(Step(e, c)) || exists t: nat :: Orderly(Step(e, c), t)
  {
    hide Inv, Orderly, Exec;
    if c.Stop? && InCallback(e.workers[c.i]) {
      StopExactly(e, start, c.i);
      assert Legal(|e.workers|, []);
      assert Exec(Step(e, c), []) == Step(e, c) by {
        NothingRun(Step(e, c));
      }
      assert Orderly(Step(e, c), e.barrier.threads[c.i].completed / 2);
    }
  }

  lemma NothingRun(e: Engine)
    requires Shape(e)
    ensures Exec(e, []) == e
  {
  }

  lemma {:induction false} OrderlyRuns(e: Engine, start: nat, schedule: seq<Choice>)
    requires Shape(e) && Inv(e, start) && Legal(|e.workers|, schedule) && StopsInApply(e, schedule)
    requires Running(e) || exists t: nat :: Orderly(e, t)
    ensures var r := Exec(e, schedule); Running(r) || exists t: nat :: Orderly(r, t)
    decreases |schedule|
  {
    hide Inv, Step, Orderly, Running;
    if schedule != [] {
      StepInv(e, start, schedule[0]);
      if Running(e) {
        RunningStep(e, start, schedule[0]);
      } else {
        var t: nat :| Orderly(e, t);
        OrderlyStep(e, start, t, schedule[0]);
      }
      OrderlyRuns(Step(e, schedule[0]), start, schedule[1..]);
    }
  }

  /** In every run that is stopped from the apply phase only, all threads that leave have gone through the
      same number of ticks, and current_tick has counted them. */
  lemma SameNumberOfTicks(tasks: seq<seq<Entry>>, start: nat, schedule: seq<Choice>, i: nat, j: nat)
    requires Started(tasks) && Legal(|tasks|, schedule) && StopsInApply(Init(tasks, start), schedule)
    requires i < |tasks| && j < |tasks|
    ensures var e := Exec(Init(tasks, start), schedule);
      e.workers[i].at.Exited? && e.workers[j].at.Exited? ==>
        && e.barrier.threads[i].completed == e.barrier.threads[j].completed
        && e.tick == start + e.barrier.threads[i].completed / 2
  {
    hide Exec, StopsInApply, EntriesOk, LogOk, B.Inv;
    RunInv(tasks, start, schedule);
    RunInv(tasks, start, []);
    NothingRun(Init(tasks, start));
    assert Running(Init(tasks, start));
    OrderlyRuns(Init(tasks, start), start, schedule);
    var e := Exec(Init(tasks, start), schedule);
    if e.workers[i].at.Exited? && e.workers[j].at.Exited? {
      var t: nat :| Orderly(e, t);
      assert Leaving(e.workers[i].at, e.barrier.threads[i].completed, t);
      assert Leaving(e.workers[j].at, e.barrier.threads[j].completed, t);
      assert Leaving(e.workers[0].at, e.barrier.threads[0].completed, t);
      BarrierGap(e.barrier, i, 0);
      BarrierGap(e.barrier, 0, 0);
      assert WorkerOk(e.workers[0].at, e.barrier.threads[0]);
      assert TickOk(e, start);
    }
  }

  // ---------------------------------------------------------------- nobody is left in a barrier

  /** No thread can do anything but leave a spin loop alone. */
  predicate Halted(e: Engine)
    requires Shape(e)
  {
    forall i :: 0 <= i < |e.workers| ==>
      e.workers[i].at.Exited? || ((e.workers[i].at.WaitCur? || e.workers[i].at.WaitApply?) && B.Waits(e.barrier, i))
  }

  lemma HaltedIsStuck(e: Engine, start: nat)
    requires Inv(e, start) && Halted(e)
    ensures B.Stuck(e.barrier)
    ensures exists j :: 0 <= j < |e.workers| && e.workers[j].at.Exited? && e.barrier.threads[j].pc.Idle?
  {
    hide B.Inv, EntriesOk, LogOk, TickOk;
    forall i | 0 <= i < |e.workers|
      ensures e.barrier.threads[i].pc.Idle? || B.Waits(e.barrier, i)
    {
      assert WorkerOk(e.workers[i].at, e.barrier.threads[i]);
    }
    B.StuckWaitsForCallers(e.barrier);
    var j :| 0 <= j < |e.workers| && e.barrier.threads[j].pc.Idle?;
    assert e.workers[j].at.Exited?;
  }

  /** While the simulation runs, some thread can always move. */
  lemma NeverHalted(e: Engine, start: nat)
    requires Shape(e) && Inv(e, start) && Running(e)
    ensures !Halted(e)
  {
    hide Inv;
    if Halted(e) {
      HaltedIsStuck(e, start);
    }
  }

  /** After a proper stop, a state in which nobody can move is one in which everybody has left. */
  lemma AllLeave(e: Engine, start: nat, t: nat)
    requires Inv(e, start) && Orderly(e, t) && Halted(e)
    ensures forall i :: 0 <= i < |e.workers| ==> e.workers[i].at.Exited?
  {
    hide EntriesOk, LogOk, TickOk, B.Inv;
    HaltedIsStuck(e, start);
    B.StuckWaitsForCallers(e.barrier);
    var j :| 0 <= j < |e.workers| && e.workers[j].at.Exited? && e.barrier.threads[j].pc.Idle?;
    BarrierGap(e.barrier, j, j);
    assert Leaving(e.workers[j].at, e.barrier.threads[j].completed, t);
    forall i | 0 <= i < |e.workers|
      ensures e.workers[i].at.Exited?
    {
      BarrierGap(e.barrier, i, i);
      assert Leaving(e.workers[i].at, e.barrier.threads[i].completed, t);
    }
  }

  function InBarrier(pc: B.Pc): nat {
    match pc
    case Idle => 5
    case Loaded(_) => 4
    case Last(_) => 3
    case Cleared(_) => 2
    case Spin(_) => 1
  }

  /** Bounds the steps a thread can still take once it has been told to stop. */
  function StepsLeft(w: Worker, pc: B.Pc): nat {
    var n := |w.simobjs|;
    match w.at
    case Exited => 0
    case Check => 1
    case WaitApply => 1 + InBarrier(pc)
    case Count => 7
    case Apply(k, busy) => 8 + (if k >= n then 0 else 2 * (n - k) - (if busy then 1 else 0))
    case WaitCur => 8 + 2 * n + InBarrier(pc)
    case Cur(k, busy) => 14 + 2 * n + (if k >= n then 0 else 2 * (n - k) - (if busy then 1 else 0))
  }

  function AllLeft(ws: seq<Worker>, ts: seq<B.Thread>): nat
    requires |ws| == |ts|
  {
    if ws == [] then 0 else AllLeft(ws[..|ws| - 1], ts[..|ws| - 1]) + StepsLeft(ws[|ws| - 1], ts[|ws| - 1].pc)
  }

  lemma {:induction false} AllLeftUpdate(ws: seq<Worker>, ts: seq<B.Thread>, i: nat, w: Worker, t: B.Thread)
    requires i < |ws| == |ts|
    ensures AllLeft(ws[i := w], ts[i := t]) == AllLeft(ws, ts) - StepsLeft(ws[i], ts[i].pc) + StepsLeft(w, t.pc)
  {
    hide StepsLeft;
    var k := |ws| - 1;
    if i == k {
      assert ws[i := w][..k] == ws[..k] && ts[i := t][..k] == ts[..k];
    } else {
      AllLeftUpdate(ws[..k], ts[..k], i, w, t);
      assert ws[i := w][..k] == ws[..k][i := w] && ts[i := t][..k] == ts[..k][i := t];
    }
  }

  /** A step that does something. */
  predicate Useful(e: Engine, c: Choice)
    requires Shape(e) && c.i < |e.workers|
  {
    var at := e.workers[c.i].at;
    c.Move? && !at.Exited? && ((at.WaitCur? || at.WaitApply?) ==> !B.Waits(e.barrier, c.i))
  }

  ghost predicate UsefulRun(e: Engine, schedule: seq<Choice>)
    requires Shape(e) && Legal(|e.workers|, schedule)
    decreases |schedule|
  {
    schedule == [] || (Useful(e, schedule[0]) && UsefulRun(Step(e, schedule[0]), schedule[1..]))
  }

  lemma UsefulStep(e: Engine, c: Choice)
    requires Shape(e) && !e.processing && c.i < |e.workers| && Useful(e, c)
    ensures var r := Step(e, c);
      !r.processing && AllLeft(r.workers, r.barrier.threads) < AllLeft(e.workers, e.barrier.threads)
  {
    hide AllLeft, StepsLeft, Step, Useful;
    var r := Step(e, c);
    MovesOne(e, c);
    OneStepLess(e, c);
    AllLeftUpdate(e.workers, e.barrier.threads, c.i, r.workers[c.i], r.barrier.threads[c.i]);
  }

  /** A step changes nothing of the other threads. */
  lemma MovesOne(e: Engine, c: Choice)
    requires Shape(e) && c.i < |e.workers|
    ensures var r := Step(e, c);
      && r.workers == e.workers[c.i := r.workers[c.i]]
      && r.barrier.threads == e.barrier.threads[c.i := r.barrier.threads[c.i]]
  {
    hide MoveStep;
    if c.Move? {
      MoveOnly(e, c.i);
    }
  }

  lemma MoveOnly(e: Engine, i: nat)
    requires Shape(e) && i < |e.workers|
    ensures var r := MoveStep(e, i);
      && r.workers == e.workers[i := r.workers[i]]
      && r.barrier.threads == e.barrier.threads[i := r.barrier.threads[i]]
  {
    hide B.Step;
    BarrierStep(e.barrier, i);
  }

  lemma OneStepLess(e: Engine, c: Choice)
    requires Shape(e) && !e.processing && c.i < |e.workers| && Useful(e, c)
    ensures var r := Step(e, c);
      && !r.processing
      && StepsLeft(r.workers[c.i], r.barrier.threads[c.i].pc) < StepsLeft(e.workers[c.i], e.barrier.threads[c.i].pc)
  {
  }

  /** After a proper stop in tick `t` only so many steps are left, and when they have been taken, in whatever
      order, every thread has left the loop, none of them sooner or later than after tick `t`. */
  lemma {:induction false} StopTakesEffect(e: Engine, start: nat, t: nat, schedule: seq<Choice>)
    requires Shape(e) && Inv(e, start) && Orderly(e, t) && Legal(|e.workers|, schedule) && UsefulRun(e, schedule)
    ensures |schedule| <= AllLeft(e.workers, e.barrier.threads)
    ensures var r := Exec(e, schedule);
      Halted(r) ==> forall i :: 0 <= i < |r.workers| ==>
        r.workers[i].at.Exited? && r.barrier.threads[i].completed == 2 * t + 2
    decreases |schedule|
  {
    hide Inv, Step, StepsLeft, AllLeft;
    var r := Exec(e, schedule);
    if schedule == [] {
      if Halted(r) {
        AllLeave(e, start, t);
        assert forall i :: 0 <= i < |r.workers| ==> Leaving(e.workers[i].at, e.barrier.threads[i].completed, t);
      }
    } else {
      StepInv(e, start, schedule[0]);
      OrderlyStep(e, start, t, schedule[0]);
      UsefulStep(e, schedule[0]);
      StopTakesEffect(Step(e, schedule[0]), start, t, schedule[1..]);
      assert r == Exec(Step(e, schedule[0]), schedule[1..]);
    }
  }
}
