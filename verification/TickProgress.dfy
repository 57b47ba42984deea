/** The simulation goes on: as long as nobody stops it, any long enough schedule of steps that do something takes every
    thread through as many ticks as one likes (src/simroot.cpp:186-247). */
module TickProgress {
  import opened Arithmetic
  import opened TickEngine
  import opened TickRuns
  import opened TickCalls
  import B = SpinBarrier

  /** More steps than these no thread with `n` objects takes from one barrier to the next. */
  function RoundSteps(n: nat): nat { 2 * n + 7 }

  /** The steps a thread can still take before it is through its next barrier. */
  function ToGo(at: Phase, n: nat, pc: B.Pc): (k: nat)
    ensures k <= RoundSteps(n)
  {
    match at
    case Check => 7 + 2 * n
    case Cur(k, busy) => 6 + (if k >= n then 0 else 2 * (n - k) - (if busy then 1 else 0))
    case WaitCur => InBarrier(pc)
    case Apply(k, busy) => 7 + (if k >= n then 0 else 2 * (n - k) - (if busy then 1 else 0))
    case Count => 6
    case WaitApply => InBarrier(pc)
    case Exited => 0
  }

  /** The steps a thread has taken at least. */
  function Spent(w: Worker, t: B.Thread): nat {
    MulMono(1, t.completed + 1, RoundSteps(|w.simobjs|));
    (t.completed + 1) * RoundSteps(|w.simobjs|) - ToGo(w.at, |w.simobjs|, t.pc)
  }

  function AllSpent(ws: seq<Worker>, ts: seq<B.Thread>): nat
    requires |ws| == |ts|
  {
    if ws == [] then 0 else AllSpent(ws[..|ws| - 1], ts[..|ws| - 1]) + Spent(ws[|ws| - 1], ts[|ws| - 1])
  }

  lemma {:induction false} AllSpentUpdate(ws: seq<Worker>, ts: seq<B.Thread>, i: nat, w: Worker, t: B.Thread)
    requires i < |ws| == |ts|
    ensures AllSpent(ws[i := w], ts[i := t]) == AllSpent(ws, ts) - Spent(ws[i], ts[i]) + Spent(w, t)
  {
    hide Spent;
    var k := |ws| - 1;
    if i == k {
      assert ws[i := w][..k] == ws[..k] && ts[i := t][..k] == ts[..k];
    } else {
      AllSpentUpdate(ws[..k], ts[..k], i, w, t);
      assert ws[i := w][..k] == ws[..k][i := w] && ts[i := t][..k] == ts[..k][i := t];
    }
  }

  /** Within a round a useful step brings the thread closer to the end of it, or it ends it. */
  lemma Closer(e: Engine, i: nat)
    requires Shape(e) && e.processing && i < |e.workers| && Useful(e, Move(i))
    ensures var r := Step(e, Move(i));
      var n, c := |e.workers[i].simobjs|, e.barrier.threads[i].completed;
      && r.processing && |r.workers[i].simobjs| == n
      && var was, now := ToGo(e.workers[i].at, n, e.barrier.threads[i].pc),
                         ToGo(r.workers[i].at, n, r.barrier.threads[i].pc);
         || (r.barrier.threads[i].completed == c && now < was)
         || (r.barrier.threads[i].completed == c + 1 && was > 0)
  {
  }

  lemma SpendsOne(e: Engine, i: nat)
    requires Shape(e) && e.processing && i < |e.workers| && Useful(e, Move(i))
    ensures var r := Step(e, Move(i));
      r.processing && Spent(r.workers[i], r.barrier.threads[i]) > Spent(e.workers[i], e.barrier.threads[i])
  {
    hide Step, Useful, ToGo, RoundSteps;
    Closer(e, i);
    var s, c := RoundSteps(|e.workers[i].simobjs|), e.barrier.threads[i].completed;
    assert (c + 1 + 1) * s == (c + 1) * s + s;
  }

  lemma {:induction false} RunSpends(e: Engine, schedule: seq<Choice>)
    requires Shape(e) && e.processing && Legal(|e.workers|, schedule) && UsefulRun(e, schedule)
    ensures var r := Exec(e, schedule);
      r.processing && |schedule| + AllSpent(e.workers, e.barrier.threads) <= AllSpent(r.workers, r.barrier.threads)
    decreases |schedule|
  {
    hide Step, Useful, AllSpent;
    if schedule != [] {
      var c := schedule[0];
      var r := Step(e, c);
      IsMove(e, c);
      MovesOne(e, c);
      SpendsOne(e, c.i);
      AllSpentUpdate(e.workers, e.barrier.threads, c.i, r.workers[c.i], r.barrier.threads[c.i]);
      RunSpends(r, schedule[1..]);
      assert Exec(e, schedule) == Exec(r, schedule[1..]);
    }
  }

  lemma IsMove(e: Engine, c: Choice)
    requires Shape(e) && c.i < |e.workers| && Useful(e, c)
    ensures c == Move(c.i)
  {
  }

  /** All threads together, in one round. */
  function AllSteps(tasks: seq<seq<Entry>>): nat {
    if tasks == [] then 0 else AllSteps(tasks[..|tasks| - 1]) + RoundSteps(|tasks[|tasks| - 1]|)
  }

  lemma {:induction false} SpentAtMost(ws: seq<Worker>, ts: seq<B.Thread>, tasks: seq<seq<Entry>>, c: nat)
    requires |ws| == |ts| == |tasks|
    requires forall i :: 0 <= i < |ws| ==> |ws[i].simobjs| == |tasks[i]| && ts[i].completed <= c
    ensures AllSpent(ws, ts) <= (c + 1) * AllSteps(tasks)
  {
    hide RoundSteps, ToGo;
    if ws != [] {
      var k := |ws| - 1;
      SpentAtMost(ws[..k], ts[..k], tasks[..k], c);
      var s := RoundSteps(|tasks[k]|);
      MulMono(ts[k].completed + 1, c + 1, s);
      Distrib(c + 1, AllSteps(tasks[..k]), s);
    } else {
      assert (c + 1) * 0 == 0;
    }
  }

  /** Nobody can move exactly when no step is useful. */
  lemma HaltedExactly(e: Engine)
    requires Shape(e)
    ensures Halted(e) <==> forall i :: 0 <= i < |e.workers| ==> !Useful(e, Move(i))
    ensures forall c: Choice :: c.i < |e.workers| && Useful(e, c) && e.processing ==> Step(e, c) != e
  {
    hide B.Waits, Step;
    forall i | 0 <= i < |e.workers|
      ensures Useful(e, Move(i)) <==>
        var at := e.workers[i].at;
        !(at.Exited? || ((at.WaitCur? || at.WaitApply?) && B.Waits(e.barrier, i)))
    {
    }
    forall c: Choice | c.i < |e.workers| && Useful(e, c) && e.processing
      ensures Step(e, c) != e
    {
      IsMove(e, c);
      SpendsOne(e, c.i);
    }
  }

  /** As long as nobody calls stop_sim_and_exit there is always a step that does something, and any schedule of more
      than so many of them takes every thread through `t` ticks. */
  lemma TicksGoOn(tasks: seq<seq<Entry>>, start: nat, schedule: seq<Choice>, t: nat)
    requires Started(tasks) && Legal(|tasks|, schedule) && UsefulRun(Init(tasks, start), schedule)
    ensures var e := Exec(Init(tasks, start), schedule);
      && (exists i :: 0 <= i < |tasks| && Useful(e, Move(i)))
      && (|schedule| > (2 * t + 1) * AllSteps(tasks) ==>
            forall i :: 0 <= i < |tasks| ==> e.barrier.threads[i].completed >= 2 * t)
  {
    hide Inv, Exec, Useful, UsefulRun, AllSteps, Started;
    SomebodyMoves(tasks, start, schedule);
    if |schedule| > (2 * t + 1) * AllSteps(tasks) {
      ManyTicks(tasks, start, schedule, t);
    }
  }

  lemma SomebodyMoves(tasks: seq<seq<Entry>>, start: nat, schedule: seq<Choice>)
    requires Started(tasks) && Legal(|tasks|, schedule) && UsefulRun(Init(tasks, start), schedule)
    ensures var e := Exec(Init(tasks, start), schedule); exists i :: 0 <= i < |tasks| && Useful(e, Move(i))
  {
    hide Inv, Exec, Useful, UsefulRun, Halted, Started;
    var e := Exec(Init(tasks, start), schedule);
    RunInv(tasks, start, schedule);
    StillRunning(tasks, start, schedule);
    NeverHalted(e, start);
    HaltedExactly(e);
  }

  lemma ManyTicks(tasks: seq<seq<Entry>>, start: nat, schedule: seq<Choice>, t: nat)
    requires Started(tasks) && Legal(|tasks|, schedule) && UsefulRun(Init(tasks, start), schedule)
    requires |schedule| > (2 * t + 1) * AllSteps(tasks)
    ensures var e := Exec(Init(tasks, start), schedule);
      forall i :: 0 <= i < |tasks| ==> e.barrier.threads[i].completed >= 2 * t
  {
    hide Inv, Exec, UsefulRun, AllSteps, Started;
    var e := Exec(Init(tasks, start), schedule);
    RunInv(tasks, start, schedule);
    forall i | 0 <= i < |tasks|
      ensures e.barrier.threads[i].completed >= 2 * t
    {
      if e.barrier.threads[i].completed < 2 * t {
        forall j | 0 <= j < |tasks|
          ensures e.barrier.threads[j].completed <= 2 * t
        {
          Together(e, start, i, j);
        }
        TooFew(tasks, start, schedule, 2 * t);
      }
    }
  }

  lemma Together(e: Engine, start: nat, i: nat, j: nat)
    requires Inv(e, start) && i < |e.workers| && j < |e.workers|
    ensures e.barrier.threads[j].completed <= e.barrier.threads[i].completed + 1
  {
    hide B.Inv, EntriesOk, LogOk, TickOk;
    BarrierGap(e.barrier, j, i);
  }

  lemma TooFew(tasks: seq<seq<Entry>>, start: nat, schedule: seq<Choice>, c: nat)
    requires Started(tasks) && Legal(|tasks|, schedule) && UsefulRun(Init(tasks, start), schedule)
    requires forall j :: 0 <= j < |tasks| ==> Exec(Init(tasks, start), schedule).barrier.threads[j].completed <= c
    ensures |schedule| <= (c + 1) * AllSteps(tasks)
  {
    hide Inv, Exec, UsefulRun, AllSteps, AllSpent, WorkerCalls;
    RunInv(tasks, start, []);
    NothingRun(Init(tasks, start));
    InitCalls(tasks, start);
    ExecCalls(Init(tasks, start), start, tasks, schedule);
    RunSpends(Init(tasks, start), schedule);
    var e := Exec(Init(tasks, start), schedule);
    forall i | 0 <= i < |tasks|
      ensures |e.workers[i].simobjs| == |tasks[i]|
    {
      SameCount(e, i, tasks[i]);
    }
    SpentAtMost(e.workers, e.barrier.threads, tasks, c);
  }

  lemma SameCount(e: Engine, i: nat, objs: seq<Entry>)
    requires Shape(e) && i < |e.workers| && WorkerCalls(e, i, objs)
    ensures |e.workers[i].simobjs| == |objs|
  {
  }

  lemma StillRunning(tasks: seq<seq<Entry>>, start: nat, schedule: seq<Choice>)
    requires Started(tasks) && Legal(|tasks|, schedule) && UsefulRun(Init(tasks, start), schedule)
    ensures Running(Exec(Init(tasks, start), schedule))
  {
    hide Exec, UsefulRun;
    KeepsRunning(Init(tasks, start), schedule);
  }

  lemma {:induction false} KeepsRunning(e: Engine, schedule: seq<Choice>)
    requires Shape(e) && Running(e) && Legal(|e.workers|, schedule) && UsefulRun(e, schedule)
    ensures Running(Exec(e, schedule))
    decreases |schedule|
  {
    hide Step, Useful;
    if schedule != [] {
      IsMove(e, schedule[0]);
      RunsOn(e, schedule[0].i);
      KeepsRunning(Step(e, schedule[0]), schedule[1..]);
    }
  }

  lemma RunsOn(e: Engine, i: nat)
    requires Shape(e) && Running(e) && i < |e.workers|
    ensures Running(Step(e, Move(i)))
  {
    hide B.Step;
  }
}
