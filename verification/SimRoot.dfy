/** Registration of the simulated objects, and one thread's two loops over them
    (src/simroot.cpp: add_sim_object, add_sim_object_next_thread, simroot_thread_function). */
module SimRoot {
  import opened Arithmetic
  import opened TickEngine
  import opened TickCalls

  /** The objects of a thread that a phase of the current tick calls. */
  predicate Due(x: Entry, apply: bool) { x.current == 0 && if apply then x.doApply else x.doCurrent }

  /** `called` lists exactly the objects that are due, in the order of registration. */
  ghost predicate CallsDue(simobjs: seq<Entry>, apply: bool, called: seq<nat>) {
    && (forall k: nat :: k in called <==> k < |simobjs| && Due(simobjs[k], apply))
    && (forall i, j :: 0 <= i < j < |called| ==> called[i] < called[j])
  }

  class SimRoot {
    var tasks: seq<seq<Entry>>
    var insertIdx: nat

    ghost predicate Valid()
      reads this
    {
      insertIdx < |tasks|
    }

    /** Every object is still to see its first tick. */
    ghost predicate Fresh()
      reads this
    {
      forall i, k :: 0 <= i < |tasks| && 0 <= k < |tasks[i]| ==> OnTime(tasks[i][k], 0)
    }

    constructor (threads: nat)
      requires threads > 0
      ensures Valid() && Fresh() && |tasks| == threads && insertIdx == 0
    {
      tasks := seq(threads, _ => []);
      insertIdx := 0;
    }

    /** Objects of latency zero are never ticked; the others go to the thread whose turn it is. */
    method AddSimObject(latency: int, doCurrent: bool, doApply: bool)
      requires Valid()
      modifies this
      ensures Valid() && insertIdx == old(insertIdx) && |tasks| == |old(tasks)|
      ensures forall i :: 0 <= i < |tasks| && (i != insertIdx || latency == 0) ==> tasks[i] == old(tasks[i])
      ensures latency != 0 ==> tasks[insertIdx] == old(tasks[insertIdx]) + [NewEntry(latency, doCurrent, doApply)]
      ensures old(Fresh()) ==> Fresh()
    {
      var tmp := Entry(latency, if latency > 0 then latency - 1 else 0, doCurrent, doApply);
      if latency != 0 {
        tasks := tasks[insertIdx := tasks[insertIdx] + [tmp]];
      }
    }

    /** Round robin over the threads. */
    method AddSimObjectNextThread(latency: int, doCurrent: bool, doApply: bool)
      requires Valid()
      modifies this
      ensures Valid() && |tasks| == |old(tasks)|
      ensures insertIdx == if old(insertIdx) + 1 == |tasks| then 0 else old(insertIdx) + 1
      ensures forall i :: 0 <= i < |tasks| && (i != old(insertIdx) || latency == 0) ==> tasks[i] == old(tasks[i])
      ensures latency != 0 ==>
        tasks[old(insertIdx)] == old(tasks[insertIdx]) + [NewEntry(latency, doCurrent, doApply)]
      ensures old(Fresh()) ==> Fresh()
    {
      hide NewEntry, OnTime;
      NextTurn(insertIdx, |tasks|);
      AddSimObject(latency, doCurrent, doApply);
      insertIdx := (insertIdx + 1) % |tasks|;
    }

    /** The on_current_tick loop of thread `index`: calls the objects that are due. */
    method CurrentPhase(index: nat) returns (called: seq<nat>)
      requires index < |tasks|
      ensures CallsDue(tasks[index], false, called)
    {
      called := [];
      var k: nat := 0;
      while k < |tasks[index]|
        invariant k <= |tasks[index]| && forall i :: 0 <= i < |called| ==> called[i] < k
        invariant forall i: nat :: i in called <==> i < k && Due(tasks[index][i], false)
        invariant forall i, j :: 0 <= i < j < |called| ==> called[i] < called[j]
      {
        var entry := tasks[index][k];
        if entry.current == 0 && entry.doCurrent {
          called := called + [k];
        }
        k := k + 1;
      }
    }

    /** The apply_next_tick loop: calls the objects that are due, and counts every object down. */
    method ApplyPhase(index: nat) returns (called: seq<nat>)
      requires index < |tasks|
      modifies this
      ensures CallsDue(old(tasks[index]), true, called)
      ensures insertIdx == old(insertIdx) && |tasks| == |old(tasks)| && |tasks[index]| == |old(tasks[index])|
      ensures forall i :: 0 <= i < |tasks| && i != index ==> tasks[i] == old(tasks[i])
      ensures forall k :: 0 <= k < |tasks[index]| ==> tasks[index][k] == old(tasks[index][k]).Next()
    {
      called := [];
      ghost var before := tasks[index];
      var k: nat := 0;
      while k < |tasks[index]|
        invariant |tasks| == |old(tasks)| && insertIdx == old(insertIdx) && k <= |tasks[index]| == |before|
        invariant forall i :: 0 <= i < |called| ==> called[i] < k
        invariant forall i :: 0 <= i < |tasks| && i != index ==> tasks[i] == old(tasks[i])
        invariant forall i :: 0 <= i < k ==> tasks[index][i] == before[i].Next()
        invariant forall i :: k <= i < |before| ==> tasks[index][i] == before[i]
        invariant forall i: nat :: i in called <==> i < k && Due(before[i], true)
        invariant forall i, j :: 0 <= i < j < |called| ==> called[i] < called[j]
      {
        var entry := tasks[index][k];
        if entry.current == 0 {
          if entry.doApply {
            called := called + [k];
          }
          entry := entry.(current := entry.latency);
        }
        entry := entry.(current := entry.current - 1);
        tasks := tasks[index := tasks[index][k := entry]];
        k := k + 1;
      }
    }
  }

  function After(x: Entry, t: nat): Entry {
    if t == 0 then x else After(x, t - 1).Next()
  }

  /** Over any number of ticks: a newly registered object is due in both phases of exactly one tick in
      `latency`, counted from registration. */
  lemma {:induction false} DueOneInLatency(latency: int, doCurrent: bool, doApply: bool, t: nat)
    requires latency > 0
    ensures var x := After(NewEntry(latency, doCurrent, doApply), t);
      && x.latency == latency && x.doCurrent == doCurrent && x.doApply == doApply && OnTime(x, t)
      && (Due(x, false) <==> doCurrent && (t + 1) % latency == 0)
      && (Due(x, true) <==> doApply && (t + 1) % latency == 0)
  {
    Countdown(t, latency);
    if t > 0 {
      DueOneInLatency(latency, doCurrent, doApply, t - 1);
      CountsDown(After(NewEntry(latency, doCurrent, doApply), t - 1), t);
    } else {
      CountsFrom(latency);
    }
  }

  /** What a phase calls in tick `t` is what `TickCalls.EachCallOnce` asks for. */
  lemma DueIsWanted(simobjs: seq<Entry>, t: nat, apply: bool, called: seq<nat>)
    requires CallsDue(simobjs, apply, called) && forall k :: 0 <= k < |simobjs| ==> OnTime(simobjs[k], t)
    ensures forall k: nat :: k in called <==> k < |simobjs| && Wants(simobjs[k], 2 * t + if apply then 1 else 0)
  {
    hide OnTime;
    forall k: nat
      ensures k in called <==> k < |simobjs| && Wants(simobjs[k], 2 * t + if apply then 1 else 0)
    {
      if k < |simobjs| {
        OnTimeDue(simobjs[k], t);
      }
    }
  }

  lemma CountsFrom(latency: int)
    requires latency > 0
    ensures 0 % latency == 0
  {
    DivModUnique(0, latency, 0, 0);
  }

  lemma CountsDown(x: Entry, t: nat)
    requires t > 0 && x.latency > 0 && OnTime(x, t - 1)
    ensures OnTime(x.Next(), t)
  {
    NextOnTime(x, t - 1);
  }

  lemma NextTurn(i: nat, n: nat)
    requires i < n
    ensures (i + 1) % n == if i + 1 == n then 0 else i + 1
  {
  }
}
