/** The reader-writer spin lock (src/spinlocks.cpp:37-131), under sequential consistency. Loads and
    compare-exchanges are separate steps, and a weak compare-exchange may fail for no reason. */
module SpinRWLock {

  /** Where a thread is: outside, before the load or the compare-exchange of one of the four operations (the
      loaded value is kept), inside a critical section, or at one of the two assert(false). */
  datatype Pc =
    | Out
    | ReadLoad | ReadCas(expected: int)
    | Reading
    | ReadUnLoad | ReadUnCas(expected: int)
    | WriteLoad | WriteCas(expected: int)
    | Writing
    | WriteUnLoad | WriteUnCas(expected: int)
    | Broken

  datatype State = State(lock: int, pcs: seq<Pc>)

  /** Thread `i` moves. From outside, `flag` chooses to read or to write; at a compare-exchange it says
      that the weak operation fails spuriously. */
  datatype Choice = Choice(i: nat, flag: bool)

  function Cas(s: State, c: Choice, desired: int, done: Pc, again: Pc): State
    requires c.i < |s.pcs|
    requires var pc := s.pcs[c.i]; pc.ReadCas? || pc.ReadUnCas? || pc.WriteCas? || pc.WriteUnCas?
  {
    if s.lock == s.pcs[c.i].expected && !c.flag then State(desired, s.pcs[c.i := done])
    else s.(pcs := s.pcs[c.i := again])
  }

  function Step(s: State, c: Choice): (r: State)
    requires c.i < |s.pcs|
    ensures |r.pcs| == |s.pcs|
  {
    var v := s.lock;
    match s.pcs[c.i]
    case Out => s.(pcs := s.pcs[c.i := if c.flag then ReadLoad else WriteLoad])
    case ReadLoad => s.(pcs := s.pcs[c.i := if v >= 0 then ReadCas(v) else ReadLoad])
    case ReadCas(v) => Cas(s, c, 1 + v, Reading, ReadLoad)
    case Reading => s.(pcs := s.pcs[c.i := ReadUnLoad])
    case ReadUnLoad => s.(pcs := s.pcs[c.i := if v > 0 then ReadUnCas(v) else Broken])
    case ReadUnCas(v) => Cas(s, c, v - 1, Out, ReadUnLoad)
    case WriteLoad => s.(pcs := s.pcs[c.i := if v == 0 then WriteCas(v) else WriteLoad])
    case WriteCas(v) => Cas(s, c, -1, Writing, WriteLoad)
    case Writing => s.(pcs := s.pcs[c.i := WriteUnLoad])
    case WriteUnLoad => s.(pcs := s.pcs[c.i := if v == -1 then WriteUnCas(v) else Broken])
    case WriteUnCas(v) => Cas(s, c, 0, Out, WriteUnLoad)
    case Broken => s
  }

  function Init(n: nat): State { State(0, seq(n, _ => Out)) }

  predicate Legal(n: nat, schedule: seq<Choice>) { forall k :: 0 <= k < |schedule| ==> schedule[k].i < n }

  function Exec(s: State, schedule: seq<Choice>): (r: State)
    requires Legal(|s.pcs|, schedule)
    ensures |r.pcs| == |s.pcs|
    decreases |schedule|
  {
    if schedule == [] then s else Exec(Step(s, schedule[0]), schedule[1..])
  }

  // ---------------------------------------------------------------- the invariant

  predicate ReadsIn(pc: Pc) { pc.Reading? || pc.ReadUnLoad? || pc.ReadUnCas? }

  predicate WritesIn(pc: Pc) { pc.Writing? || pc.WriteUnLoad? || pc.WriteUnCas? }

  function Readers(pcs: seq<Pc>): (k: nat)
    ensures k <= |pcs|
  {
    if pcs == [] then 0 else Readers(pcs[..|pcs| - 1]) + if ReadsIn(pcs[|pcs| - 1]) then 1 else 0
  }

  function Writers(pcs: seq<Pc>): (k: nat)
    ensures k <= |pcs|
  {
    if pcs == [] then 0 else Writers(pcs[..|pcs| - 1]) + if WritesIn(pcs[|pcs| - 1]) then 1 else 0
  }

  /** What a thread remembers of the lock word. */
  predicate PcOk(pc: Pc) {
    match pc
    case ReadCas(v) => v >= 0
    case ReadUnCas(v) => v > 0
    case WriteCas(v) => v == 0
    case WriteUnCas(v) => v == -1
    case Broken => false
    case _ => true
  }

  /** The lock word is the number of readers inside, or -1 with exactly one writer inside. */
  ghost predicate Inv(s: State) {
    && (forall i :: 0 <= i < |s.pcs| ==> PcOk(s.pcs[i]))
    && ((s.lock == Readers(s.pcs) && Writers(s.pcs) == 0)
        || (s.lock == -1 && Readers(s.pcs) == 0 && Writers(s.pcs) == 1))
  }

  lemma {:induction false} CountUpdate(pcs: seq<Pc>, i: nat, pc: Pc)
    requires i < |pcs|
    ensures Readers(pcs[i := pc]) + (if ReadsIn(pcs[i]) then 1 else 0) == Readers(pcs) + (if ReadsIn(pc) then 1 else 0)
    ensures Writers(pcs[i := pc]) + (if WritesIn(pcs[i]) then 1 else 0)
         == Writers(pcs) + (if WritesIn(pc) then 1 else 0)
  {
    var k := |pcs| - 1;
    if i == k {
      assert pcs[i := pc][..k] == pcs[..k];
    } else {
      CountUpdate(pcs[..k], i, pc);
      assert pcs[i := pc][..k] == pcs[..k][i := pc];
    }
  }

  lemma {:induction false} CountIn(pcs: seq<Pc>, i: nat)
    requires i < |pcs|
    ensures ReadsIn(pcs[i]) ==> Readers(pcs) > 0
    ensures WritesIn(pcs[i]) ==> Writers(pcs) > 0
  {
    if i < |pcs| - 1 {
      CountIn(pcs[..|pcs| - 1], i);
    }
  }

  lemma {:induction false} TwoIn(pcs: seq<Pc>, i: nat, j: nat)
    requires i < j < |pcs| && WritesIn(pcs[i]) && WritesIn(pcs[j])
    ensures Writers(pcs) > 1
  {
    if j == |pcs| - 1 {
      CountIn(pcs[..j], i);
    } else {
      TwoIn(pcs[..|pcs| - 1], i, j);
    }
  }

  lemma {:induction false} NobodyIn(pcs: seq<Pc>)
    requires forall i :: 0 <= i < |pcs| ==> pcs[i].Out?
    ensures Readers(pcs) == Writers(pcs) == 0
  {
    if pcs != [] {
      NobodyIn(pcs[..|pcs| - 1]);
    }
  }

  lemma InitInv(n: nat)
    ensures Inv(Init(n))
  {
    NobodyIn(Init(n).pcs);
  }

  lemma StepInv(s: State, c: Choice)
    requires Inv(s) && c.i < |s.pcs|
    ensures Inv(Step(s, c))
  {
    hide Readers, Writers;
    var r := Step(s, c);
    assert PcOk(s.pcs[c.i]);
    CountUpdate(s.pcs, c.i, r.pcs[c.i]);
    CountIn(s.pcs, c.i);
    assert forall j :: 0 <= j < |s.pcs| && j != c.i ==> r.pcs[j] == s.pcs[j];
  }

  lemma {:induction false} ExecInv(s: State, schedule: seq<Choice>)
    requires Inv(s) && Legal(|s.pcs|, schedule)
    ensures Inv(Exec(s, schedule))
    decreases |schedule|
  {
    hide Inv, Step;
    if schedule != [] {
      StepInv(s, schedule[0]);
      ExecInv(Step(s, schedule[0]), schedule[1..]);
    }
  }

  // ---------------------------------------------------------------- exclusion

  /** Over all schedules: a writer is alone, the lock word counts the readers or marks the writer, and the
      assertions in the two unlocks never fail. */
  lemma Exclusion(n: nat, schedule: seq<Choice>, i: nat, j: nat)
    requires Legal(n, schedule) && i < n && j < n && i != j
    ensures var s := Exec(Init(n), schedule);
      && (WritesIn(s.pcs[i]) ==> s.lock == -1 && !ReadsIn(s.pcs[j]) && !WritesIn(s.pcs[j]))
      && (ReadsIn(s.pcs[i]) ==> s.lock == Readers(s.pcs) > 0)
      && !s.pcs[i].Broken? && -1 <= s.lock <= n
  {
    hide Readers, Writers;
    InitInv(n);
    ExecInv(Init(n), schedule);
    var s := Exec(Init(n), schedule);
    CountIn(s.pcs, i);
    CountIn(s.pcs, j);
    assert PcOk(s.pcs[i]);
    if WritesIn(s.pcs[i]) && WritesIn(s.pcs[j]) {
      TwoIn(s.pcs, if i < j then i else j, if i < j then j else i);
    }
  }

  /** Running alone, without spurious failures, a thread gets in within two steps exactly when the lock
      allows it: to read when no writer is inside, to write when nobody is. So no unlock is ever lost. */
  lemma GetsInExactly(n: nat, schedule: seq<Choice>, i: nat)
    requires Legal(n, schedule) && i < n
    ensures var s := Exec(Init(n), schedule);
      var r := Step(Step(s, Choice(i, false)), Choice(i, false));
      && (s.pcs[i].ReadLoad? ==> (r.pcs[i].Reading? <==> Writers(s.pcs) == 0))
      && (s.pcs[i].WriteLoad? ==> (r.pcs[i].Writing? <==> Writers(s.pcs) == 0 && Readers(s.pcs) == 0))
      && (s.pcs[i].ReadUnLoad? || s.pcs[i].WriteUnLoad? ==> r.pcs[i].Out?)
  {
    hide Readers, Writers;
    InitInv(n);
    ExecInv(Init(n), schedule);
    CountIn(Exec(Init(n), schedule).pcs, i);
  }

  // ---------------------------------------------------------------- what a call may end with

  predicate ReadTries(pc: Pc) { pc.ReadLoad? || pc.ReadCas? }

  predicate WriteTries(pc: Pc) { pc.WriteLoad? || pc.WriteCas? }

  predicate Releases(pc: Pc) { pc.ReadUnLoad? || pc.ReadUnCas? || pc.WriteUnLoad? || pc.WriteUnCas? }

  /** Over every schedule and choice: read_lock ends inside, write_lock ends inside, both unlocks end outside, and
      nothing else ends them. The other threads stay where they are. */
  lemma CallsEnd(n: nat, schedule: seq<Choice>, c: Choice, i: nat)
    requires Legal(n, schedule) && c.i < n && i < n
    ensures var s := Exec(Init(n), schedule); var r := Step(s, c);
      && (i != c.i ==> r.pcs[i] == s.pcs[i])
      && var pc, at := s.pcs[c.i], r.pcs[c.i];
         && (pc.Out? ==> if c.flag then at.ReadLoad? else at.WriteLoad?)
         && (ReadTries(pc) ==> ReadTries(at) || at.Reading?)
         && (WriteTries(pc) ==> WriteTries(at) || at.Writing?)
         && (pc.Reading? ==> at.ReadUnLoad?) && (pc.Writing? ==> at.WriteUnLoad?)
         && (Releases(pc) ==> (Releases(at) && (ReadsIn(pc) <==> ReadsIn(at))) || at.Out?)
  {
    hide Readers, Writers;
    InitInv(n);
    ExecInv(Init(n), schedule);
    var s := Exec(Init(n), schedule);
    StepInv(s, c);
    assert PcOk(Step(s, c).pcs[c.i]);
  }

  /** So a thread that has called read_lock and is outside again has been inside on the way, and so has a thread that
      has called write_lock. */
  lemma {:induction false} ThroughTheLock(s: State, schedule: seq<Choice>, i: nat)
    requires Inv(s) && Legal(|s.pcs|, schedule) && i < |s.pcs| && (ReadTries(s.pcs[i]) || WriteTries(s.pcs[i]))
    requires Exec(s, schedule).pcs[i].Out?
    ensures exists k ::
      && 0 <= k <= |schedule| && Legal(|s.pcs|, schedule[..k])
      && var pc := Exec(s, schedule[..k]).pcs[i];
         if ReadTries(s.pcs[i]) then pc.Reading? else pc.Writing?
    decreases |schedule|
  {
    hide Inv, Step;
    var c, rest := schedule[0], schedule[1..];
    var r := Step(s, c);
    StepInv(s, c);
    StepEnds(s, c, i);
    if (ReadTries(s.pcs[i]) && r.pcs[i].Reading?) || (WriteTries(s.pcs[i]) && r.pcs[i].Writing?) {
      assert schedule[..1] == [c] && [c][1..] == [];
      assert Exec(r, []) == r && Exec(s, schedule[..1]) == r;
    } else {
      ThroughTheLock(r, rest, i);
      var k :|
        && 0 <= k <= |rest| && Legal(|s.pcs|, rest[..k])
        && var pc := Exec(r, rest[..k]).pcs[i];
           if ReadTries(r.pcs[i]) then pc.Reading? else pc.Writing?;
      assert schedule[..k + 1][1..] == rest[..k];
      assert Exec(s, schedule[..k + 1]) == Exec(r, rest[..k]);
    }
  }

  lemma StepEnds(s: State, c: Choice, i: nat)
    requires Inv(s) && c.i < |s.pcs| && i < |s.pcs|
    ensures var pc, at := s.pcs[i], Step(s, c).pcs[i];
      && (ReadTries(pc) ==> ReadTries(at) || at.Reading?) && (WriteTries(pc) ==> WriteTries(at) || at.Writing?)
  {
    hide Readers, Writers;
  }

  /** The step is a compare-exchange that succeeds. */
  predicate Wins(s: State, c: Choice)
    requires c.i < |s.pcs|
  {
    !c.flag && match s.pcs[c.i]
    case ReadCas(v) => s.lock == v
    case ReadUnCas(v) => s.lock == v
    case WriteCas(v) => s.lock == v
    case WriteUnCas(v) => s.lock == v
    case _ => false
  }

  lemma OnlyWinsChange(s: State, c: Choice)
    requires Inv(s) && c.i < |s.pcs|
    ensures Wins(s, c) <==> Step(s, c).lock != s.lock
  {
    hide Readers, Writers;
    assert PcOk(s.pcs[c.i]);
  }

  lemma {:induction false} NobodyWins(s: State, schedule: seq<Choice>)
    requires Inv(s) && Legal(|s.pcs|, schedule)
    requires forall k :: 0 <= k < |schedule| ==> !Wins(Exec(s, schedule[..k]), schedule[k])
    ensures Exec(s, schedule).lock == s.lock
    decreases |schedule|
  {
    hide Inv, Step, Wins;
    if schedule != [] {
      var r, rest := Step(s, schedule[0]), schedule[1..];
      StepInv(s, schedule[0]);
      OnlyWinsChange(s, schedule[0]);
      assert schedule[..0] == [] && Exec(s, schedule[..0]) == s;
      forall k | 0 <= k < |rest|
        ensures !Wins(Exec(r, rest[..k]), rest[k])
      {
        assert schedule[..k + 1][1..] == rest[..k];
        assert Exec(s, schedule[..k + 1]) == Exec(r, rest[..k]);
      }
      NobodyWins(r, rest);
    }
  }

  lemma {:induction false} OthersMove(s: State, schedule: seq<Choice>, i: nat)
    requires Legal(|s.pcs|, schedule) && i < |s.pcs|
    requires forall k :: 0 <= k < |schedule| ==> schedule[k].i != i
    ensures Exec(s, schedule).pcs[i] == s.pcs[i]
    decreases |schedule|
  {
    if schedule != [] {
      assert schedule[0].i != i;
      OthersMove(Step(s, schedule[0]), schedule[1..], i);
    }
  }

  predicate AtLoad(pc: Pc) { pc.ReadLoad? || pc.ReadUnLoad? || pc.WriteLoad? || pc.WriteUnLoad? }

  predicate AtCas(pc: Pc) { pc.ReadCas? || pc.ReadUnCas? || pc.WriteCas? || pc.WriteUnCas? }

  lemma LoadsTheWord(s: State, i: nat)
    requires Inv(s) && i < |s.pcs| && AtLoad(s.pcs[i]) && AtCas(Step(s, Choice(i, false)).pcs[i])
    ensures Wins(Step(s, Choice(i, false)), Choice(i, false))
  {
    hide Readers, Writers;
  }

  lemma StillWins(s: State, r: State, i: nat)
    requires i < |s.pcs| && i < |r.pcs| && r.pcs[i] == s.pcs[i] && r.lock == s.lock && Wins(s, Choice(i, false))
    ensures Wins(r, Choice(i, false))
  {
  }

  /** Progress under contention. A thread loads a value that lets it go on, others move, and then its compare-exchange
      fails, though not for no reason: another thread's has succeeded in between. */
  lemma FailsForAReason(n: nat, past: seq<Choice>, i: nat, schedule: seq<Choice>)
    requires Legal(n, past) && Legal(n, schedule) && i < n
    requires forall k :: 0 <= k < |schedule| ==> schedule[k].i != i
    requires var s := Exec(Init(n), past); AtLoad(s.pcs[i]) && AtCas(Step(s, Choice(i, false)).pcs[i])
    ensures var s := Step(Exec(Init(n), past), Choice(i, false)); var r := Exec(s, schedule);
      && r.pcs[i] == s.pcs[i]
      && (!Wins(r, Choice(i, false)) ==>
            exists k :: 0 <= k < |schedule| && Wins(Exec(s, schedule[..k]), schedule[k]))
  {
    hide Inv, Step, Wins, AtLoad, AtCas;
    assert Inv(Init(n)) by {
      InitInv(n);
    }
    ExecInv(Init(n), past);
    var b := Exec(Init(n), past);
    var s := Step(b, Choice(i, false));
    StepInv(b, Choice(i, false));
    LoadsTheWord(b, i);
    OthersMove(s, schedule, i);
    if forall k :: 0 <= k < |schedule| ==> !Wins(Exec(s, schedule[..k]), schedule[k]) {
      NobodyWins(s, schedule);
      StillWins(s, Exec(s, schedule), i);
    }
  }

  // ---------------------------------------------------------------- the lock object

  class RWLock {
    var lock: int
    ghost var state: State

    ghost predicate Valid()
      reads this
    {
      Inv(state) && lock == state.lock
    }

    constructor (n: nat)
      ensures Valid() && state == Init(n)
    {
      lock := 0;
      state := Init(n);
      InitInv(n);
    }

    /** compare_exchange_weak; `fails` is its permission to fail. */
    method CompareExchange(expected: int, desired: int, fails: bool) returns (ok: bool)
      modifies this`lock
      ensures ok == (old(lock) == expected && !fails)
      ensures lock == if ok then desired else old(lock)
    {
      ok := lock == expected && !fails;
      if ok {
        lock := desired;
      }
    }

    /** The next step of a thread at `pc`. */
    method Advance(c: Choice, pc: Pc) returns (next: Pc)
      requires Valid() && c.i < |state.pcs| && state.pcs[c.i] == pc
      modifies this
      ensures Valid() && state == Step(old(state), c) && next == state.pcs[c.i]
    {
      hide Inv;
      StepInv(state, c);
      var ok;
      match pc {
        case Out => next := if c.flag then ReadLoad else WriteLoad;
        case ReadLoad => next := if lock >= 0 then ReadCas(lock) else ReadLoad;
        case ReadCas(v) =>
          ok := CompareExchange(v, 1 + v, c.flag);
          next := if ok then Reading else ReadLoad;
        case Reading => next := ReadUnLoad;
        case ReadUnLoad => next := if lock > 0 then ReadUnCas(lock) else Broken;
        case ReadUnCas(v) =>
          ok := CompareExchange(v, v - 1, c.flag);
          next := if ok then Out else ReadUnLoad;
        case WriteLoad => next := if lock == 0 then WriteCas(lock) else WriteLoad;
        case WriteCas(v) =>
          ok := CompareExchange(v, -1, c.flag);
          next := if ok then Writing else WriteLoad;
        case Writing => next := WriteUnLoad;
        case WriteUnLoad => next := if lock == -1 then WriteUnCas(lock) else Broken;
        case WriteUnCas(v) =>
          ok := CompareExchange(v, 0, c.flag);
          next := if ok then Out else WriteUnLoad;
        case Broken => next := Broken;
      }
      state := Step(state, c);
    }
  }
}
