/** The tick queue as the program has it (src/tickqueue.h): one buffer, read and written around its end. Every run of
    it answers as the three lists do, exactly when twice its capacity can be counted in 32 bits. */
module TickRing {
  import opened Arithmetic
  import opened Rings
  import opened Wrappers
  import opened TickLists

  // ---------------------------------------------------------------- the program

  /** The fields of the program's queue that change. */
  datatype Ring<T> = Ring(
    buf: seq<T>, bottom: nat, qBottom: nat, pushBottom: nat, ptr: nat, popSz: nat, qSz: nat, pushSz: nat)
  {
    function Total(): nat { popSz + qSz + pushSz }
  }

  /** A cursor moved, in 32 bits. */
  function Bump(x: nat, k: nat, len: nat): (r: nat)
    requires len > 0
    ensures r < len
  {
    (x + k) % TWO_TO_32 % len
  }

  /** A cursor moved by one is one further round: the buffer is shorter than 2^32. */
  lemma BumpOne(x: nat, len: nat)
    requires x < len < TWO_TO_32
    ensures Bump(x, 1, len) == Ahead(x, 1, len)
  {
    DivModUnique(x + 1, TWO_TO_32, if x + 1 == TWO_TO_32 then 1 else 0, if x + 1 == TWO_TO_32 then 0 else x + 1);
    if x + 1 < len {
      DivModUnique(x + 1, len, 0, x + 1);
    } else {
      DivModUnique(len, len, 1, 0);
    }
  }

  /** The buffer length: twice the capacity, rounded up to 16, in 32 bits. */
  function BufferLength(sz: Sizes): (len: nat)
    ensures len < TWO_TO_32
  {
    ((sz.iwid + sz.owid + sz.qsize) * 2 + 15) % TWO_TO_32 / 16 * 16
  }

  function Capacity(sz: Sizes): nat { sz.iwid + sz.owid + sz.qsize }

  /** Twice the capacity, and what rounding up adds, stay within 32 bits. */
  predicate SizesFit(sz: Sizes) { 2 * Capacity(sz) + 15 < TWO_TO_32 }

  /** Sizes that fit get twice their capacity, and sizes that do not get no more than their capacity. */
  lemma LengthOf(sz: Sizes)
    ensures SizesFit(sz) ==> 2 * Capacity(sz) <= BufferLength(sz)
    ensures !SizesFit(sz) ==> BufferLength(sz) <= Capacity(sz)
  {
    var c := Capacity(sz);
    var n := c * 2 + 15;
    if n < TWO_TO_32 {
      DivModUnique(n, TWO_TO_32, 0, n);
    } else if n < 2 * TWO_TO_32 {
      DivModUnique(n, TWO_TO_32, 1, n - TWO_TO_32);
      if c > TWO_TO_32 - 15 {
        DivModUnique(n - TWO_TO_32, 16, 0xfff_ffff, n - TWO_TO_32 - 16 * 0xfff_ffff);
      }
    } else if c < TWO_TO_32 {
      DivModUnique(n, TWO_TO_32, 2, n - 2 * TWO_TO_32);
    }
  }

  /** What every queue of these sizes keeps, whether they fit or not. */
  predicate Shaped<T>(r: Ring<T>, sz: Sizes) {
    && |r.buf| == BufferLength(sz)
    && (r.bottom < |r.buf| || r.bottom == 0) && (r.ptr < |r.buf| || r.ptr == 0)
    && r.popSz <= sz.owid && r.qSz <= sz.qsize && r.pushSz <= sz.iwid
    && (r.buf == [] ==> r.Total() == 0)
  }

  function NewRing<T>(buf: seq<T>): Ring<T> {
    Ring(buf, 0, 0, 0, 0, 0, 0, 0)
  }

  function PushRing<T>(r: Ring<T>, v: T): Ring<T>
    requires r.ptr < |r.buf|
  {
    r.(buf := r.buf[r.ptr := v], ptr := Bump(r.ptr, 1, |r.buf|), pushSz := r.pushSz + 1)
  }

  function PopRing<T>(r: Ring<T>): Ring<T>
    requires r.buf != [] && r.popSz > 0
  {
    r.(bottom := Bump(r.bottom, 1, |r.buf|), popSz := r.popSz - 1)
  }

  function QToPop<T>(r: Ring<T>, k: nat): Ring<T>
    requires r.buf != [] && k <= r.qSz
  {
    r.(qBottom := Bump(r.qBottom, k, |r.buf|), popSz := r.popSz + k, qSz := r.qSz - k)
  }

  function PushToPop<T>(r: Ring<T>, k: nat): Ring<T>
    requires r.buf != [] && k <= r.pushSz
  {
    r.(qBottom := Bump(r.qBottom, k, |r.buf|), pushBottom := Bump(r.pushBottom, k, |r.buf|),
       popSz := r.popSz + k, pushSz := r.pushSz - k)
  }

  function PushToQ<T>(r: Ring<T>, k: nat): Ring<T>
    requires r.buf != [] && k <= r.pushSz
  {
    r.(pushBottom := Bump(r.pushBottom, k, |r.buf|), qSz := r.qSz + k, pushSz := r.pushSz - k)
  }

  /** apply_next_tick: only cursors and sizes move. */
  function RingTick<T>(r: Ring<T>, sz: Sizes): Ring<T>
    requires r.buf != [] && r.popSz <= sz.owid && r.qSz <= sz.qsize
  {
    if sz.qsize > 0 then
      var r1 := QToPop(r, Min(sz.owid - r.popSz, r.qSz));
      var r2 := if r1.pushSz > 0 then PushToPop(r1, Min(sz.owid - r1.popSz, r1.pushSz)) else r1;
      PushToQ(r2, Min(sz.qsize - r2.qSz, r2.pushSz))
    else if r.pushSz > 0 && sz.owid > r.popSz then PushToPop(r, Min(sz.owid - r.popSz, r.pushSz))
    else r
  }

  /** A tick moves the two borders and nothing else that is ever read. */
  lemma TickSizes<T>(r: Ring<T>, sz: Sizes)
    requires r.buf != [] && r.popSz <= sz.owid && r.qSz <= sz.qsize
    ensures var x := RingTick(r, sz);
      && (x.popSz, x.qSz, x.pushSz) == SizesAfter(r.popSz, r.qSz, r.pushSz, sz.owid, sz.qsize)
      && x.buf == r.buf && x.bottom == r.bottom && x.ptr == r.ptr
  {
    hide Bump;
  }

  /** How far from position `i` forward to position `j`. */
  function Gap(i: nat, j: nat, len: nat): nat
    requires i < len && j < len
  {
    if j >= i then j - i else j + len - i
  }

  /** What the loops of clear and dbg_get_all hand out: from position `i` on, up to the write position. */
  function FromOn<T>(r: Ring<T>, i: nat): seq<T>
    requires i < |r.buf| < TWO_TO_32 && r.ptr < |r.buf|
    decreases Gap(i, r.ptr, |r.buf|)
  {
    if i == r.ptr then []
    else
      BumpOne(i, |r.buf|);
      [r.buf[i]] + FromOn(r, Bump(i, 1, |r.buf|))
  }

  /** All of it. Where there is no buffer, both cursors are zero. */
  function AllRing<T>(r: Ring<T>): seq<T>
    requires (r.bottom < |r.buf| || r.bottom == 0) && (r.ptr < |r.buf| || r.ptr == 0) && |r.buf| < TWO_TO_32
  {
    if r.buf == [] then [] else FromOn(r, r.bottom)
  }

  // ---------------------------------------------------------------- calls and answers

  datatype Call<T> =
    | CallPush(v: T) | CallTop | CallPop | CallTick | CallClear | CallEmpty | CallSize | CallCanPush | CallCanPop

  /** What a call hands back. `Stopped` is a failed assertion or a division by zero. */
  datatype Answer<T> = Nothing | Truth(b: bool) | Number(n: nat) | Value(v: T) | Values(vs: seq<T>) | Stopped

  /** One call to the program's queue; afterwards it may be stopped for good. */
  function RingCall<T>(r: Ring<T>, c: Call<T>, sz: Sizes): (x: (Option<Ring<T>>, Answer<T>))
    requires Shaped(r, sz)
    ensures x.0.Some? ==> Shaped(x.0.value, sz)
  {
    match c
    case CallPush(v) =>
      if r.pushSz >= sz.iwid then (Some(r), Truth(false))
      else if r.buf == [] then (None, Stopped)
      else (Some(PushRing(r, v)), Truth(true))
    case CallTop => if r.popSz == 0 then (None, Stopped) else (Some(r), Value(r.buf[r.bottom]))
    case CallPop => if r.popSz == 0 then (None, Stopped) else (Some(PopRing(r)), Nothing)
    case CallTick =>
      if r.buf == [] then (if sz.qsize > 0 then (None, Stopped) else (Some(r), Nothing))
      else
        TickSizes(r, sz);
        SizesBounds(r.popSz, r.qSz, r.pushSz, sz.owid, sz.qsize);
        (Some(RingTick(r, sz)), Nothing)
    case CallClear => (Some(NewRing(r.buf)), Values(AllRing(r)))
    case CallEmpty => (Some(r), Truth(r.bottom == r.ptr))
    case CallSize => (Some(r), Number(r.Total()))
    case CallCanPush => (Some(r), Number(sz.iwid - r.pushSz))
    case CallCanPop => (Some(r), Number(r.popSz))
  }

  lemma SizesBounds(pop: nat, q: nat, push: nat, owid: nat, qsize: nat)
    requires pop <= owid && q <= qsize
    ensures var (a, b, c) := SizesAfter(pop, q, push, owid, qsize);
      && a <= owid && b <= qsize && c <= push && a + b + c == pop + q + push
      && (c > 0 ==> a == owid && b == qsize)
  {
  }

  /** The same call to the three lists. */
  function ListCall<T>(l: Lists<T>, c: Call<T>, sz: Sizes): (Option<Lists<T>>, Answer<T>) {
    match c
    case CallPush(v) =>
      if |l.push| >= sz.iwid then (Some(l), Truth(false)) else (Some(l.(push := l.push + [v])), Truth(true))
    case CallTop => if l.pop == [] then (None, Stopped) else (Some(l), Value(l.pop[0]))
    case CallPop => if l.pop == [] then (None, Stopped) else (Some(l.(pop := l.pop[1..])), Nothing)
    case CallTick => (Some(ApplyLists(l, sz.owid, sz.qsize)), Nothing)
    case CallClear => (Some(Lists([], [], [])), Values(l.All()))
    case CallEmpty => (Some(l), Truth(l.All() == []))
    case CallSize => (Some(l), Number(|l.All()|))
    case CallCanPush => (Some(l), Number(if |l.push| < sz.iwid then sz.iwid - |l.push| else 0))
    case CallCanPop => (Some(l), Number(Min(sz.owid, |l.pop|)))
  }

  /** The queue after some calls, and the answer to one more. */
  function RingAfter<T>(buf: seq<T>, calls: seq<Call<T>>, sz: Sizes): (x: Option<Ring<T>>)
    requires |buf| == BufferLength(sz)
    ensures x.Some? ==> Shaped(x.value, sz)
    decreases |calls|
  {
    if calls == [] then Some(NewRing(buf))
    else
      match RingAfter(buf, calls[..|calls| - 1], sz)
      case None => None
      case Some(r) => RingCall(r, calls[|calls| - 1], sz).0
  }

  function RingAnswer<T>(buf: seq<T>, calls: seq<Call<T>>, c: Call<T>, sz: Sizes): Answer<T>
    requires |buf| == BufferLength(sz)
  {
    match RingAfter(buf, calls, sz)
    case None => Stopped
    case Some(r) => RingCall(r, c, sz).1
  }

  function ListAfter<T>(calls: seq<Call<T>>, sz: Sizes): Option<Lists<T>>
    decreases |calls|
  {
    if calls == [] then Some(Lists([], [], []))
    else
      match ListAfter(calls[..|calls| - 1], sz)
      case None => None
      case Some(l) => ListCall(l, calls[|calls| - 1], sz).0
  }

  function ListAnswer<T>(calls: seq<Call<T>>, c: Call<T>, sz: Sizes): Answer<T> {
    match ListAfter(calls, sz)
    case None => Stopped
    case Some(l) => ListCall(l, c, sz).1
  }

  /** Whatever was called before, and whatever the new buffer held, every call is answered as by the lists. */
  ghost predicate AnswersAlike<T(!new)>(sz: Sizes) {
    forall buf: seq<T>, calls, c {:trigger RingAnswer(buf, calls, c, sz)} | |buf| == BufferLength(sz) ::
      RingAnswer(buf, calls, c, sz) == ListAnswer(calls, c, sz)
  }

  // ---------------------------------------------------------------- reading around the ring

  /** `k` elements from position `from`, around the end of the buffer. */
  function Around<T>(s: seq<T>, from: nat, k: nat): (r: seq<T>)
    requires from < |s| && k <= |s|
    ensures |r| == k
  {
    seq(k, i requires 0 <= i < k => s[Ahead(from, i, |s|)])
  }

  lemma AroundSplit<T>(s: seq<T>, from: nat, a: nat, b: nat)
    requires from < |s| && a + b <= |s|
    ensures Around(s, from, a + b) == Around(s, from, a) + Around(s, Ahead(from, a, |s|), b)
    ensures Ahead(Ahead(from, a, |s|), b, |s|) == Ahead(from, a + b, |s|)
    ensures a + b < |s| ==> (Ahead(from, a + b, |s|) == from <==> a + b == 0)
  {
  }

  /** Writing outside the stretch changes nothing; writing just after it makes it one longer. */
  lemma AroundWrite<T>(s: seq<T>, from: nat, k: nat, v: T)
    requires from < |s| && k < |s|
    ensures var r := s[Ahead(from, k, |s|) := v];
      Around(r, from, k) == Around(s, from, k) && Around(r, from, k + 1) == Around(s, from, k) + [v]
  {
  }

  lemma WriteBehind<T>(s: seq<T>, from: nat, a: nat, b: nat, c: nat, v: T)
    requires from < |s| && a + b + c < |s|
    ensures var r := s[Ahead(from, a + b + c, |s|) := v];
      var q, p := Ahead(from, a, |s|), Ahead(from, a + b, |s|);
      && Around(r, from, a) == Around(s, from, a) && Around(r, q, b) == Around(s, q, b)
      && Around(r, p, c + 1) == Around(s, p, c) + [v]
  {
    hide Around;
    var r := s[Ahead(from, a + b + c, |s|) := v];
    var q, p := Ahead(from, a, |s|), Ahead(from, a + b, |s|);
    AroundWrite(s, from, a + b + c, v);
    AroundSplit(s, from, a, b);
    AroundSplit(s, from, a + b, c);
    AroundSplit(r, from, a, b);
    AroundSplit(r, from, a + b, c);
    AroundWrite(s, p, c, v);
    SameParts(Around(r, from, a), Around(r, q, b), Around(r, p, c),
      Around(s, from, a), Around(s, q, b), Around(s, p, c));
  }

  /** Another first element taken off. */
  lemma PopFront<T>(s: seq<T>, from: nat, k: nat)
    requires from < |s| && 0 < k <= |s|
    ensures Around(s, from, k)[0] == s[from]
    ensures Around(s, Ahead(from, 1, |s|), k - 1) == Around(s, from, k)[1..]
  {
  }

  // ---------------------------------------------------------------- in order

  /** The write position is behind all elements, and the buffer is at most half full. */
  predicate InOrder<T>(r: Ring<T>, sz: Sizes) {
    && Shaped(r, sz) && r.buf != [] && 2 * Capacity(sz) <= |r.buf|
    && r.ptr == Ahead(r.bottom, r.Total(), |r.buf|)
  }

  /** The three lists the buffer holds, one after the other from the bottom. The program's two cursors between them
      are not asked: nothing reads them. */
  function RingLists<T>(r: Ring<T>): (l: Lists<T>)
    requires r.bottom < |r.buf| && r.Total() <= |r.buf|
    ensures |l.pop| == r.popSz && |l.q| == r.qSz && |l.push| == r.pushSz
  {
    Lists(Around(r.buf, r.bottom, r.popSz),
      Around(r.buf, Ahead(r.bottom, r.popSz, |r.buf|), r.qSz),
      Around(r.buf, Ahead(r.bottom, r.popSz + r.qSz, |r.buf|), r.pushSz))
  }

  lemma OneStretch<T>(r: Ring<T>, sz: Sizes)
    requires InOrder(r, sz)
    ensures r.Total() < |r.buf|
    ensures RingLists(r).All() == Around(r.buf, r.bottom, r.Total())
    ensures r.bottom == r.ptr <==> RingLists(r).All() == []
  {
    hide Around, Ahead;
    AroundSplit(r.buf, r.bottom, r.popSz, r.qSz);
    AroundSplit(r.buf, r.bottom, r.popSz + r.qSz, r.pushSz);
  }

  lemma NewInOrder<T>(buf: seq<T>, sz: Sizes)
    requires |buf| == BufferLength(sz) && SizesFit(sz) && sz.iwid > 0
    ensures InOrder(NewRing(buf), sz) && RingLists(NewRing(buf)) == Lists([], [], [])
  {
    LengthOf(sz);
  }

  lemma PushInOrder<T>(r: Ring<T>, v: T, sz: Sizes)
    requires InOrder(r, sz) && r.pushSz < sz.iwid
    ensures r.ptr < |r.buf| && InOrder(PushRing(r, v), sz)
    ensures RingLists(PushRing(r, v)) == RingLists(r).(push := RingLists(r).push + [v])
  {
    hide Around, Bump, BufferLength;
    OneStretch(r, sz);
    WriteBehind(r.buf, r.bottom, r.popSz, r.qSz, r.pushSz, v);
    BumpOne(r.ptr, |r.buf|);
  }

  lemma PopInOrder<T>(r: Ring<T>, sz: Sizes)
    requires InOrder(r, sz) && r.popSz > 0
    ensures InOrder(PopRing(r), sz) && RingLists(r).pop[0] == r.buf[r.bottom]
    ensures RingLists(PopRing(r)) == RingLists(r).(pop := RingLists(r).pop[1..])
  {
    hide Around, Bump, BufferLength;
    PopFront(r.buf, r.bottom, r.popSz);
    BumpOne(r.bottom, |r.buf|);
  }

  lemma TickInOrder<T>(r: Ring<T>, sz: Sizes)
    requires InOrder(r, sz)
    ensures InOrder(RingTick(r, sz), sz)
    ensures RingLists(RingTick(r, sz)) == ApplyLists(RingLists(r), sz.owid, sz.qsize)
  {
    hide Around, ApplyLists, Ahead, RingTick, SizesAfter, BufferLength, Lists<T>.All;
    var x := RingTick(r, sz);
    TickSizes(r, sz);
    SizesBounds(r.popSz, r.qSz, r.pushSz, sz.owid, sz.qsize);
    OneStretch(r, sz);
    OneStretch(x, sz);
    ApplyBySizes(RingLists(r), RingLists(x), sz.owid, sz.qsize);
  }

  /** The loop from place `k` on. */
  lemma {:induction false} RestInOrder<T>(r: Ring<T>, sz: Sizes, k: nat)
    requires InOrder(r, sz) && k <= r.Total()
    ensures var i := Ahead(r.bottom, k, |r.buf|); FromOn(r, i) == Around(r.buf, i, r.Total() - k)
    decreases r.Total() - k
  {
    hide Around, Bump, BufferLength;
    OneStretch(r, sz);
    var n, len := r.Total(), |r.buf|;
    var i := Ahead(r.bottom, k, len);
    if k < n {
      BumpOne(i, len);
      AroundSplit(r.buf, r.bottom, k, 1);
      RestInOrder(r, sz, k + 1);
      PopFront(r.buf, i, n - k);
    } else {
      assert Around(r.buf, i, 0) == [];
    }
  }

  lemma AllInOrder<T>(r: Ring<T>, sz: Sizes)
    requires InOrder(r, sz)
    ensures AllRing(r) == RingLists(r).All()
  {
    OneStretch(r, sz);
    RestInOrder(r, sz, 0);
  }

  /** Both stopped, or the same elements in the same order. */
  ghost predicate Same<T(!new)>(x: Option<Ring<T>>, l: Option<Lists<T>>, sz: Sizes) {
    if x.None? then l == None else InOrder(x.value, sz) && l == Some(RingLists(x.value))
  }

  lemma CallAlike<T(!new)>(r: Ring<T>, c: Call<T>, sz: Sizes)
    requires InOrder(r, sz)
    ensures RingCall(r, c, sz).1 == ListCall(RingLists(r), c, sz).1
    ensures Same(RingCall(r, c, sz).0, ListCall(RingLists(r), c, sz).0, sz)
  {
    hide Around, ApplyLists, Ahead, RingTick, BufferLength, PushRing, PopRing, AllRing, Bump;
    OneStretch(r, sz);
    match c
    case CallPush(v) =>
      if r.pushSz < sz.iwid {
        PushInOrder(r, v, sz);
      }
    case CallPop =>
      if r.popSz > 0 {
        PopInOrder(r, sz);
      }
    case CallTop =>
      if r.popSz > 0 {
        PopInOrder(r, sz);
      }
    case CallTick => TickInOrder(r, sz);
    case CallClear =>
      AllInOrder(r, sz);
      ClearInOrder(r, sz);
    case _ =>
  }

  lemma ClearInOrder<T>(r: Ring<T>, sz: Sizes)
    requires InOrder(r, sz)
    ensures InOrder(NewRing(r.buf), sz) && RingLists(NewRing(r.buf)) == Lists([], [], [])
  {
    hide BufferLength;
  }

  lemma {:induction false} RunsAlike<T(!new)>(buf: seq<T>, calls: seq<Call<T>>, sz: Sizes)
    requires |buf| == BufferLength(sz) && SizesFit(sz) && sz.iwid > 0
    ensures Same(RingAfter(buf, calls, sz), ListAfter(calls, sz), sz)
    decreases |calls|
  {
    hide RingCall, ListCall, InOrder, BufferLength;
    if calls == [] {
      NewInOrder(buf, sz);
    } else {
      var before := calls[..|calls| - 1];
      RunsAlike(buf, before, sz);
      if RingAfter(buf, before, sz).Some? {
        CallAlike(RingAfter(buf, before, sz).value, calls[|calls| - 1], sz);
      }
    }
  }

  // ---------------------------------------------------------------- sizes that do not fit

  lemma OneCallMore<T>(buf: seq<T>, calls: seq<Call<T>>, c: Call<T>, sz: Sizes)
    requires |buf| == BufferLength(sz)
    ensures RingAfter(buf, calls + [c], sz) ==
      match RingAfter(buf, calls, sz) { case None => None case Some(r) => RingCall(r, c, sz).0 }
    ensures ListAfter(calls + [c], sz) ==
      match ListAfter(calls, sz) { case None => None case Some(l) => ListCall(l, c, sz).0 }
  {
    assert (calls + [c])[..|calls|] == calls;
  }

  /** After some calls, `k` elements are inside, in the same regions of both versions, moved up as far as they go. */
  ghost predicate Holding<T(!new)>(x: Option<Ring<T>>, y: Option<Lists<T>>, k: nat, sz: Sizes) {
    && x.Some? && y.Some? && Shaped(x.value, sz)
    && var r, l := x.value, y.value;
       && |l.pop| == r.popSz && |l.q| == r.qSz && |l.push| == r.pushSz && r.Total() == k <= |r.buf|
       && r.bottom == 0 && r.buf != [] && r.ptr == Ahead(0, k, |r.buf|)
       && (r.pushSz > 0 ==> r.popSz == sz.owid && r.qSz == sz.qsize)
  }

  /** An element pushed and a tick made, over and over, fill any queue up to its capacity. */
  lemma {:induction false} FillUp<T(!new)>(buf: seq<T>, v: T, sz: Sizes, k: nat) returns (calls: seq<Call<T>>)
    requires |buf| == BufferLength(sz) && 0 < |buf| && k <= |buf| <= Capacity(sz) && sz.iwid > 0
    ensures Holding(RingAfter(buf, calls, sz), ListAfter(calls, sz), k, sz)
  {
    hide RingCall, ListCall, BufferLength;
    calls := [];
    if k > 0 {
      calls := FillUp(buf, v, sz, k - 1);
      var r, l := RingAfter(buf, calls, sz).value, ListAfter(calls, sz).value;
      OneCallMore(buf, calls, CallPush(v), sz);
      OneCallMore(buf, calls + [CallPush(v)], CallTick, sz);
      PushTick(r, l, v, sz, k - 1);
      calls := calls + [CallPush(v)] + [CallTick];
    }
  }

  lemma PushTick<T(!new)>(r: Ring<T>, l: Lists<T>, v: T, sz: Sizes, k: nat)
    requires Holding(Some(r), Some(l), k, sz) && k < |r.buf| <= Capacity(sz) && sz.iwid > 0
    ensures var x, y := RingCall(r, CallPush(v), sz).0, ListCall(l, CallPush(v), sz).0;
      && x.Some? && y.Some?
      && Holding(RingCall(x.value, CallTick, sz).0, ListCall(y.value, CallTick, sz).0, k + 1, sz)
  {
    hide ApplyLists, RingTick, SizesAfter, BufferLength, Bump;
    var x, y := PushRing(r, v), l.(push := l.push + [v]);
    BumpOne(r.ptr, |r.buf|);
    TickSizes(x, sz);
    SizesBounds(x.popSz, x.qSz, x.pushSz, sz.owid, sz.qsize);
    ApplySizes(y, sz.owid, sz.qsize);
  }

  /** A queue whose sizes do not fit stops at the first push or, filled to the length of its buffer, says that it is
      empty and hands out nothing. */
  lemma FullLooksEmpty<T(!new)>(buf: seq<T>, v: T, sz: Sizes) returns (calls: seq<Call<T>>)
    requires |buf| == BufferLength(sz) && !SizesFit(sz) && sz.iwid > 0
    ensures buf == [] ==>
      calls == [] && RingAnswer(buf, calls, CallPush(v), sz) == Stopped
      && ListAnswer(calls, CallPush(v), sz) == Truth(true)
    ensures buf != [] ==>
      && RingAnswer(buf, calls, CallEmpty, sz) == Truth(true) && ListAnswer(calls, CallEmpty, sz) == Truth(false)
      && RingAnswer(buf, calls, CallClear, sz) == Values([])
      && ListAnswer(calls, CallSize, sz) == Number(|buf|)
  {
    hide BufferLength;
    LengthOf(sz);
    calls := [];
    if buf != [] {
      calls := FillUp(buf, v, sz, |buf|);
    }
  }

  /** Every run of calls is answered as by the three lists if and only if the sizes fit. */
  lemma AnswersExactly<T(!new)>(sz: Sizes, v: T)
    requires sz.iwid > 0
    ensures AnswersAlike<T>(sz) <==> 2 * (sz.iwid + sz.owid + sz.qsize) + 15 < 0x1_0000_0000
  {
    hide BufferLength, RingAfter, ListAfter, RingCall, ListCall, InOrder;
    if SizesFit(sz) {
      forall buf: seq<T>, calls, c | |buf| == BufferLength(sz)
        ensures RingAnswer(buf, calls, c, sz) == ListAnswer(calls, c, sz)
      {
        RunsAlike(buf, calls, sz);
        if RingAfter(buf, calls, sz).Some? {
          CallAlike(RingAfter(buf, calls, sz).value, c, sz);
        }
      }
    } else {
      var buf := seq(BufferLength(sz), _ => v);
      var calls := FullLooksEmpty(buf, v, sz);
      assert if buf == [] then RingAnswer(buf, calls, CallPush(v), sz) != ListAnswer(calls, CallPush(v), sz)
        else RingAnswer(buf, calls, CallEmpty, sz) != ListAnswer(calls, CallEmpty, sz);
    }
  }
}
