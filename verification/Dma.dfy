/** The DMA engine (src/cache/dma.cpp), one tick at a time, against a cache that may refuse any request.
    Host memory and the memory behind the cache are two separate byte sequences. */
module Dma {
  import opened Arithmetic

  type Byte = bv8

  const LINE: nat := 64
  const DST_HOST: nat := 2

  /** The cache's answers; the program asserts that there are no others. */
  datatype Answer = Success | Busy | Miss | Coherence

  datatype Request = Request(src: nat, dst: nat, size: nat, flag: nat, callback: nat) {
    predicate ToHost() { flag == DST_HOST }

    /** The address on the side of the cache. */
    function PhysAddr(): nat { if ToHost() then src else dst }
  }

  datatype Memory = Memory(host: seq<Byte>, phys: seq<Byte>)

  predicate SameSize(m: Memory, n: Memory) { |m.host| == |n.host| && |m.phys| == |n.phys| }

  /** The request lies inside both memories, and the memory behind the cache has whole lines. */
  predicate Fits(m: Memory, r: Request) {
    && |m.phys| % LINE == 0
    && if r.ToHost() then r.src < |m.phys| && r.src + r.size <= |m.phys| && r.dst + r.size <= |m.host|
       else r.dst < |m.phys| && r.dst + r.size <= |m.phys| && r.src + r.size <= |m.host|
  }

  /** `a` with `b` written at `at`. */
  function Splice(a: seq<Byte>, at: nat, b: seq<Byte>): (r: seq<Byte>)
    requires at + |b| <= |a|
    ensures |r| == |a|
  {
    a[..at] + b + a[at + |b|..]
  }

  /** The first `n` bytes of a request copied, at once. */
  function Copy(m: Memory, r: Request, n: nat): (c: Memory)
    requires Fits(m, r) && n <= r.size
    ensures SameSize(m, c)
  {
    if r.ToHost() then m.(host := Splice(m.host, r.dst, m.phys[r.src..r.src + n]))
    else m.(phys := Splice(m.phys, r.dst, m.host[r.src..r.src + n]))
  }

  /** Requests carried out one after the other. */
  function CopyAll(m: Memory, rs: seq<Request>): (c: Memory)
    requires forall r :: r in rs ==> Fits(m, r)
    ensures SameSize(m, c)
  {
    if rs == [] then m
    else
      var last := rs[|rs| - 1];
      assert last in rs && Fits(m, last);
      var c := CopyAll(m, rs[..|rs| - 1]);
      assert SameSize(m, c) && Fits(c, last);
      Copy(c, last, last.size)
  }

  /** What a finished request has done: its bytes are in place, and every other byte is as it was. Flag 2 copies to the
      host, any other flag from it. */
  lemma CopyExact(m: Memory, r: Request)
    requires Fits(m, r)
    ensures var c := Copy(m, r, r.size);
      if r.flag == 2 then
        c.phys == m.phys && c.host[r.dst..r.dst + r.size] == m.phys[r.src..r.src + r.size]
        && c.host[..r.dst] == m.host[..r.dst] && c.host[r.dst + r.size..] == m.host[r.dst + r.size..]
      else
        c.host == m.host && c.phys[r.dst..r.dst + r.size] == m.host[r.src..r.src + r.size]
        && c.phys[..r.dst] == m.phys[..r.dst] && c.phys[r.dst + r.size..] == m.phys[r.dst + r.size..]
  {
  }

  // ---------------------------------------------------------------- one line

  /** How much of a request one tick copies from position `cur`. */
  function Chunk(r: Request, cur: nat): (n: nat)
    requires cur <= r.size
    ensures n <= r.size - cur && (cur < r.size ==> n > 0)
  {
    OffsetBound(r.PhysAddr() + cur);
    Min(LINE - Offset(r.PhysAddr() + cur), r.size - cur)
  }

  /** The first address of the line of an address: its line index times the line length. */
  function LineStart(x: nat): nat { LINE * (x / LINE) }

  function Offset(x: nat): nat { x % LINE }

  lemma OffsetBound(x: nat)
    ensures Offset(x) < LINE && x == LineStart(x) + Offset(x)
  {
  }

  /** A line that holds a byte of the memory lies inside it. */
  lemma LineFits(x: nat, size: nat)
    requires x < size && size % LINE == 0
    ensures LineStart(x) + LINE <= size
  {
    OffsetBound(x);
    OffsetBound(size);
    assert x / LINE < size / LINE;
  }

  /** What the cache loads: the whole line of an address. */
  function Load(phys: seq<Byte>, at: nat): (line: seq<Byte>)
    requires at < |phys| && |phys| % LINE == 0
    ensures |line| == LINE
  {
    LineFits(at, |phys|);
    phys[LineStart(at)..LineStart(at) + LINE]
  }

  /** What the cache stores: a whole line. */
  function Store(phys: seq<Byte>, at: nat, line: seq<Byte>): (r: seq<Byte>)
    requires at < |phys| && |phys| % LINE == 0 && |line| == LINE
    ensures |r| == |phys|
  {
    LineFits(at, |phys|);
    Splice(phys, LineStart(at), line)
  }

  /** Reading through a line buffer is reading the memory. */
  lemma ReadLine(phys: seq<Byte>, at: nat, n: nat)
    requires at < |phys| && |phys| % LINE == 0 && n <= LINE - Offset(at)
    ensures at + n <= |phys| && Offset(at) + n <= LINE
    ensures Load(phys, at)[Offset(at)..Offset(at) + n] == phys[at..at + n]
  {
    hide Offset, LineStart;
    OffsetBound(at);
    LineFits(at, |phys|);
    SliceOfSlice(phys, LineStart(at), Offset(at), n);
  }

  lemma SliceOfSlice(s: seq<Byte>, from: nat, skip: nat, n: nat)
    requires from + LINE <= |s| && skip + n <= LINE
    ensures s[from..from + LINE][skip..skip + n] == s[from + skip..from + skip + n]
  {
    var line := s[from..from + LINE];
    var a, b := line[skip..skip + n], s[from + skip..from + skip + n];
    forall i | 0 <= i < n
      ensures a[i] == b[i]
    {
      assert line[skip + i] == s[from + skip + i];
    }
  }

  /** Changing part of a line and writing the whole line back is writing that part. */
  lemma WriteLine(phys: seq<Byte>, at: nat, b: seq<Byte>)
    requires at < |phys| && |phys| % LINE == 0 && |b| <= LINE - Offset(at)
    ensures at + |b| <= |phys| && Offset(at) + |b| <= LINE
    ensures Store(phys, at, Splice(Load(phys, at), Offset(at), b)) == Splice(phys, at, b)
  {
    hide Offset, LineStart;
    OffsetBound(at);
    LineFits(at, |phys|);
    SpliceOfSlice(phys, LineStart(at), Offset(at), b);
  }

  lemma SpliceOfSlice(s: seq<Byte>, from: nat, skip: nat, b: seq<Byte>)
    requires from + LINE <= |s| && skip + |b| <= LINE
    ensures Splice(s, from, Splice(s[from..from + LINE], skip, b)) == Splice(s, from + skip, b)
  {
  }

  lemma SpliceMore(a: seq<Byte>, at: nat, b: seq<Byte>, c: seq<Byte>)
    requires at + |b| + |c| <= |a|
    ensures Splice(Splice(a, at, b), at + |b|, c) == Splice(a, at, b + c)
  {
  }

  lemma CutMore(s: seq<Byte>, from: nat, k: nat, n: nat)
    requires from + k + n <= |s|
    ensures s[from..from + (k + n)] == s[from..from + k] + s[from + k..from + k + n]
  {
  }

  /** Copying `n` more bytes. */
  lemma CopyMore(m: Memory, r: Request, cur: nat, n: nat)
    requires Fits(m, r) && cur + n <= r.size
    ensures var c := Copy(m, r, cur);
      Copy(m, r, cur + n) ==
        if r.ToHost() then c.(host := Splice(c.host, r.dst + cur, c.phys[r.src + cur..r.src + cur + n]))
        else c.(phys := Splice(c.phys, r.dst + cur, c.host[r.src + cur..r.src + cur + n]))
  {
    hide Splice;
    if r.ToHost() {
      CutMore(m.phys, r.src, cur, n);
      SpliceMore(m.host, r.dst, m.phys[r.src..r.src + cur], m.phys[r.src + cur..r.src + cur + n]);
    } else {
      CutMore(m.host, r.src, cur, n);
      SpliceMore(m.phys, r.dst, m.host[r.src..r.src + cur], m.host[r.src + cur..r.src + cur + n]);
    }
  }

  /** The request is at work: something is left of it, unless it is empty. */
  predicate AtWork(r: Request, cur: nat) { cur <= r.size && (r.size > 0 ==> cur < r.size) }

  /** One line to the host, through the line buffer. */
  lemma HostStep(m: Memory, r: Request, cur: nat)
    requires Fits(m, r) && r.ToHost() && AtWork(r, cur)
    ensures var c, at, n := Copy(m, r, cur), r.src + cur, Chunk(r, cur);
      && Offset(at) < LINE && n == Min(LINE - Offset(at), r.size - cur)
      && at < |c.phys| && |c.phys| % LINE == 0 && Offset(at) + n <= LINE && r.dst + cur + n <= |c.host|
      && c.(host := Splice(c.host, r.dst + cur, Load(c.phys, at)[Offset(at)..Offset(at) + n])) == Copy(m, r, cur + n)
  {
    hide Copy, Splice, Load;
    var n := Chunk(r, cur);
    OffsetBound(r.src + cur);
    ReadLine(Copy(m, r, cur).phys, r.src + cur, n);
    CopyMore(m, r, cur, n);
  }

  /** One line from the host, changed in the line buffer and stored whole. */
  lemma PhysStep(m: Memory, r: Request, cur: nat)
    requires Fits(m, r) && !r.ToHost() && AtWork(r, cur)
    ensures var c, at, n := Copy(m, r, cur), r.dst + cur, Chunk(r, cur);
      && Offset(at) < LINE && n == Min(LINE - Offset(at), r.size - cur)
      && at < |c.phys| && |c.phys| % LINE == 0 && Offset(at) + n <= LINE && r.src + cur + n <= |c.host|
      && var changed := Splice(Load(c.phys, at), Offset(at), c.host[r.src + cur..r.src + cur + n]);
         c.(phys := Store(c.phys, at, changed)) == Copy(m, r, cur + n)
  {
    hide Copy, Splice, Load, Store;
    var n := Chunk(r, cur);
    var c := Copy(m, r, cur);
    OffsetBound(r.dst + cur);
    assert r.src + cur + n <= |c.host|;
    WriteLine(c.phys, r.dst + cur, c.host[r.src + cur..r.src + cur + n]);
    CopyMore(m, r, cur, n);
  }

  /** The ticks a request still needs: one for every line it touches, and one if it is empty. */
  function TicksLeft(r: Request, cur: nat): nat
    requires cur <= r.size
  {
    if r.size == 0 then 1
    else if cur == r.size then 0
    else ((r.PhysAddr() + cur) % LINE + (r.size - cur) + LINE - 1) / LINE
  }

  lemma OneTickLess(r: Request, cur: nat)
    requires cur < r.size
    ensures TicksLeft(r, cur) == TicksLeft(r, cur + Chunk(r, cur)) + 1
    ensures cur + Chunk(r, cur) < r.size <==> TicksLeft(r, cur) > 1
  {
    var x := r.PhysAddr() + cur;
    var n := Chunk(r, cur);
    var left := r.size - cur;
    OffsetBound(x);
    if n < left {
      assert x + n == LINE * (x / LINE + 1);
      DivModUnique(x + n, LINE, x / LINE + 1, 0);
    } else {
      DivModUnique(x % LINE + left + LINE - 1, LINE, 1, x % LINE + left - 1);
    }
  }

  /** So many ticks: the 64-byte lines from the one with the first byte to the one with the last. */
  lemma LinesTouched(r: Request)
    requires r.size > 0
    ensures TicksLeft(r, 0) == (r.PhysAddr() + r.size - 1) / 64 - r.PhysAddr() / 64 + 1
  {
    var x, y := r.PhysAddr(), r.PhysAddr() + r.size - 1;
    OffsetBound(x);
    OffsetBound(y);
    DivModUnique(x % LINE + r.size + LINE - 1, LINE, y / LINE - x / LINE + 1, y % LINE);
  }

  /** The ticks a list of requests needs. */
  function TicksAll(rs: seq<Request>): nat {
    if rs == [] then 0 else TicksLeft(rs[0], 0) + TicksAll(rs[1..])
  }

  lemma {:induction false} TicksAllJoin(a: seq<Request>, b: seq<Request>)
    ensures TicksAll(a + b) == TicksAll(a) + TicksAll(b)
    ensures TicksAll(a) == 0 ==> a == []
  {
    if a == [] {
      assert a + b == b;
    } else {
      TicksAllJoin(a[1..], b);
      assert (a + b)[1..] == a[1..] + b;
      SomeTicks(a[0]);
    }
  }

  lemma SomeTicks(r: Request)
    ensures TicksLeft(r, 0) > 0
  {
    if r.size > 0 {
      OneTickLess(r, 0);
    }
  }

  /** The callbacks that finished requests ask for, in order; zero asks for none. */
  function Callbacks(rs: seq<Request>): seq<nat> {
    if rs == [] then []
    else Callbacks(rs[..|rs| - 1]) + if rs[|rs| - 1].callback != 0 then [rs[|rs| - 1].callback] else []
  }

  // ---------------------------------------------------------------- the engine

  class DMAAsCore {
    var arrivals: seq<Request>
    var queue: seq<Request>
    var working: bool
    var processing: Request
    var curPos: nat
    var lineBuf: seq<Byte>
    var mem: Memory
    var callbacks: seq<nat>

    /** History: the memory at the beginning, all requests pushed, and those finished. */
    ghost var start: Memory
    ghost var pushed: seq<Request>
    ghost var done: seq<Request>

    ghost function Current(): seq<Request>
      reads this
    {
      if working then [processing] else []
    }

    ghost predicate AllFit()
      reads this
    {
      forall r :: r in pushed ==> Fits(start, r)
    }

    /** Requests are served in the order in which they were pushed; memory is what the finished ones and the
        first `curPos` bytes of the one at work make of it; callbacks are those of the finished ones. */
    ghost predicate Valid()
      reads this
    {
      && AllFit()
      && pushed == done + (Current() + (queue + arrivals))
      && (working ==> AtWork(processing, curPos))
      && mem == Expected()
      && callbacks == Callbacks(done)
    }

    ghost function Expected(): Memory
      requires AllFit() && pushed == done + (Current() + (queue + arrivals))
      requires working ==> curPos <= processing.size
      reads this
    {
      assert forall r :: r in done ==> r in pushed;
      assert working ==> processing in Current() && processing in pushed;
      var m := CopyAll(start, done);
      if working then Copy(m, processing, curPos) else m
    }

    /** The successful ticks until everything pushed is done. */
    ghost function Left(): nat
      reads this
    {
      (if working && curPos <= processing.size then TicksLeft(processing, curPos) else 0) + TicksAll(queue + arrivals)
    }

    /** When no work is left, everything pushed has been carried out, in order and as if at once. */
    lemma AllDone()
      requires Valid() && Left() == 0
      ensures done == pushed && !working
      ensures AllFit() && mem == CopyAll(start, pushed) && callbacks == Callbacks(pushed)
    {
      hide Copy, CopyAll, Callbacks, Fits;
      TicksAllJoin(queue + arrivals, []);
      if working && processing.size > 0 {
        OneTickLess(processing, curPos);
      }
      assert done + ([] + []) == done;
    }

    constructor (memory: Memory)
      ensures Valid() && mem == start == memory && pushed == []
    {
      arrivals, queue, working, curPos, lineBuf, mem, callbacks := [], [], false, 0, [], memory, [];
      processing := Request(0, 0, 0, 0, 0);
      start, pushed, done := memory, [], [];
    }

    method PushDmaRequests(reqs: seq<Request>)
      requires Valid() && forall r :: r in reqs ==> Fits(start, r)
      modifies this`arrivals, this`pushed
      ensures Valid() && pushed == old(pushed) + reqs && arrivals == old(arrivals) + reqs
      ensures Left() == old(Left()) + TicksAll(reqs)
    {
      hide Fits, CopyAll, Copy, TicksAll, TicksLeft;
      MoreWork(queue, arrivals, reqs);
      Joined(done, Current(), queue, arrivals, reqs);
      arrivals := arrivals + reqs;
      pushed := pushed + reqs;
    }

    method ApplyNextTick()
      requires Valid()
      modifies this`arrivals, this`queue
      ensures Valid() && arrivals == [] && queue == old(queue) + old(arrivals) && Left() == old(Left())
    {
      hide Fits, CopyAll, Copy, TicksLeft, TicksAll;
      assert (queue + arrivals) + [] == queue + arrivals;
      queue := queue + arrivals;
      arrivals := [];
    }

    /** The engine takes up the next request when it has none. */
    method StartNext()
      requires Valid()
      modifies this`working, this`processing, this`curPos, this`queue
      ensures Valid() && Left() == old(Left())
      ensures working <==> old(working) || old(queue) != []
      ensures old(working) || old(queue) == [] ==>
        processing == old(processing) && curPos == old(curPos) && queue == old(queue)
      ensures !old(working) && old(queue) != [] ==>
        processing == old(queue)[0] && curPos == 0 && queue == old(queue)[1..]
    {
      if !working && queue != [] {
        TakeNext(done, queue, arrivals);
        TicksAllJoin([queue[0]], queue[1..] + arrivals);
        assert TicksAll([queue[0]]) == TicksLeft(queue[0], 0);
        working := true;
        processing := queue[0];
        curPos := 0;
        queue := queue[1..];
        assert processing in pushed;
        CopyNothing(CopyAll(start, done), processing);
      }
    }

    /** Loads a line and copies what the request wants of it to the host. */
    method LineToHost(ghost m: Memory) returns (n: nat)
      requires processing.ToHost() && Fits(m, processing) && AtWork(processing, curPos)
      requires mem == Copy(m, processing, curPos)
      modifies this`mem, this`lineBuf
      ensures n == Chunk(processing, curPos) && mem == Copy(m, processing, curPos + n)
    {
      hide *;
      HostStep(m, processing, curPos);
      var srcp := processing.src + curPos;
      var cacheOffset := Offset(srcp);
      n := Min(LINE - cacheOffset, processing.size - curPos);
      lineBuf := Load(mem.phys, srcp);
      mem := mem.(host := Splice(mem.host, processing.dst + curPos, lineBuf[cacheOffset..cacheOffset + n]));
    }

    /** Gets hold of a line, changes it in the buffer, and stores it. */
    method LineFromHost(ghost m: Memory) returns (n: nat)
      requires !processing.ToHost() && Fits(m, processing) && AtWork(processing, curPos)
      requires mem == Copy(m, processing, curPos)
      modifies this`mem, this`lineBuf
      ensures n == Chunk(processing, curPos) && mem == Copy(m, processing, curPos + n)
    {
      hide *;
      PhysStep(m, processing, curPos);
      var dstp, srcp := processing.dst + curPos, processing.src + curPos;
      var cacheOffset := Offset(dstp);
      n := Min(LINE - cacheOffset, processing.size - curPos);
      lineBuf := Load(mem.phys, dstp);
      lineBuf := Splice(lineBuf, cacheOffset, mem.host[srcp..srcp + n]);
      mem := mem.(phys := Store(mem.phys, dstp, lineBuf));
    }

    /** Moves on by what has been copied; a complete request is finished and its callback made. */
    method MoveOn(n: nat)
      requires AllFit() && working && curPos + n <= processing.size && pushed == done + (Current() + (queue + arrivals))
      requires processing in pushed && (forall r :: r in done ==> r in pushed) && callbacks == Callbacks(done)
      requires mem == Copy(CopyAll(start, done), processing, curPos + n)
      modifies this`curPos, this`working, this`callbacks, this`done
      ensures Valid()
      ensures if old(curPos) + n == processing.size then !working && done == old(done) + [processing]
              else working && curPos == old(curPos) + n && done == old(done)
    {
      hide Copy, Fits, CopyAll, SameSize, Callbacks;
      curPos := curPos + n;
      if curPos >= processing.size {
        FinishOne(done, processing, queue + arrivals);
        OneMore(start, done, processing);
        curPos := 0;
        working := false;
        if processing.callback != 0 {
          callbacks := callbacks + [processing.callback];
        }
        done := done + [processing];
      }
    }

    /** The cache has granted the request of this tick. */
    method Serve()
      requires Valid() && working
      modifies this`mem, this`lineBuf, this`curPos, this`working, this`callbacks, this`done
      ensures Valid() && Left() == old(Left()) - 1
      ensures done == old(done) || done == old(done) + [processing]
    {
      hide Copy, Fits, CopyAll, Callbacks, Chunk, TicksLeft;
      ghost var m := CopyAll(start, done);
      ghost var was := curPos;
      assert processing in Current() && processing in pushed && forall r :: r in done ==> r in pushed;
      FitsSame(start, m, processing);
      ChunkTicks(processing, was);
      var n;
      if processing.flag == DST_HOST {
        n := LineToHost(m);
      } else {
        n := LineFromHost(m);
      }
      MoveOn(n);
    }

    /** One tick, with the cache's answer to the request made in it. A refusal changes nothing. Otherwise one
        line is copied, and the work that is left gets one tick shorter. */
    method OnCurrentTick(ret: Answer)
      requires Valid()
      modifies this
      ensures Valid() && pushed == old(pushed) && start == old(start) && arrivals == old(arrivals)
      ensures ret != Success || (!old(working) && old(queue) == []) ==>
        mem == old(mem) && done == old(done) && callbacks == old(callbacks) && Left() == old(Left())
      ensures ret == Success && (old(working) || old(queue) != []) ==> Left() == old(Left()) - 1
      ensures done == old(done) || (exists r :: done == old(done) + [r])
    {
      hide Valid, Left;
      StartNext();
      if !working {
        return;
      }
      if ret != Success {
        return;
      }
      Serve();
    }
  }

  lemma FitsSame(m: Memory, c: Memory, r: Request)
    requires SameSize(m, c)
    ensures Fits(m, r) <==> Fits(c, r)
  {
  }

  lemma TakeNext(done: seq<Request>, queue: seq<Request>, arrivals: seq<Request>)
    requires queue != []
    ensures done + ([] + (queue + arrivals)) == done + ([queue[0]] + (queue[1..] + arrivals))
    ensures queue + arrivals == [queue[0]] + (queue[1..] + arrivals)
  {
  }

  lemma CopyNothing(m: Memory, r: Request)
    requires Fits(m, r)
    ensures Copy(m, r, 0) == m
  {
  }

  lemma OneMore(m: Memory, rs: seq<Request>, r: Request)
    requires Fits(m, r) && forall x :: x in rs ==> Fits(m, x)
    ensures forall x :: x in rs + [r] ==> Fits(m, x)
    ensures Fits(CopyAll(m, rs), r) && CopyAll(m, rs + [r]) == Copy(CopyAll(m, rs), r, r.size)
    ensures Callbacks(rs + [r]) == if r.callback != 0 then Callbacks(rs) + [r.callback] else Callbacks(rs)
  {
    hide Copy, Fits;
    assert (rs + [r])[..|rs|] == rs;
    assert Callbacks(rs) + [] == Callbacks(rs);
    FitsSame(m, CopyAll(m, rs), r);
  }

  lemma FinishOne(done: seq<Request>, r: Request, rest: seq<Request>)
    ensures done + ([r] + rest) == (done + [r]) + ([] + rest)
  {
  }

  lemma ChunkTicks(r: Request, cur: nat)
    requires AtWork(r, cur)
    ensures var n := Chunk(r, cur);
      if cur + n == r.size then TicksLeft(r, cur) == 1 else TicksLeft(r, cur) == TicksLeft(r, cur + n) + 1
  {
    if r.size > 0 {
      OneTickLess(r, cur);
    }
  }

  lemma Joined(a: seq<Request>, b: seq<Request>, c: seq<Request>, d: seq<Request>, e: seq<Request>)
    ensures a + (b + (c + d)) + e == a + (b + (c + (d + e)))
  {
  }

  // ---------------------------------------------------------------- runs

  /** What happens to the engine: requests are pushed, a tick is made with the cache's answer in it, or arrivals are
      taken over at the end of a tick. */
  datatype Event = Push(reqs: seq<Request>) | Current(ret: Answer) | Apply

  function Pushed(evs: seq<Event>): seq<Request> {
    if evs == [] then []
    else Pushed(evs[..|evs| - 1]) + if evs[|evs| - 1].Push? then evs[|evs| - 1].reqs else []
  }

  /** The ticks in which the cache grants what it is asked. */
  function Grants(evs: seq<Event>): nat {
    if evs == [] then 0 else Grants(evs[..|evs| - 1]) + if evs[|evs| - 1] == Current(Success) then 1 else 0
  }

  predicate NoPush(evs: seq<Event>) {
    forall i :: 0 <= i < |evs| ==> !evs[i].Push?
  }

  lemma {:induction false} PushedNothing(evs: seq<Event>)
    requires NoPush(evs)
    ensures Pushed(evs) == []
  {
    if evs != [] {
      PushedNothing(evs[..|evs| - 1]);
    }
  }

  /** Any run of pushes, ticks and answers: the work left is that of all requests pushed, less one tick for each grant
      the engine had work for. Once nothing is pushed and all arrivals are taken over, every grant counts, so that as
      many as there is work left finish everything, in order and as if at once. */
  method Perform(dma: DMAAsCore, evs: seq<Event>) returns (useful: nat)
    requires dma.Valid() && forall i, r :: 0 <= i < |evs| && evs[i].Push? && r in evs[i].reqs ==> Fits(dma.start, r)
    modifies dma
    ensures dma.Valid() && dma.start == old(dma.start) && dma.pushed == old(dma.pushed) + Pushed(evs)
    ensures dma.Left() + useful == old(dma.Left()) + TicksAll(Pushed(evs)) && useful <= Grants(evs)
    ensures NoPush(evs) && old(dma.arrivals) == [] ==> useful == Min(Grants(evs), old(dma.Left()))
    ensures NoPush(evs) && old(dma.arrivals) == [] && Grants(evs) >= old(dma.Left()) ==>
      && dma.done == dma.pushed == old(dma.pushed) && dma.AllFit()
      && dma.mem == CopyAll(dma.start, dma.pushed) && dma.callbacks == Callbacks(dma.pushed)
  {
    hide DMAAsCore.Valid, DMAAsCore.Left, Fits, CopyAll, Callbacks, TicksAll;
    useful := 0;
    NothingToDo();
    var n: nat := 0;
    while n < |evs|
      invariant n <= |evs| && dma.Valid() && dma.start == old(dma.start)
      invariant dma.pushed == old(dma.pushed) + Pushed(evs[..n])
      invariant dma.Left() + useful == old(dma.Left()) + TicksAll(Pushed(evs[..n])) && useful <= Grants(evs[..n])
      invariant NoPush(evs) && old(dma.arrivals) == [] ==>
        dma.arrivals == [] && Pushed(evs[..n]) == [] && useful == Min(Grants(evs[..n]), old(dma.Left()))
    {
      assert evs[..n + 1][..n] == evs[..n];
      assert Pushed(evs[..n]) + [] == Pushed(evs[..n]);
      match evs[n] {
        case Push(reqs) =>
          TicksAllJoin(Pushed(evs[..n]), reqs);
          dma.PushDmaRequests(reqs);
        case Current(ret) =>
          var working := dma.working || dma.queue != [];
          WorkIsVisible(dma);
          dma.OnCurrentTick(ret);
          if ret == Success && working {
            useful := useful + 1;
          }
        case Apply =>
          dma.ApplyNextTick();
      }
      n := n + 1;
    }
    assert evs[..n] == evs;
    if NoPush(evs) && old(dma.arrivals) == [] && Grants(evs) >= old(dma.Left()) {
      dma.AllDone();
    }
  }

  lemma NothingToDo()
    ensures TicksAll([]) == 0
  {
  }

  lemma MoreWork(queue: seq<Request>, arrivals: seq<Request>, reqs: seq<Request>)
    ensures TicksAll(queue + (arrivals + reqs)) == TicksAll(queue + arrivals) + TicksAll(reqs)
  {
    TicksAllJoin(queue + arrivals, reqs);
    assert queue + (arrivals + reqs) == queue + arrivals + reqs;
  }

  /** With all arrivals taken over, there is work left exactly when the engine sees some. */
  lemma WorkIsVisible(dma: DMAAsCore)
    requires dma.Valid()
    ensures dma.Left() == 0 ==> !dma.working && dma.queue == []
    ensures dma.arrivals == [] && dma.Left() > 0 ==> dma.working || dma.queue != []
  {
    hide Fits, CopyAll, Callbacks;
    if dma.Left() == 0 {
      dma.AllDone();
      TicksAllJoin(dma.queue + dma.arrivals, []);
    }
    assert dma.queue + [] == dma.queue;
  }
}
