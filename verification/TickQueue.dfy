/** The tick queue itself: the class whose methods change the cursors and the buffer in place (src/tickqueue.h). Each
    method is proved against the functions of `TickRing.dfy`, for all sizes; a queue that is in order, which is every
    queue whose sizes fit, behaves as the three lists. */
module TickQueue {
  import opened Arithmetic
  import opened Rings
  import opened TickLists
  import opened TickRing

  class SimpleTickQueue<T(0)> {
    const iwid: nat
    const owid: nat
    const qsize: nat
    const len: nat
    var bottom: nat
    var qBottom: nat
    var pushBottom: nat
    var ptr: nat
    var popSz: nat
    var qSz: nat
    var pushSz: nat
    const buf: array<T>

    function Dims(): Sizes { Sizes(iwid, owid, qsize) }

    function State(): Ring<T>
      reads this, buf
    {
      Ring(buf[..], bottom, qBottom, pushBottom, ptr, popSz, qSz, pushSz)
    }

    ghost predicate Valid()
      reads this, buf
    {
      iwid > 0 && owid > 0 && buf.Length == len && Shaped(State(), Dims())
    }

    /** The buffer is at most half full, and the write position is behind all elements. */
    ghost predicate Ordered()
      reads this, buf
    {
      Valid() && InOrder(State(), Dims())
    }

    /** The queue as three lists. */
    ghost function Contents(): Lists<T>
      requires Ordered()
      reads this, buf
    {
      hide Ahead, BufferLength;
      OneStretch(State(), Dims());
      RingLists(State())
    }

    /** Widths below 2^30 are all the program asks for. The queue is in order exactly when twice its capacity, rounded
        up, can be counted in 32 bits. */
    constructor (inputWid: nat, outputWid: nat, queueSize: nat)
      requires 0 < inputWid < 0x4000_0000 && 0 < outputWid < 0x4000_0000
      ensures iwid == inputWid && owid == outputWid && qsize == queueSize && fresh(buf)
      ensures Valid() && State() == NewRing(buf[..])
      ensures Ordered() <==> 2 * (inputWid + outputWid + queueSize) + 15 < 0x1_0000_0000
      ensures Ordered() ==> Contents() == Lists([], [], [])
    {
      hide BufferLength;
      var sz := Sizes(inputWid, outputWid, queueSize);
      LengthOf(sz);
      iwid, owid, qsize := inputWid, outputWid, queueSize;
      len := BufferLength(sz);
      bottom, qBottom, pushBottom, ptr, popSz, qSz, pushSz := 0, 0, 0, 0, 0, 0, 0;
      buf := new T[BufferLength(sz)];
      new;
      if SizesFit(sz) {
        NewInOrder(buf[..], sz);
      }
    }

    method CanPush() returns (k: nat)
      requires Valid()
      ensures k == iwid - pushSz && (Ordered() ==> k == iwid - |Contents().push|)
    {
      k := iwid - pushSz;
    }

    method CanPop() returns (k: nat)
      requires Valid()
      ensures k == popSz && (Ordered() ==> k == |Contents().pop|)
    {
      k := popSz;
    }

    method Top() returns (v: T)
      requires Valid() && popSz > 0
      ensures bottom < len && v == buf[bottom] && (Ordered() ==> v == Contents().pop[0])
    {
      hide BufferLength, Around, Ahead;
      if InOrder(State(), Dims()) {
        PopInOrder(State(), Dims());
      }
      v := buf[bottom];
    }

    method Pop()
      requires Valid() && popSz > 0
      modifies this`bottom, this`popSz
      ensures Valid() && State() == PopRing(old(State()))
      ensures old(Ordered()) ==>
        Ordered() && Contents() == old(Contents()).(pop := old(Contents()).pop[1..])
    {
      hide BufferLength, Bump, Ahead, RingLists;
      if InOrder(State(), Dims()) {
        PopInOrder(State(), Dims());
      }
      bottom := Bump(bottom, 1, len);
      popSz := popSz - 1;
    }

    /** Refuses when as many as the input width have been pushed this tick. A queue without a buffer would divide by
        zero. */
    method Push(v: T) returns (ok: bool)
      requires Valid() && (len > 0 || pushSz >= iwid)
      modifies this`ptr, this`pushSz, buf
      ensures Valid() && ok == (old(pushSz) < iwid)
      ensures State() == if ok then PushRing(old(State()), v) else old(State())
      ensures old(Ordered()) ==>
        && Ordered()
        && Contents() == if ok then old(Contents()).(push := old(Contents()).push + [v]) else old(Contents())
    {
      hide BufferLength, Bump, Ahead, RingLists;
      if pushSz >= iwid {
        return false;
      }
      if InOrder(State(), Dims()) {
        PushInOrder(State(), v, Dims());
      }
      buf[ptr] := v;
      ptr := Bump(ptr, 1, len);
      pushSz := pushSz + 1;
      return true;
    }

    /** apply_next_tick. A queue without a buffer but with slots would divide by zero. */
    method ApplyNextTick()
      requires Valid() && (len > 0 || qsize == 0)
      modifies this`qBottom, this`pushBottom, this`popSz, this`qSz, this`pushSz
      ensures Valid() && State() == if len > 0 then RingTick(old(State()), Dims()) else old(State())
      ensures old(Ordered()) ==> Ordered() && Contents() == ApplyLists(old(Contents()), owid, qsize)
    {
      hide BufferLength, Bump, Ahead, RingLists, RingTick, ApplyLists, SizesAfter;
      ghost var r := State();
      if len > 0 {
        TickSizes(r, Dims());
        SizesBounds(popSz, qSz, pushSz, owid, qsize);
        if InOrder(r, Dims()) {
          TickInOrder(r, Dims());
        }
      }
      MoveCursors();
    }

    method MoveCursors()
      requires len == buf.Length && popSz <= owid && qSz <= qsize && (len > 0 || (qsize == 0 && pushSz == 0))
      modifies this`qBottom, this`pushBottom, this`popSz, this`qSz, this`pushSz
      ensures State() == if len > 0 then RingTick(old(State()), Dims()) else old(State())
    {
      hide Bump;
      if qsize != 0 {
        MoveQToPop(Min(owid - popSz, qSz));
        if pushSz != 0 {
          MovePushToPop(Min(owid - popSz, pushSz));
        }
        MovePushToQ(Min(qsize - qSz, pushSz));
      } else if pushSz != 0 && owid > popSz {
        MovePushToPop(Min(owid - popSz, pushSz));
      }
    }

    method MoveQToPop(k: nat)
      requires 0 < len == buf.Length && k <= qSz
      modifies this`qBottom, this`popSz, this`qSz
      ensures State() == QToPop(old(State()), k)
    {
      hide Bump;
      qBottom, popSz, qSz := Bump(qBottom, k, len), popSz + k, qSz - k;
    }

    /** Straight from the pushed elements past the queue. */
    method MovePushToPop(k: nat)
      requires 0 < len == buf.Length && k <= pushSz
      modifies this`qBottom, this`pushBottom, this`popSz, this`pushSz
      ensures State() == PushToPop(old(State()), k)
    {
      hide Bump;
      qBottom, pushBottom := Bump(qBottom, k, len), Bump(pushBottom, k, len);
      popSz, pushSz := popSz + k, pushSz - k;
    }

    method MovePushToQ(k: nat)
      requires 0 < len == buf.Length && k <= pushSz
      modifies this`pushBottom, this`qSz, this`pushSz
      ensures State() == PushToQ(old(State()), k)
    {
      hide Bump;
      pushBottom, qSz, pushSz := Bump(pushBottom, k, len), qSz + k, pushSz - k;
    }

    /** Moves `cnt` elements to the input of another queue, or of itself: all of them or none. */
    method PassTo(q2: SimpleTickQueue<T>, cnt: nat) returns (ok: bool)
      requires Valid() && q2.Valid() && q2.len > 0 && (q2 == this || q2.buf != buf)
      modifies this, q2, q2.buf
      ensures Valid() && q2.Valid()
      ensures ok <==> cnt == 0 || (cnt <= old(popSz) && old(q2.pushSz) + cnt <= q2.iwid)
      ensures !ok ==> State() == old(State()) && q2.State() == old(q2.State())
      ensures old(Ordered() && q2.Ordered()) ==>
        && Ordered() && q2.Ordered()
        && var n := if ok then cnt else 0;
           && Contents().pop == old(Contents()).pop[n..] && Contents().q == old(Contents()).q
           && q2.Contents().push == old(q2.Contents()).push + old(Contents()).pop[..n]
           && q2.Contents().q == old(q2.Contents()).q
           && (q2 != this ==>
                 Contents().push == old(Contents()).push && q2.Contents().pop == old(q2.Contents()).pop)
    {
      hide InOrder, Shaped, RingLists, Around, Bump;
      ghost var fits := Ordered() && q2.Ordered();
      ghost var mine := if fits then Contents() else Lists([], [], []);
      ghost var other := if fits then q2.Contents() else Lists([], [], []);
      NothingMoved(mine.pop, other.push);
      if cnt == 0 {
        return true;
      }
      var canPop := CanPop();
      var canPush := q2.CanPush();
      if canPop < cnt || canPush < cnt {
        return false;
      }
      var i: nat := 0;
      while i < cnt
        invariant i <= cnt && Valid() && q2.Valid()
        invariant popSz + i == canPop && q2.pushSz + cnt <= q2.iwid + i
        invariant fits ==> Ordered() && q2.Ordered() && cnt <= |mine.pop|
        invariant fits ==> Contents().pop == mine.pop[i..] && q2.Contents().push == other.push + mine.pop[..i]
        invariant fits ==> Contents().q == mine.q && q2.Contents().q == other.q
        invariant fits && q2 != this ==> Contents().push == mine.push && q2.Contents().pop == other.pop
      {
        if fits {
          OneMoved(mine.pop, other.push, i);
        }
        var v := Top();
        var pushed := q2.Push(v);
        Pop();
        i := i + 1;
      }
      return true;
    }

    /** Hands out everything; the buffer keeps what it holds. */
    method Clear() returns (out: seq<T>)
      requires Valid()
      modifies this
      ensures Valid() && out == AllRing(old(State())) && State() == NewRing(old(buf[..]))
      ensures old(Ordered()) ==>
        out == old(Contents()).All() && Ordered() && Contents() == Lists([], [], [])
    {
      hide BufferLength, Ahead, Bump, RingLists, AllRing;
      if InOrder(State(), Dims()) {
        ClearInOrder(State(), Dims());
      }
      out := DbgGetAll();
      bottom, qBottom, pushBottom, ptr, popSz, qSz, pushSz := 0, 0, 0, 0, 0, 0, 0;
    }

    /** All elements, from the bottom up to the write position. */
    method DbgGetAll() returns (out: seq<T>)
      requires Valid()
      ensures out == AllRing(State()) && (Ordered() ==> out == Contents().All())
    {
      hide BufferLength, Ahead, RingLists, Bump;
      if InOrder(State(), Dims()) {
        AllInOrder(State(), Dims());
      }
      out := [];
      var i: nat := bottom;
      while i != ptr
        invariant len > 0 ==> i < len && AllRing(State()) == out + FromOn(State(), i)
        invariant len == 0 ==> i == 0 && out == []
        decreases if len > 0 then Gap(i, ptr, len) else 0
      {
        BumpOne(i, len);
        out := out + [buf[i]];
        i := Bump(i, 1, len);
      }
    }

    method Empty() returns (e: bool)
      requires Valid()
      ensures e <==> bottom == ptr
      ensures Ordered() ==> (e <==> Contents().All() == [])
    {
      hide BufferLength, Ahead, RingLists;
      if InOrder(State(), Dims()) {
        OneStretch(State(), Dims());
      }
      e := bottom == ptr;
    }

    method Size() returns (n: nat)
      requires Valid()
      ensures n == State().Total() && (Ordered() ==> n == |Contents().All()|)
    {
      n := pushSz + popSz + qSz;
    }
  }

  lemma NothingMoved<T>(from: seq<T>, to: seq<T>)
    ensures from[0..] == from && to + from[..0] == to
  {
  }

  lemma OneMoved<T>(from: seq<T>, to: seq<T>, i: nat)
    requires i < |from|
    ensures from[i..] != [] && from[i..][0] == from[i] && from[i..][1..] == from[i + 1..]
    ensures (to + from[..i]) + [from[i]] == to + from[..i + 1]
  {
  }
}
