/**
 * The bounded FIFO of Source/common/RingBuffer.h: a vector that never holds
 * more than `capacity_` elements; enqueueing into a full buffer drops the
 * oldest element.
 */
module RingBuffers {
  import opened Wrappers

  /** The contents after enqueueing `x` into `buf`, bounded by `cap`. */
  function Push<T>(buf: seq<T>, x: T, cap: nat): (r: seq<T>)
    requires 1 <= cap && |buf| <= cap
    ensures 1 <= |r| <= cap && r[|r| - 1] == x
  {
    (if |buf| == cap then buf[1..] else buf) + [x]
  }

  /** The contents after enqueueing every element of `xs` in order. */
  function PushAll<T>(buf: seq<T>, xs: seq<T>, cap: nat): (r: seq<T>)
    requires 1 <= cap && |buf| <= cap
    ensures |r| <= cap
    decreases |xs|
  {
    if xs == [] then buf else PushAll(Push(buf, xs[0], cap), xs[1..], cap)
  }

  /** The last `cap` elements of `s` (all of them when there are fewer). */
  function Newest<T>(s: seq<T>, cap: nat): (r: seq<T>)
    ensures |r| == if |s| <= cap then |s| else cap
  {
    if |s| <= cap then s else s[|s| - cap..]
  }

  /** Enqueueing one element keeps the newest `cap` elements. */
  lemma PushIsNewest<T>(buf: seq<T>, x: T, cap: nat)
    requires 1 <= cap && |buf| <= cap
    ensures Push(buf, x, cap) == Newest(buf + [x], cap)
  {
    if |buf| == cap {
      assert (buf + [x])[|buf + [x]| - cap..] == buf[1..] + [x];
    }
  }

  /** Taking the newest elements twice is taking them once. */
  lemma NewestOfNewest<T>(s: seq<T>, t: seq<T>, cap: nat)
    ensures Newest(Newest(s, cap) + t, cap) == Newest(s + t, cap)
  {
    if |s| > cap {
      var n := Newest(s, cap);
      if |n + t| <= cap {
        assert t == [];
        assert s + t == s;
      } else {
        assert (n + t)[|n + t| - cap..] == (s + t)[|s + t| - cap..];
      }
    }
  }

  /**
   * Whatever is enqueued, the buffer ends up holding exactly the newest
   * `cap` elements of everything it has held, oldest first.
   */
  lemma {:induction false} PushAllKeepsNewest<T>(buf: seq<T>, xs: seq<T>, cap: nat)
    requires 1 <= cap && |buf| <= cap
    ensures PushAll(buf, xs, cap) == Newest(buf + xs, cap)
    decreases |xs|
  {
    if xs == [] {
      assert buf + xs == buf;
    } else {
      var next := Push(buf, xs[0], cap);
      PushAllKeepsNewest(next, xs[1..], cap);
      PushIsNewest(buf, xs[0], cap);
      NewestOfNewest(buf + [xs[0]], xs[1..], cap);
      assert buf + [xs[0]] + xs[1..] == buf + xs;
    }
  }

  class RingBuffer<T> {
    const capacity: nat
    /** The elements, oldest first. */
    var buffer: seq<T>

    ghost predicate Valid()
      reads this
    {
      |buffer| <= capacity
    }

    constructor (capacity: nat)
      ensures Valid()
      ensures this.capacity == capacity && buffer == []
    {
      this.capacity := capacity;
      buffer := [];
    }

    function Capacity(): (c: nat)
      ensures c == capacity
    {
      capacity
    }

    function Empty(): (r: bool)
      reads this
      ensures r <==> buffer == []
    {
      |buffer| == 0
    }

    function Full(): (r: bool)
      reads this
      ensures r <==> |buffer| == capacity
    {
      |buffer| == capacity
    }

    /**
     * Both `Enqueue` overloads: append `val`, first dropping the oldest
     * element when the buffer is full; reports whether one was dropped.
     */
    method Enqueue(val: T) returns (dropped: bool)
      requires Valid() && 1 <= capacity
      modifies this
      ensures Valid()
      ensures dropped <==> |old(buffer)| == capacity
      ensures buffer == Push(old(buffer), val, capacity)
      ensures dropped ==> buffer == old(buffer)[1..] + [val]
      ensures !dropped ==> buffer == old(buffer) + [val]
    {
      dropped := false;
      if Full() {
        buffer := buffer[1..];
        dropped := true;
      }
      buffer := buffer + [val];
    }

    /** Remove and return the oldest element, or nothing when empty. */
    method Dequeue() returns (r: Option<T>)
      requires Valid()
      modifies this
      ensures Valid()
      ensures old(buffer) == [] ==> r == None && buffer == []
      ensures old(buffer) != [] ==> r == Some(old(buffer)[0]) && buffer == old(buffer)[1..]
    {
      if Empty() {
        return None;
      } else {
        var value := buffer[0];
        buffer := buffer[1..];
        return Some(value);
      }
    }
  }
}
