/** The single-producer single-consumer ring of wait_free_queue.h, as an object. */
module WaitFreeQueue {

  // ---------------------------------------------------------------- positions modulo the capacity

  lemma MultipleBounds(c: nat, k: int)
    ensures k <= 0 ==> c * k <= 0
    ensures k >= 1 ==> c * k >= c
    ensures k <= -1 ==> c * k + c <= 0
  {
  }

  /** Quotient and remainder are unique. */
  lemma ModOf(a: nat, c: nat, q: int, r: nat)
    requires a == c * q + r && r < c
    ensures a % c == r
  {
    assert a == c * (a / c) + a % c;
    assert c * (a / c - q) == c * (a / c) - c * q;
    MultipleBounds(c, a / c - q);
  }

  lemma ModDistinct(a: nat, b: nat, c: nat)
    requires a < b < a + c
    ensures a % c != b % c
  {
    assert a == c * (a / c) + a % c && b == c * (b / c) + b % c;
    assert c * (b / c - a / c) == c * (b / c) - c * (a / c);
    MultipleBounds(c, b / c - a / c);
  }

  lemma ModStep(a: nat, c: nat)
    requires c > 0
    ensures (a % c + 1) % c == (a + 1) % c
    ensures (a + 1) % c == if a % c + 1 < c then a % c + 1 else 0
  {
    var q, r := a / c, a % c;
    if r + 1 < c {
      ModOf(a + 1, c, q, r + 1);
    } else {
      assert c * (q + 1) == c * q + c;
      ModOf(a + 1, c, q + 1, 0);
      ModOf(c, c, 1, 0);
    }
  }

  // ---------------------------------------------------------------- the abstract queue of a ring

  /** How many slots lie from `head` up to `tail`, going round. */
  function Size(capacity: nat, head: nat, tail: nat): nat
    requires head < capacity && tail < capacity
  {
    if head <= tail then tail - head else tail + capacity - head
  }

  /** The slot `i` places after `head`. */
  function Slot(capacity: nat, head: nat, i: nat): (slot: nat)
    requires head < capacity && i < capacity
    ensures slot < capacity
  {
    if head + i < capacity then head + i else head + i - capacity
  }

  /** The values between head and tail, oldest first. */
  ghost function RingContents<T>(buffer: seq<T>, head: nat, tail: nat): (q: seq<T>)
    requires head < |buffer| && tail < |buffer|
    ensures |q| == Size(|buffer|, head, tail)
  {
    seq(Size(|buffer|, head, tail), i requires 0 <= i < Size(|buffer|, head, tail) => buffer[Slot(|buffer|, head, i)])
  }

  function Next(capacity: nat, position: nat): nat
    requires position < capacity
  {
    if position + 1 < capacity then position + 1 else 0
  }

  lemma NextIsMod(capacity: nat, position: nat)
    requires position < capacity
    ensures (position + 1) % capacity == Next(capacity, position) < capacity
  {
    if position + 1 == capacity { ModOf(capacity, capacity, 1, 0); } else { ModOf(position + 1, capacity, 0, position + 1); }
  }

  /** Writing the tail slot of a ring that is not full and moving the tail on appends; moving the head on removes. */
  lemma Pushed<T>(buffer: seq<T>, head: nat, tail: nat, item: T)
    requires head < |buffer| && tail < |buffer| && Next(|buffer|, tail) != head
    ensures RingContents(buffer[tail := item], head, Next(|buffer|, tail)) == RingContents(buffer, head, tail) + [item]
  {
  }

  lemma Popped<T>(buffer: seq<T>, head: nat, tail: nat)
    requires head < |buffer| && tail < |buffer| && head != tail
    ensures RingContents(buffer, head, tail) == [buffer[head]] + RingContents(buffer, Next(|buffer|, head), tail)
  {
  }

  class Ring<T(0)> {
    const buffer: array<T>
    var head: nat
    var tail: nat

    ghost predicate Valid()
      reads this
    {
      head < buffer.Length && tail < buffer.Length
    }

    ghost function Contents(): seq<T>
      requires Valid()
      reads this, buffer
    {
      RingContents(buffer[..], head, tail)
    }

    constructor (capacity: nat)
      requires capacity >= 1
      ensures Valid() && buffer.Length == capacity && Contents() == [] && fresh(buffer)
    {
      buffer := new T[capacity];
      head, tail := 0, 0;
    }

    /** Lines 14-25: refused exactly when capacity - 1 values are in the ring. */
    method Enqueue(item: T) returns (ok: bool)
      requires Valid()
      modifies this`tail, buffer
      ensures Valid() && head == old(head)
      ensures ok <==> |old(Contents())| < buffer.Length - 1
      ensures Contents() == if ok then old(Contents()) + [item] else old(Contents())
      ensures buffer[..] == if ok then old(buffer[..])[old(tail) := item] else old(buffer[..])
      ensures tail == if ok then Next(buffer.Length, old(tail)) else old(tail)
    {
      var position := tail;
      var nextTail := (position + 1) % buffer.Length;
      NextIsMod(buffer.Length, position);
      if nextTail == head {
        return false;
      }
      Pushed(buffer[..], head, tail, item);
      buffer[position] := item;
      tail := nextTail;
      ok := true;
      assert buffer[..] == old(buffer[..])[position := item];
    }

    /** Lines 27-37: refused exactly when the ring is empty. */
    method Dequeue(blank: T) returns (ok: bool, item: T)
      requires Valid()
      modifies this`head
      ensures Valid() && tail == old(tail) && buffer[..] == old(buffer[..])
      ensures ok <==> old(Contents()) != []
      ensures ok ==> item == old(Contents())[0] && Contents() == old(Contents())[1..]
      ensures item == if ok then old(buffer[head]) else blank
      ensures head == if ok then Next(buffer.Length, old(head)) else old(head)
    {
      item := blank;
      var position := head;
      if position == tail {
        return false, item;
      }
      Popped(buffer[..], head, tail);
      NextIsMod(buffer.Length, position);
      item := buffer[position];
      head := (position + 1) % buffer.Length;
      ok := true;
    }
  }
}
