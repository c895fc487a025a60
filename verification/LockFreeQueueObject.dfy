/**
  The queue as an object with linked nodes, its two loops written out and run by one thread.  A weak
  compare-and-swap may fail spuriously, `misses` times in all; whatever the failures, the loops end and the
  contents change as a FIFO queue's do.  Interleavings are the subject of LockFreeQueue; `AsState` is the state
  of that system an object stands for.
 */
module LockFreeQueueObject {
  import opened Wrappers
  import Q = LockFreeQueue
  import Runs = LockFreeQueueRuns
  import Solo = LockFreeQueueSolo

  class Node<T> {
    const data: T
    var next: Node?<T>

    constructor (value: T)
      ensures data == value && next == null
    {
      data := value;
      next := null;
    }

    /** atomic_compare_exchange_weak on `next`: `left` is the number of spurious failures still to come. */
    method CasNext(expected: Node?<T>, desired: Node<T>, misses: nat) returns (ok: bool, left: nat)
      modifies this
      ensures ok ==> old(next) == expected && next == desired && left <= misses
      ensures !ok ==> next == old(next) && if old(next) == expected then left < misses else left <= misses
    {
      var spurious: bool := *;
      left := misses;
      if next == expected && spurious && misses > 0 {
        return false, misses - 1;
      }
      ok := next == expected;
      if ok {
        next := desired;
      }
    }
  }

  ghost function DataOf<T>(nodes: seq<Node<T>>): seq<T> {
    seq(|nodes|, i requires 0 <= i < |nodes| => nodes[i].data)
  }

  lemma DataExtends<T>(nodes: seq<Node<T>>, node: Node<T>)
    requires |nodes| >= 1
    ensures DataOf((nodes + [node])[1..]) == DataOf(nodes[1..]) + [node.data]
  {
  }

  lemma DataOfRest<T>(nodes: seq<Node<T>>)
    ensures DataOf(nodes) == if nodes == [] then [] else [nodes[0].data] + DataOf(nodes[1..])
  {
  }

  function Places(n: nat): (places: map<nat, nat>)
    ensures forall i: nat :: (i in places <==> i < n) && (i in places ==> places[i] == i)
  {
    if n == 0 then map[] else Places(n - 1)[n - 1 := n - 1]
  }

  /**
    The state of the transition system with the nodes numbered along the chain, their data `data`, the tail at
    number `tail`, all threads idle, the values logged as linked by `t` and none as taken.
   */
  ghost function Numbered<T>(helps: bool, t: Q.Tid, data: seq<T>, tail: nat): Q.State<T> {
    var n := |data|;
    Q.State(helps,
            Q.Heap(seq(n, i requires 0 <= i < n => Q.Node(data[i], if i + 1 < n then Some(i + 1) else None)),
                   0, tail, seq(n, i requires 0 <= i < n => i), Places(n)),
            map[], seq(if n == 0 then 0 else n - 1, i requires 0 <= i && i + 1 < n => (t, data[i + 1])), [], map[])
  }

  lemma NumberedChain<T>(helps: bool, t: Q.Tid, data: seq<T>, tail: nat)
    requires |data| - 2 <= tail < |data|
    ensures Q.HeapInv(Numbered(helps, t, data, tail).heap)
  {
  }

  lemma NumberedContents<T>(helps: bool, t: Q.Tid, data: seq<T>, tail: nat)
    requires |data| - 2 <= tail < |data| && Q.HeapInv(Numbered(helps, t, data, tail).heap)
    ensures Runs.Contents(Numbered(helps, t, data, tail).heap) == data[1..]
  {
    hide Q.HeapInv, Places;
  }

  lemma NumberedLogs<T>(helps: bool, t: Q.Tid, data: seq<T>, tail: nat)
    requires |data| - 2 <= tail < |data| && Q.HeapInv(Numbered(helps, t, data, tail).heap)
    ensures Q.LogInv(Numbered(helps, t, data, tail))
  {
    hide Q.HeapInv, Places;
  }

  lemma NumberedIsState<T>(helps: bool, t: Q.Tid, data: seq<T>, tail: nat)
    requires |data| - 2 <= tail < |data|
    ensures Q.Inv(Numbered(helps, t, data, tail)) && Q.HeapInv(Numbered(helps, t, data, tail).heap)
    ensures Runs.Contents(Numbered(helps, t, data, tail).heap) == data[1..]
    ensures Solo.Lagging(Numbered(helps, t, data, tail).heap) <==> tail == 0 && |data| > 1
  {
    hide Q.HeapInv, Q.LogInv, Runs.Contents, Places;
    NumberedChain(helps, t, data, tail);
    NumberedContents(helps, t, data, tail);
    NumberedLogs(helps, t, data, tail);
  }

  class LockFreeQueue<T> {
    var head: Node<T>
    var tail: Node<T>
    ghost var chain: seq<Node<T>>   // the nodes from the head to the last one

    ghost predicate Valid()
      reads this, chain
    {
      && |chain| >= 1 && chain[0] == head
      && (tail == chain[|chain| - 1] || (|chain| >= 2 && tail == chain[|chain| - 2]))
      && (forall i, j :: 0 <= i < j < |chain| ==> chain[i] != chain[j])
      && (forall i :: 0 <= i < |chain| - 1 ==> chain[i].next == chain[i + 1])
      && chain[|chain| - 1].next == null
    }

    ghost function Contents(): seq<T>
      reads this
    {
      if chain == [] then [] else DataOf(chain[1..])
    }

    /** The tail is the head although an element follows it. */
    ghost predicate Lagging()
      reads this, chain
    {
      head == tail && head in chain && head.next != null
    }

    /** The state of the transition system with this queue in its memory. */
    ghost function AsState(helps: bool, t: Q.Tid): Q.State<T>
      requires Valid()
      reads this, chain
    {
      Numbered(helps, t, DataOf(chain), if tail == chain[|chain| - 1] then |chain| - 1 else |chain| - 2)
    }

    /** The object's invariant, contents and lagging tail are those of the transition system. */
    lemma ObjectIsState(helps: bool, t: Q.Tid)
      requires Valid()
      ensures Q.Inv(AsState(helps, t)) && Q.HeapInv(AsState(helps, t).heap)
      ensures Runs.Contents(AsState(helps, t).heap) == Contents() && (Solo.Lagging(AsState(helps, t).heap) <==> Lagging())
    {
      hide Numbered, Q.Inv, Q.HeapInv, Runs.Contents, Solo.Lagging;
      NumberedIsState(helps, t, DataOf(chain), if tail == chain[|chain| - 1] then |chain| - 1 else |chain| - 2);
      assert DataOf(chain[1..]) == DataOf(chain)[1..];
    }

    /**
      A thread that runs alone in the transition system from this object does what the methods below do: an enqueue
      appends, and a dequeue takes the front or finds the queue empty, exactly where Dequeue may be called.
     */
    lemma StepsAgree(helps: bool, t: Q.Tid, value: T)
      requires Valid()
      ensures Q.HeapInv(AsState(helps, t).heap)
      ensures exists n: nat :: Solo.AppendedAtEnd(AsState(helps, t), Solo.AloneEnqueue(AsState(helps, t), t, value, n), t, value)
      ensures (exists n :: Q.PcOf(Solo.Alone(AsState(helps, t), t, n), t).Idle?) <==> helps || !Lagging()
      ensures helps || !Lagging() ==> exists n :: Solo.Finished(AsState(helps, t), Solo.Alone(AsState(helps, t), t, n), t)
    {
      ObjectIsState(helps, t);
      var m := Solo.AloneAppends(AsState(helps, t), t, value);
      Solo.AloneReturnsIff(AsState(helps, t), t);
    }

    constructor (blank: T)
      ensures Valid() && Contents() == [] && fresh(chain)
    {
      var dummy := new Node(blank);
      head := dummy;
      tail := dummy;
      chain := [dummy];
    }

    method CasTail(expected: Node<T>, desired: Node<T>, misses: nat) returns (ok: bool, left: nat)
      modifies this`tail
      ensures ok ==> old(tail) == expected && tail == desired && left <= misses
      ensures !ok ==> tail == old(tail) && if old(tail) == expected then left < misses else left <= misses
    {
      var spurious: bool := *;
      left := misses;
      if tail == expected && spurious && misses > 0 {
        return false, misses - 1;
      }
      ok := tail == expected;
      if ok {
        tail := desired;
      }
    }

    method CasHead(expected: Node<T>, desired: Node<T>, misses: nat) returns (ok: bool, left: nat)
      modifies this`head
      ensures ok ==> old(head) == expected && head == desired && left <= misses
      ensures !ok ==> head == old(head) && if old(head) == expected then left < misses else left <= misses
    {
      var spurious: bool := *;
      left := misses;
      if head == expected && spurious && misses > 0 {
        return false, misses - 1;
      }
      ok := head == expected;
      if ok {
        head := desired;
      }
    }

    /** The link of line 42: a miss leaves everything alone; otherwise `newNode` follows the last node. */
    method Link(oldTail: Node<T>, newNode: Node<T>, misses: nat) returns (ok: bool, left: nat)
      requires Valid() && oldTail == tail && oldTail.next == null && newNode !in chain && newNode.next == null
      modifies oldTail, this`chain
      ensures ok ==> chain == old(chain) + [newNode] && left <= misses
      ensures !ok ==> chain == old(chain) && left < misses
      ensures Valid()
    {
      assert oldTail == chain[|chain| - 1];
      ok, left := oldTail.CasNext(null, newNode, misses);
      if ok {
        chain := chain + [newNode];
      }
    }

    method Enqueue(value: T, misses: nat)
      requires Valid()
      modifies this, chain
      ensures Valid() && Contents() == old(Contents()) + [value]
      ensures head == old(head) && |chain| == old(|chain|) + 1 && chain[..|chain| - 1] == old(chain) && fresh(chain[|chain| - 1])
      ensures misses == 0 ==> tail == chain[|chain| - 1]
    {
      hide DataOf;
      var newNode := new Node(value);
      DataExtends(chain, newNode);
      var oldTail: Node<T>;
      var left: nat := misses;
      while true
        invariant Valid() && chain == old(chain) && head == old(head) && newNode !in chain && newNode.next == null
        invariant fresh(newNode) && newNode.data == value && left <= misses
        decreases left, if tail == chain[|chain| - 1] then 0 else 1
      {
        oldTail := tail;
        var tailNext := oldTail.next;
        if oldTail == tail {
          if tailNext == null {
            var ok;
            ok, left := Link(oldTail, newNode, left);
            if ok {
              break;
            }
          } else {
            var ok;
            ok, left := CasTail(oldTail, tailNext, left);
          }
        }
      }
      var swung;
      swung, left := CasTail(oldTail, newNode, left);
    }

    method Dequeue(blank: T, helps: bool, misses: nat) returns (ok: bool, result: T)
      requires Valid() && (helps || !Lagging())
      modifies this
      ensures Valid()
      ensures ok <==> old(Contents()) != []
      ensures ok ==> result == old(Contents())[0] && Contents() == old(Contents())[1..] && chain == old(chain)[1..]
      ensures !ok ==> Contents() == old(Contents()) && head == old(head) && tail == old(tail)
    {
      hide DataOf;
      DataOfRest(chain[1..]);
      result := blank;
      var left: nat := misses;
      while true
        invariant Valid() && chain == old(chain) && head == old(head) && (helps || !Lagging())
        invariant Lagging() ==> old(Lagging())
        invariant head.next == null ==> tail == old(tail)
        decreases left, if Lagging() then 1 else 0
      {
        var oldHead := head;
        var tailSeen := tail;
        var headNext := oldHead.next;
        if oldHead == head {
          if oldHead == tailSeen {
            if headNext == null {
              return false, result;
            }
            if helps {
              var moved;
              moved, left := CasTail(tailSeen, headNext, left);
            }
          } else {
            assert chain[0].next == chain[1];
            result := headNext.data;
            var done;
            done, left := CasHead(oldHead, headNext, left);
            if done {
              break;
            }
          }
        }
      }
      chain := chain[1..];
      ok := true;
    }
  }
}
