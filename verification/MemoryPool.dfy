/** The fixed-block pool of utils.cpp: free and held blocks always partition the blocks carved from the buffer. */
module MemoryPool {
  import opened Wrappers
  import opened Sequences

  /** Addresses are numbers; block `i` starts at memory + i * blockSize. */
  function Blocks(memory: nat, blockSize: nat, blockCount: nat): (blocks: seq<nat>)
    ensures |blocks| == blockCount
  {
    seq(blockCount, i requires 0 <= i < blockCount => memory + i * blockSize)
  }

  ghost function Elements<T>(s: seq<T>): set<T> {
    set x | x in s
  }

  lemma {:induction false} DistinctCount<T>(s: seq<T>)
    requires Distinct(s)
    ensures |Elements(s)| == |s|
  {
    if s != [] {
      DistinctCount(s[1..]);
      assert Elements(s) == {s[0]} + Elements(s[1..]);
    }
  }

  lemma TakeLast<T>(s: seq<T>)
    requires Distinct(s) && s != []
    ensures Distinct(s[..|s| - 1]) && s[|s| - 1] !in Elements(s[..|s| - 1])
    ensures Elements(s) == Elements(s[..|s| - 1]) + {s[|s| - 1]}
  {
  }

  /** Moving the last free element over to the held ones keeps the partition of `all`. */
  lemma TakeKeepsPartition<T>(free: seq<T>, held: set<T>, all: set<T>)
    requires Distinct(free) && free != [] && Elements(free) !! held && Elements(free) + held == all
    ensures
      var rest, x := free[..|free| - 1], free[|free| - 1];
      && x in all && x !in held && free == rest + [x] && Distinct(rest)
      && Elements(rest) !! held + {x} && Elements(rest) + (held + {x}) == all
  {
    TakeLast(free);
    hide Distinct, Elements;
  }

  lemma PutLast<T>(s: seq<T>, x: T)
    requires Distinct(s)
    ensures Distinct(s + [x]) <==> x !in Elements(s)
    ensures Elements(s + [x]) == Elements(s) + {x}
  {
    if x in Elements(s) {
      var i :| 0 <= i < |s| && s[i] == x;
      assert (s + [x])[i] == (s + [x])[|s|];
    }
  }

  /** Giving an element back to the free ones keeps the partition of `all` if and only if it was held. */
  lemma PutKeepsPartitionIff<T>(free: seq<T>, held: set<T>, all: set<T>, x: T)
    requires Distinct(free) && Elements(free) !! held && Elements(free) + held == all
    ensures
      (Distinct(free + [x]) && Elements(free + [x]) !! held - {x} && Elements(free + [x]) + (held - {x}) == all) <==> x in held
  {
    PutLast(free, x);
    hide Distinct, Elements;
  }

  lemma {:induction false} Product(i: nat, j: nat, size: nat)
    ensures i < j ==> i * size + size <= j * size
    decreases j
  {
    if i < j {
      assert j * size == (j - 1) * size + size;
      Product(i, j - 1, size);
    }
  }

  /** The blocks are pairwise different exactly when they have a size or there is at most one. */
  lemma BlocksDistinctIff(memory: nat, blockSize: nat, blockCount: nat)
    ensures Distinct(Blocks(memory, blockSize, blockCount)) <==> blockSize > 0 || blockCount <= 1
  {
    var blocks := Blocks(memory, blockSize, blockCount);
    if blockSize > 0 {
      forall i, j | 0 <= i < j < blockCount ensures blocks[i] != blocks[j] { Product(i, j, blockSize); }
    } else if blockCount > 1 {
      assert blocks[0] == memory + 0 * blockSize && blocks[1] == memory + 1 * blockSize;
    }
  }

  /** Different blocks are disjoint byte ranges, and every block lies inside the buffer. */
  lemma BlocksAreDisjointRanges(memory: nat, blockSize: nat, blockCount: nat, a: nat, b: nat)
    requires a in Blocks(memory, blockSize, blockCount) && b in Blocks(memory, blockSize, blockCount)
    ensures memory <= a && a + blockSize <= memory + blockSize * blockCount
    ensures a != b ==> a + blockSize <= b || b + blockSize <= a
  {
    var blocks := Blocks(memory, blockSize, blockCount);
    var i :| 0 <= i < blockCount && a == blocks[i];
    var j :| 0 <= j < blockCount && b == blocks[j];
    Product(i, blockCount, blockSize);
    Product(i, j, blockSize);
    Product(j, i, blockSize);
  }

  class Pool {
    const blockSize: nat
    const blockCount: nat
    const memory: nat
    var freeBlocks: seq<nat>
    ghost var held: set<nat>   // the blocks clients have and have not given back

    ghost function All(): set<nat> {
      Elements(Blocks(memory, blockSize, blockCount))
    }

    /** Free and held blocks are all the blocks, none of them twice, and all the blocks are different. */
    ghost predicate Valid()
      reads this
    {
      && (blockSize > 0 || blockCount <= 1)
      && Distinct(freeBlocks)
      && Elements(freeBlocks) !! held
      && Elements(freeBlocks) + held == All()
    }

    /** All blocks are free; they are different, as the pool needs them to be, unless several have no size. */
    constructor (blockSize: nat, blockCount: nat, memory: nat)
      ensures Valid() <==> blockSize > 0 || blockCount <= 1
      ensures this.blockSize == blockSize && this.blockCount == blockCount && this.memory == memory
      ensures held == {} && freeBlocks == Blocks(memory, blockSize, blockCount)
    {
      this.blockSize := blockSize;
      this.blockCount := blockCount;
      this.memory := memory;
      freeBlocks := [];
      held := {};
      new;
      for i := 0 to blockCount
        invariant freeBlocks == Blocks(memory, blockSize, i) && held == {}
      {
        freeBlocks := freeBlocks + [memory + i * blockSize];
      }
      BlocksDistinctIff(memory, blockSize, blockCount);
    }

    lemma Counts()
      requires Valid()
      ensures |freeBlocks| + |held| == |All()| == blockCount
    {
      BlocksDistinctIff(memory, blockSize, blockCount);
      DistinctCount(Blocks(memory, blockSize, blockCount));
      DistinctCount(freeBlocks);
      assert |Elements(freeBlocks) + held| == |Elements(freeBlocks)| + |held|;
    }

    lemma AllHeldIff()
      requires Valid()
      ensures freeBlocks == [] <==> |held| == blockCount
      ensures freeBlocks == [] <==> held == All()
    {
      Counts();
      assert freeBlocks == [] ==> Elements(freeBlocks) == {};
    }

    /** Null exactly when all `blockCount` blocks are held; otherwise a block nobody holds. */
    method Allocate() returns (ptr: Option<nat>)
      requires Valid()
      modifies this`freeBlocks, this`held
      ensures Valid()
      ensures ptr.None? <==> |old(held)| == blockCount
      ensures ptr.None? <==> old(held) == All()
      ensures ptr.None? ==> held == old(held) && freeBlocks == old(freeBlocks)
      ensures ptr.Some? ==>
        && ptr.value in All() && ptr.value !in old(held) && held == old(held) + {ptr.value}
        && old(freeBlocks) == freeBlocks + [ptr.value]
    {
      AllHeldIff();
      if freeBlocks == [] {
        return None;
      }
      TakeKeepsPartition(freeBlocks, held, All());
      hide All, Distinct, Elements;
      var block := freeBlocks[|freeBlocks| - 1];
      freeBlocks := freeBlocks[..|freeBlocks| - 1];
      held := held + {block};
      ptr := Some(block);
    }

    /** Whatever it is given becomes free; that keeps the pool in order exactly if it was a block someone held. */
    method Deallocate(ptr: nat)
      requires Valid()
      modifies this`freeBlocks, this`held
      ensures held == old(held) - {ptr} && freeBlocks == old(freeBlocks) + [ptr]
      ensures Valid() <==> ptr in old(held)
    {
      PutKeepsPartitionIff(freeBlocks, held, All(), ptr);
      freeBlocks := freeBlocks + [ptr];
      held := held - {ptr};
    }
  }
}
