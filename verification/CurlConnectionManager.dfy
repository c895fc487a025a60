/** The pool of reusable curl handles, and one request that takes a handle, retries, and gives it back. */
module CurlConnectionManager {
  import opened Wrappers
  import opened Sequences
  import opened MemoryPool

  type Handle = nat

  /** The outcome of one curl_easy_perform: its result and the chunks its write callback appended. */
  datatype Attempt = Attempt(ok: bool, chunks: seq<string>)

  const MAX_RETRIES: nat := 3

  function Joined(chunks: seq<string>): string {
    if chunks == [] then "" else chunks[0] + Joined(chunks[1..])
  }

  /** Appending is all the write callback does: later chunks come after earlier ones. */
  lemma {:induction false} JoinedAppends(a: seq<string>, b: seq<string>)
    ensures Joined(a + b) == Joined(a) + Joined(b)
  {
    hide Joined;
    if a == [] {
      JoinedOne("");
      assert a + b == b;
    } else {
      JoinedAppends(a[1..], b);
      JoinedFirst(a);
      JoinedFirst(a + b);
      assert (a + b)[1..] == a[1..] + b;
    }
  }

  lemma JoinedFirst(chunks: seq<string>)
    requires chunks != []
    ensures Joined(chunks) == chunks[0] + Joined(chunks[1..])
  {
  }

  lemma JoinedOne(chunk: string)
    ensures Joined([]) == "" && Joined([chunk]) == chunk
  {
    assert [chunk][1..] == [];
  }

  /** Everything the attempts wrote, in order. */
  function AllChunks(tries: seq<Attempt>): string {
    if tries == [] then "" else AllChunks(tries[..|tries| - 1]) + Joined(tries[|tries| - 1].chunks)
  }

  lemma ChunksExtend(tries: seq<Attempt>, attempt: Attempt)
    ensures AllChunks(tries + [attempt]) == AllChunks(tries) + Joined(attempt.chunks)
  {
    hide Joined;
    assert (tries + [attempt])[..|tries|] == tries;
  }

  lemma {:induction false} ChunksAppend(a: seq<Attempt>, b: seq<Attempt>)
    ensures AllChunks(a + b) == AllChunks(a) + AllChunks(b)
  {
    hide Joined, AllChunks;
    if b == [] {
      NothingTried();
      assert a + b == a;
    } else {
      var front, last := b[..|b| - 1], b[|b| - 1];
      ChunksAppend(a, front);
      ChunksExtend(front, last);
      ChunksExtend(a + front, last);
      assert front + [last] == b && (a + front) + [last] == a + b;
    }
  }

  lemma ChunksOfOne(attempt: Attempt)
    ensures AllChunks([]) == "" && AllChunks([attempt]) == Joined(attempt.chunks)
  {
    hide Joined;
    assert [attempt][..0] == [];
  }

  ghost predicate AllFailed(tries: seq<Attempt>) {
    forall i :: 0 <= i < |tries| ==> !tries[i].ok
  }

  /** A first success ended the loop, or three failures did. */
  ghost predicate Ended(ok: bool, tries: seq<Attempt>) {
    && 1 <= |tries| <= MAX_RETRIES
    && AllFailed(tries[..|tries| - 1])
    && tries[|tries| - 1].ok == ok
    && (!ok ==> |tries| == MAX_RETRIES)
  }

  lemma EndedExtend(tries: seq<Attempt>, attempt: Attempt, all: seq<Attempt>)
    requires AllFailed(tries) && |tries| < MAX_RETRIES
    requires |all| == |tries| + 1 && all[..|tries|] == tries && all[|tries|] == attempt
    ensures attempt.ok || |all| == MAX_RETRIES ==> Ended(attempt.ok, all)
    ensures !attempt.ok ==> AllFailed(all)
  {
    assert forall i :: 0 <= i < |tries| ==> all[i] == tries[i];
  }

  /** One more attempt: what it writes comes last, and it ends the loop if it succeeds or is the third. */
  lemma TriesExtend(tries: seq<Attempt>, attempt: Attempt)
    requires AllFailed(tries) && |tries| < MAX_RETRIES
    ensures AllChunks(tries + [attempt]) == AllChunks(tries) + Joined(attempt.chunks)
    ensures if attempt.ok then Ended(true, tries + [attempt]) else AllFailed(tries + [attempt])
    ensures !attempt.ok && |tries| + 1 == MAX_RETRIES ==> Ended(false, tries + [attempt])
  {
    hide Joined, AllChunks, AllFailed, Ended;
    ChunksExtend(tries, attempt);
    EndedExtend(tries, attempt, tries + [attempt]);
  }

  lemma NothingTried()
    ensures AllChunks([]) == "" && AllFailed([])
  {
  }

  /** The loop ends in success if and only if one of the three attempts it may make would succeed. */
  lemma OneOfThree(net: nat -> Attempt, ok: bool, tries: seq<Attempt>)
    requires Ended(ok, tries) && forall i :: 0 <= i < |tries| ==> tries[i] == net(i)
    ensures ok <==> net(0).ok || net(1).ok || net(2).ok
  {
    var n := |tries| - 1;
    assert forall i :: 0 <= i < n ==> tries[..n][i] == net(i);
    assert tries[n] == net(n);
  }

  /** The handles that curl_easy_init returned, in order; it may fail. */
  function Opened(inits: seq<Option<Handle>>): seq<Handle> {
    if inits == [] then []
    else Opened(inits[..|inits| - 1]) + if inits[|inits| - 1].Some? then [inits[|inits| - 1].value] else []
  }

  /** A handle is opened for each curl_easy_init that returned one, whatever the others returned. */
  lemma OpenedExtend(inits: seq<Option<Handle>>, init: Option<Handle>)
    ensures Opened([]) == [] && Opened(inits + [init]) == Opened(inits) + if init.Some? then [init.value] else []
  {
    assert (inits + [init])[..|inits|] == inits;
  }

  lemma {:induction false} OpenedAppends(a: seq<Option<Handle>>, b: seq<Option<Handle>>)
    ensures Opened(a + b) == Opened(a) + Opened(b)
  {
    hide Opened;
    if b == [] {
      OpenedExtend([], None);
      assert a + b == a;
    } else {
      var front, last := b[..|b| - 1], b[|b| - 1];
      OpenedAppends(a, front);
      OpenedExtend(front, last);
      OpenedExtend(a + front, last);
      assert front + [last] == b && (a + front) + [last] == a + b;
    }
  }

  lemma OpenedOne(init: Option<Handle>)
    ensures Opened([]) == [] && Opened([init]) == if init.Some? then [init.value] else []
  {
    assert [init][..0] == [];
  }

  class Manager {
    var curlPool: seq<Handle>
    var freeHandles: seq<Handle>
    ghost var held: set<Handle>

    /** Free and held handles are the pool, none of them twice. */
    ghost predicate Valid()
      reads this
    {
      && Distinct(curlPool) && Distinct(freeHandles)
      && Elements(freeHandles) !! held && Elements(freeHandles) + held == Elements(curlPool)
    }

    /**
      The constructor and initializePool (lines 4-13, 22-31): nothing is opened when curl_global_init fails;
      otherwise `inits` is what each curl_easy_init returned, a different handle each time or none.
     */
    constructor (globalInit: bool, inits: seq<Option<Handle>>)
      requires Distinct(Opened(inits))
      ensures Valid() && curlPool == freeHandles == (if globalInit then Opened(inits) else []) && held == {}
    {
      curlPool := [];
      freeHandles := [];
      held := {};
      new;
      if !globalInit {
        return;
      }
      for i := 0 to |inits|
        invariant curlPool == freeHandles == Opened(inits[..i]) && held == {}
      {
        assert inits[..i + 1][..i] == inits[..i];
        var handle := inits[i];
        if handle.Some? {
          curlPool := curlPool + [handle.value];
          freeHandles := freeHandles + [handle.value];
        }
      }
      assert inits[..|inits|] == inits;
    }

    /** Lines 52-61: no handle exactly when every handle of the pool is held. */
    method GetCurlHandle() returns (handle: Option<Handle>)
      requires Valid()
      modifies this`freeHandles, this`held
      ensures Valid()
      ensures handle.None? <==> old(freeHandles) == []
      ensures handle.None? <==> old(held) == Elements(curlPool)
      ensures handle.None? ==> freeHandles == old(freeHandles) && held == old(held)
      ensures handle.Some? ==>
        handle.value in curlPool && handle.value !in old(held) && held == old(held) + {handle.value} && old(freeHandles) == freeHandles + [handle.value]
    {
      if freeHandles == [] {
        assert Elements(freeHandles) == {};
        return None;
      }
      TakeKeepsPartition(freeHandles, held, Elements(curlPool));
      var last := freeHandles[|freeHandles| - 1];
      freeHandles := freeHandles[..|freeHandles| - 1];
      held := held + {last};
      handle := Some(last);
    }

    /** Whatever it is given becomes free; that keeps the pool in order exactly if it was a handle someone held. */
    method ReleaseCurlHandle(handle: Handle)
      requires Valid()
      modifies this`freeHandles, this`held
      ensures freeHandles == old(freeHandles) + [handle] && held == old(held) - {handle}
      ensures Valid() <==> handle in old(held)
    {
      PutKeepsPartitionIff(freeHandles, held, Elements(curlPool), handle);
      freeHandles := freeHandles + [handle];
      held := held - {handle};
    }

    /**
      order_management.cpp:25-56.  The call is refused when no handle is free; otherwise it makes attempts until
      one succeeds, three at most, and gives its handle back whatever happened.  The response is never cleared
      between attempts: it ends as its old value followed by what all the attempts wrote.
     */
    method PerformCurlRequest(response: string, net: nat -> Attempt) returns (ok: bool, body: string, ghost tries: seq<Attempt>)
      requires Valid()
      modifies this`freeHandles, this`held
      ensures Valid() && freeHandles == old(freeHandles) && held == old(held)
      ensures forall i :: 0 <= i < |tries| ==> tries[i] == net(i)
      ensures if old(freeHandles) == [] then !ok && tries == [] else Ended(ok, tries)
      ensures ok <==> old(freeHandles) != [] && (net(0).ok || net(1).ok || net(2).ok)
      ensures body == response + AllChunks(tries)
    {
      hide AllChunks, AllFailed, Ended, Joined, Distinct, Elements;
      NothingTried();
      var handle := GetCurlHandle();
      body := response;
      tries := [];
      if handle.None? {
        return false, body, tries;
      }
      var retries: nat := 0;
      var res := Attempt(false, []);
      while true
        invariant Valid() && held == old(held) + {handle.value} && handle.value !in old(held)
        invariant old(freeHandles) == freeHandles + [handle.value]
        invariant retries == |tries| < MAX_RETRIES && AllFailed(tries)
        invariant forall i :: 0 <= i < |tries| ==> tries[i] == net(i)
        invariant body == response + AllChunks(tries)
        decreases MAX_RETRIES - retries
      {
        res := net(retries);
        TriesExtend(tries, res);
        body := body + Joined(res.chunks);
        tries := tries + [res];
        if res.ok {
          break;
        }
        retries := retries + 1;
        if !(retries < MAX_RETRIES) {
          break;
        }
      }
      ReleaseCurlHandle(handle.value);
      ok := res.ok;
      OneOfThree(net, ok, tries);
    }
  }
}
