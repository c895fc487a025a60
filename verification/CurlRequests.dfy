/**
  performCurlRequest calls running concurrently over one handle pool.  Taking a handle and giving it back are
  atomic (poolMutex); every curl_easy_perform is a step of its own, with any outcome.
 */
module CurlRequests {
  import opened Sequences
  import opened MemoryPool
  import opened CurlConnectionManager

  /** One call; `given` is the response string it was called with, `tries` what its attempts have brought so far. */
  datatype Call =
    | Starting(given: string)                                                      // line 26
    | Trying(given: string, handle: Handle, retries: nat, response: string, tries: seq<Attempt>)   // lines 39-46
    | Releasing(given: string, handle: Handle, ok: bool, response: string, tries: seq<Attempt>)    // lines 48-49
    | Finished(given: string, ok: bool, response: string, tries: seq<Attempt>)     // lines 27, 51-55

  datatype State = State(curlPool: seq<Handle>, freeHandles: seq<Handle>, calls: seq<Call>)

  datatype Action = Begin(given: string) | Get(call: nat) | Perform(call: nat, attempt: Attempt) | Release(call: nat)

  function Init(curlPool: seq<Handle>): State {
    State(curlPool, curlPool, [])
  }

  function Apply(s: State, a: Action): State {
    match a
    case Begin(given) => s.(calls := s.calls + [Starting(given)])
    case Get(c) =>
      if c >= |s.calls| || !s.calls[c].Starting? then s
      else
        var given := s.calls[c].given;
        if s.freeHandles == [] then s.(calls := s.calls[c := Finished(given, false, given, [])])
        else
          var n := |s.freeHandles| - 1;
          s.(freeHandles := s.freeHandles[..n], calls := s.calls[c := Trying(given, s.freeHandles[n], 0, given, [])])
    case Perform(c, attempt) =>
      if c >= |s.calls| || !s.calls[c].Trying? then s
      else
        var k := s.calls[c];
        var response, tries := k.response + Joined(attempt.chunks), k.tries + [attempt];
        if attempt.ok then s.(calls := s.calls[c := Releasing(k.given, k.handle, true, response, tries)])
        else if k.retries + 1 < MAX_RETRIES then s.(calls := s.calls[c := Trying(k.given, k.handle, k.retries + 1, response, tries)])
        else s.(calls := s.calls[c := Releasing(k.given, k.handle, false, response, tries)])
    case Release(c) =>
      if c >= |s.calls| || !s.calls[c].Releasing? then s
      else
        var k := s.calls[c];
        s.(freeHandles := s.freeHandles + [k.handle], calls := s.calls[c := Finished(k.given, k.ok, k.response, k.tries)])
  }

  function After(s: State, schedule: seq<Action>): State {
    if schedule == [] then s
    else Apply(After(s, schedule[..|schedule| - 1]), schedule[|schedule| - 1])
  }

  // ---------------------------------------------------------------- who holds what

  predicate Holds(c: Call) {
    c.Trying? || c.Releasing?
  }

  function HoldsHandle(c: Call, h: Handle): nat {
    if Holds(c) && c.handle == h then 1 else 0
  }

  /** How many calls in flight hold handle `h`. */
  function Holders(calls: seq<Call>, h: Handle): nat {
    if calls == [] then 0 else Holders(calls[..|calls| - 1], h) + HoldsHandle(calls[|calls| - 1], h)
  }

  lemma {:induction false} HoldersUpdate(calls: seq<Call>, c: nat, x: Call, h: Handle)
    requires c < |calls|
    ensures Holders(calls[c := x], h) + HoldsHandle(calls[c], h) == Holders(calls, h) + HoldsHandle(x, h)
  {
    var n := |calls| - 1;
    if c < n {
      HoldersUpdate(calls[..n], c, x, h);
      assert calls[c := x][..n] == calls[..n][c := x];
    } else {
      assert calls[c := x][..n] == calls[..n];
    }
  }

  /** Each handle is in the free list or with a call in flight as often as it is in the pool. */
  ghost predicate PoolInv(s: State) {
    forall h :: multiset(s.freeHandles)[h] + Holders(s.calls, h) == multiset(s.curlPool)[h]
  }

  /** At most three attempts, none after a success; the response is the old value and every attempt's chunks. */
  ghost predicate CallInv(c: Call) {
    match c
    case Starting(_) => true
    case Trying(given, _, retries, response, tries) =>
      |tries| == retries < MAX_RETRIES && AllFailed(tries) && response == given + AllChunks(tries)
    case Releasing(given, _, ok, response, tries) => Ended(ok, tries) && response == given + AllChunks(tries)
    case Finished(given, ok, response, tries) =>
      ((tries == [] && !ok) || Ended(ok, tries)) && response == given + AllChunks(tries)
  }

  /** A call that changes from holding a handle to not, or back, with the free list changed to match. */
  lemma Exchange(s: State, c: nat, x: Call, free: seq<Handle>)
    requires PoolInv(s) && c < |s.calls|
    requires forall h :: multiset(free)[h] + HoldsHandle(x, h) == multiset(s.freeHandles)[h] + HoldsHandle(s.calls[c], h)
    ensures PoolInv(s.(freeHandles := free, calls := s.calls[c := x]))
  {
    forall h ensures multiset(free)[h] + Holders(s.calls[c := x], h) == multiset(s.curlPool)[h] { HoldersUpdate(s.calls, c, x, h); }
  }

  lemma BeginKeepsPool(s: State, x: Call)
    requires PoolInv(s) && !Holds(x)
    ensures PoolInv(s.(calls := s.calls + [x]))
  {
    assert (s.calls + [x])[..|s.calls|] == s.calls;
  }

  lemma LastCounts(s: seq<Handle>, h: Handle)
    requires s != []
    ensures multiset(s)[h] == multiset(s[..|s| - 1])[h] + if s[|s| - 1] == h then 1 else 0
  {
    assert s == s[..|s| - 1] + [s[|s| - 1]];
  }

  /** What a step changes besides the call it is about. */
  lemma StepChanges(s: State, a: Action)
    requires !a.Begin? && Apply(s, a) != s
    ensures a.call < |s.calls| && Apply(s, a).calls == s.calls[a.call := Apply(s, a).calls[a.call]]
    ensures Apply(s, a) == s.(freeHandles := Apply(s, a).freeHandles, calls := Apply(s, a).calls)
    ensures forall h :: multiset(Apply(s, a).freeHandles)[h] + HoldsHandle(Apply(s, a).calls[a.call], h)
                     == multiset(s.freeHandles)[h] + HoldsHandle(s.calls[a.call], h)
  {
    if a.Get? && s.freeHandles != [] {
      forall h ensures multiset(Apply(s, a).freeHandles)[h] + HoldsHandle(Apply(s, a).calls[a.call], h)
                    == multiset(s.freeHandles)[h] + HoldsHandle(s.calls[a.call], h)
      {
        LastCounts(s.freeHandles, h);
      }
    }
  }

  /** No step loses, duplicates or invents a handle. */
  lemma PoolKeeps(s: State, a: Action)
    requires PoolInv(s)
    ensures PoolInv(Apply(s, a)) && Apply(s, a).curlPool == s.curlPool
  {
    if a.Begin? {
      BeginKeepsPool(s, Starting(a.given));
    } else if Apply(s, a) != s {
      hide PoolInv, Holders, Apply;
      StepChanges(s, a);
      Exchange(s, a.call, Apply(s, a).calls[a.call], Apply(s, a).freeHandles);
    }
  }

  /** Only call `c` moves, and it is still right. */
  ghost predicate CallMoves(s: State, r: State, c: nat) {
    c < |s.calls| && |r.calls| == |s.calls| && r.calls == s.calls[c := r.calls[c]] && CallInv(r.calls[c])
  }

  lemma GetKeepsCall(s: State, c: nat)
    requires c < |s.calls| && s.calls[c].Starting?
    ensures CallMoves(s, Apply(s, Get(c)), c)
  {
    NothingTried();
    hide AllChunks, Ended;
  }

  lemma PerformKeepsCall(s: State, c: nat, attempt: Attempt)
    requires c < |s.calls| && s.calls[c].Trying? && CallInv(s.calls[c])
    ensures CallMoves(s, Apply(s, Perform(c, attempt)), c)
  {
    hide AllChunks, AllFailed, Ended, Joined;
    TriesExtend(s.calls[c].tries, attempt);
  }

  lemma ReleaseKeepsCall(s: State, c: nat)
    requires c < |s.calls| && s.calls[c].Releasing? && CallInv(s.calls[c])
    ensures CallMoves(s, Apply(s, Release(c)), c)
  {
    hide AllChunks, Ended;
  }

  lemma CallsKeep(s: State, a: Action)
    requires forall c :: 0 <= c < |s.calls| ==> CallInv(s.calls[c])
    ensures forall c :: 0 <= c < |Apply(s, a).calls| ==> CallInv(Apply(s, a).calls[c])
  {
    if a.Begin? {
      hide Joined;
    } else if Apply(s, a) != s {
      CallMovesRight(s, a);
      hide Apply, CallInv;
    }
  }

  lemma CallMovesRight(s: State, a: Action)
    requires !a.Begin? && Apply(s, a) != s
    requires forall c :: 0 <= c < |s.calls| ==> CallInv(s.calls[c])
    ensures CallMoves(s, Apply(s, a), a.call)
  {
    hide CallMoves, CallInv, Joined;
    match a
    case Get(c) => GetKeepsCall(s, c);
    case Perform(c, attempt) => PerformKeepsCall(s, c, attempt);
    case Release(c) => ReleaseKeepsCall(s, c);
    case Begin(_) =>
  }

  lemma {:induction false} RunKeepsInv(curlPool: seq<Handle>, schedule: seq<Action>)
    ensures
      var s := After(Init(curlPool), schedule);
      PoolInv(s) && s.curlPool == curlPool && forall c :: 0 <= c < |s.calls| ==> CallInv(s.calls[c])
  {
    if schedule == [] {
    } else {
      RunKeepsInv(curlPool, schedule[..|schedule| - 1]);
      hide Apply, PoolInv, CallInv, Init;
      PoolKeeps(After(Init(curlPool), schedule[..|schedule| - 1]), schedule[|schedule| - 1]);
      CallsKeep(After(Init(curlPool), schedule[..|schedule| - 1]), schedule[|schedule| - 1]);
    }
  }

  lemma TwoHolders(calls: seq<Call>, c: nat, d: nat)
    requires c < d < |calls| && Holds(calls[c]) && Holds(calls[d]) && calls[c].handle == calls[d].handle
    ensures Holders(calls, calls[c].handle) >= 2
  {
    HoldersUpdate(calls, c, Starting(""), calls[c].handle);
    HoldersUpdate(calls[c := Starting("")], d, Starting(""), calls[c].handle);
  }

  lemma OneHolder(calls: seq<Call>, c: nat)
    requires c < |calls| && Holds(calls[c])
    ensures Holders(calls, calls[c].handle) >= 1
  {
    HoldersUpdate(calls, c, Starting(""), calls[c].handle);
  }

  lemma {:induction false} NobodyHolds(calls: seq<Call>, h: Handle)
    requires forall c :: 0 <= c < |calls| ==> !Holds(calls[c])
    ensures Holders(calls, h) == 0
  {
    if calls != [] { NobodyHolds(calls[..|calls| - 1], h); }
  }

  lemma {:induction false} DistinctCounts(s: seq<Handle>, h: Handle)
    requires Distinct(s)
    ensures multiset(s)[h] <= 1
  {
    if s != [] {
      DistinctCounts(s[1..], h);
      assert s == [s[0]] + s[1..];
      assert s[0] !in multiset(s[1..]);
    }
  }

  /**
    Handle exclusivity in every interleaving: each handle of the pool is either free, once, or with exactly one
    call in flight, and no others are around; so no two calls hold the same handle, the free list is empty
    exactly when every handle is in flight, and with no call in flight it is a permutation of the pool.
   */
  lemma HandlesAreExclusive(curlPool: seq<Handle>, schedule: seq<Action>)
    requires Distinct(curlPool)
    ensures
      var s := After(Init(curlPool), schedule);
      && (forall h :: multiset(s.freeHandles)[h] + Holders(s.calls, h) == if h in curlPool then 1 else 0)
      && (forall c, d :: 0 <= c < d < |s.calls| && Holds(s.calls[c]) && Holds(s.calls[d]) ==> s.calls[c].handle != s.calls[d].handle)
      && (forall c :: 0 <= c < |s.calls| && Holds(s.calls[c]) ==> s.calls[c].handle in curlPool && s.calls[c].handle !in s.freeHandles)
      && (s.freeHandles == [] <==> forall h :: h in curlPool ==> Holders(s.calls, h) == 1)
      && ((forall c :: 0 <= c < |s.calls| ==> !Holds(s.calls[c])) ==> multiset(s.freeHandles) == multiset(curlPool))
  {
    hide After, Distinct, CallInv, Holders, PoolInv;
    var s := After(Init(curlPool), schedule);
    RunKeepsInv(curlPool, schedule);
    PoolCounts(s);
    forall c, d | 0 <= c < d < |s.calls| && Holds(s.calls[c]) && Holds(s.calls[d]) ensures s.calls[c].handle != s.calls[d].handle {
      if s.calls[c].handle == s.calls[d].handle { TwoHolders(s.calls, c, d); }
    }
    forall c | 0 <= c < |s.calls| && Holds(s.calls[c]) ensures s.calls[c].handle in curlPool && s.calls[c].handle !in s.freeHandles {
      OneHolder(s.calls, c);
    }
    if s.freeHandles != [] { assert s.freeHandles[0] in curlPool && Holders(s.calls, s.freeHandles[0]) == 0; }
    if forall c :: 0 <= c < |s.calls| ==> !Holds(s.calls[c]) {
      forall h ensures Holders(s.calls, h) == 0 { NobodyHolds(s.calls, h); }
      assert forall h :: multiset(s.freeHandles)[h] == multiset(curlPool)[h];
    }
  }

  lemma PoolCounts(s: State)
    requires PoolInv(s) && Distinct(s.curlPool)
    ensures forall h :: multiset(s.freeHandles)[h] + Holders(s.calls, h) == if h in s.curlPool then 1 else 0
    ensures forall h :: multiset(s.curlPool)[h] == if h in s.curlPool then 1 else 0
  {
    forall h ensures multiset(s.curlPool)[h] == if h in s.curlPool then 1 else 0 { DistinctCounts(s.curlPool, h); }
  }

  // ---------------------------------------------------------------- what each call was given and got

  /** The response strings the calls of a run were made with, in the order of the calls. */
  function Given(schedule: seq<Action>): seq<string> {
    if schedule == [] then []
    else Given(schedule[..|schedule| - 1]) + if schedule[|schedule| - 1].Begin? then [schedule[|schedule| - 1].given] else []
  }

  /** The label is a curl_easy_perform of call `c`, and `c` is in its loop. */
  predicate Attempts(s: State, a: Action, c: nat) {
    a.Perform? && a.call == c && c < |s.calls| && s.calls[c].Trying?
  }

  /** What the attempts of call `c` have brought, in order. */
  function Brought(curlPool: seq<Handle>, schedule: seq<Action>, c: nat): seq<Attempt> {
    if schedule == [] then []
    else
      var front, last := schedule[..|schedule| - 1], schedule[|schedule| - 1];
      Brought(curlPool, front, c) + if Attempts(After(Init(curlPool), front), last, c) then [last.attempt] else []
  }

  /** The label is the getCurlHandle of call `c`, and the free list is empty. */
  predicate FindsNone(s: State, a: Action, c: nat) {
    a == Get(c) && c < |s.calls| && s.calls[c].Starting? && s.freeHandles == []
  }

  predicate Refused(curlPool: seq<Handle>, schedule: seq<Action>, c: nat) {
    if schedule == [] then false
    else
      var front, last := schedule[..|schedule| - 1], schedule[|schedule| - 1];
      Refused(curlPool, front, c) || FindsNone(After(Init(curlPool), front), last, c)
  }

  function TriesOf(k: Call): seq<Attempt> {
    if k.Starting? then [] else k.tries
  }

  predicate EndedUntried(k: Call) {
    k.Finished? && k.tries == []
  }

  /** What one label does to call `c`: it keeps what it was given, adds an attempt, or refuses it. */
  ghost predicate Recounts(s: State, a: Action, c: nat)
    requires c < |s.calls|
  {
    && c < |Apply(s, a).calls| && Apply(s, a).calls[c].given == s.calls[c].given
    && TriesOf(Apply(s, a).calls[c]) == TriesOf(s.calls[c]) + (if Attempts(s, a, c) then [a.attempt] else [])
    && (EndedUntried(Apply(s, a).calls[c]) <==> EndedUntried(s.calls[c]) || FindsNone(s, a, c))
  }

  lemma OthersRecount(s: State, a: Action, c: nat)
    requires c < |s.calls| && (a.Begin? || a.call != c)
    ensures Recounts(s, a, c)
  {
    assert Apply(s, a).calls[c] == s.calls[c] by { hide Joined; }
    hide Apply;
  }

  lemma GetRecounts(s: State, c: nat)
    requires c < |s.calls|
    ensures Recounts(s, Get(c), c)
  {
  }

  lemma PerformRecounts(s: State, c: nat, attempt: Attempt)
    requires c < |s.calls|
    ensures Recounts(s, Perform(c, attempt), c)
  {
    hide Joined;
  }

  lemma ReleaseRecounts(s: State, c: nat)
    requires c < |s.calls| && (s.calls[c].Releasing? ==> s.calls[c].tries != [])
    ensures Recounts(s, Release(c), c)
  {
  }

  /** One label, seen from call `c`. */
  lemma HistoryStep(s: State, a: Action, c: nat)
    requires c < |s.calls| && CallInv(s.calls[c])
    ensures Recounts(s, a, c)
  {
    assert s.calls[c].Releasing? ==> s.calls[c].tries != [] by { hide AllChunks, AllFailed; }
    hide Recounts, CallInv;
    if a.Begin? || a.call != c { OthersRecount(s, a, c); }
    else if a.Get? { GetRecounts(s, c); }
    else if a.Perform? { PerformRecounts(s, c, a.attempt); }
    else { ReleaseRecounts(s, c); }
  }

  lemma NewCall(s: State, a: Action)
    ensures |Apply(s, a).calls| == |s.calls| + if a.Begin? then 1 else 0
    ensures a.Begin? ==> Apply(s, a).calls[|s.calls|] == Starting(a.given)
  {
    hide Joined;
  }

  lemma {:induction false} CallHistory(curlPool: seq<Handle>, schedule: seq<Action>, c: nat)
    ensures
      var s := After(Init(curlPool), schedule);
      && |s.calls| == |Given(schedule)|
      && (if c < |s.calls| then
            && s.calls[c].given == Given(schedule)[c] && TriesOf(s.calls[c]) == Brought(curlPool, schedule, c)
            && (EndedUntried(s.calls[c]) <==> Refused(curlPool, schedule, c))
          else Brought(curlPool, schedule, c) == [] && !Refused(curlPool, schedule, c))
  {
    hide Apply, CallInv, PoolInv, TriesOf, EndedUntried, Attempts, FindsNone;
    if schedule == [] {
    } else {
      var front, last := schedule[..|schedule| - 1], schedule[|schedule| - 1];
      var s := After(Init(curlPool), front);
      CallHistory(curlPool, front, c);
      RunKeepsInv(curlPool, front);
      NewCall(s, last);
      if c < |s.calls| { HistoryStep(s, last, c); } else { NotYetCalled(s, last, c); }
    }
  }

  lemma NotYetCalled(s: State, a: Action, c: nat)
    requires c >= |s.calls|
    ensures !Attempts(s, a, c) && !FindsNone(s, a, c)
    ensures a.Begin? ==> TriesOf(Starting(a.given)) == [] && !EndedUntried(Starting(a.given))
  {
  }

  /**
    Every finished call made the attempts of its own loop, at most three, stopped at the first success, reports
    whether there was one, and ends with the response it was called with followed by the chunks of all its attempts,
    failed ones included.  It made no attempt if and only if it found the free list empty.
   */
  lemma FinishedCallsAreRight(curlPool: seq<Handle>, schedule: seq<Action>, c: nat)
    requires c < |After(Init(curlPool), schedule).calls| && After(Init(curlPool), schedule).calls[c].Finished?
    ensures c < |Given(schedule)|
    ensures
      var k, tries := After(Init(curlPool), schedule).calls[c], Brought(curlPool, schedule, c);
      && |tries| <= MAX_RETRIES
      && k.response == Given(schedule)[c] + AllChunks(tries)
      && (k.ok <==> exists i :: 0 <= i < |tries| && tries[i].ok)
      && (forall i :: 0 <= i < |tries| - 1 ==> !tries[i].ok)
      && (tries == [] <==> Refused(curlPool, schedule, c))
      && (!k.ok && tries != [] ==> |tries| == MAX_RETRIES)
  {
    hide After, Init, CallInv, PoolInv, AllChunks, Brought, Given, Refused;
    RunKeepsInv(curlPool, schedule);
    CallHistory(curlPool, schedule, c);
    FinishedCall(After(Init(curlPool), schedule).calls[c]);
  }

  lemma GetGoesOn(s: State, c: nat)
    requires c < |s.calls|
    ensures |Apply(s, Get(c)).calls| == |s.calls| && !Apply(s, Get(c)).calls[c].Starting?
    ensures !s.calls[c].Starting? ==> Apply(s, Get(c)) == s
    ensures Apply(s, Get(c)).calls[c].Trying? ==> s.calls[c].Trying? || Apply(s, Get(c)).calls[c].retries == 0
  {
  }

  lemma PerformGoesOn(s: State, c: nat, attempt: Attempt)
    requires c < |s.calls|
    ensures |Apply(s, Perform(c, attempt)).calls| == |s.calls|
    ensures s.calls[c].Starting? <==> Apply(s, Perform(c, attempt)).calls[c].Starting?
    ensures Apply(s, Perform(c, attempt)).calls[c].Trying? ==>
      s.calls[c].Trying? && s.calls[c].retries + 1 == Apply(s, Perform(c, attempt)).calls[c].retries < MAX_RETRIES
  {
    hide Joined;
  }

  lemma ReleaseGoesOn(s: State, c: nat)
    requires c < |s.calls| && (s.calls[c].Releasing? || s.calls[c].Finished?)
    ensures c < |Apply(s, Release(c)).calls| && Apply(s, Release(c)).calls[c].Finished?
  {
  }

  /** Handles are reused last in, first out: the next call gets the handle released just before. */
  lemma ReleasedIsReused(s: State, c: nat, d: nat)
    requires c < |s.calls| && d < |s.calls| && s.calls[c].Releasing? && s.calls[d].Starting?
    ensures
      var r := Apply(Apply(s, Release(c)), Get(d));
      && r.calls[d] == Trying(s.calls[d].given, s.calls[c].handle, 0, s.calls[d].given, [])
      && r.freeHandles == s.freeHandles
  {
    var q := Apply(s, Release(c));
    assert q.freeHandles == s.freeHandles + [s.calls[c].handle] && q.calls[d] == s.calls[d];
  }

  /** No call is stuck: its own next five labels end it, whoever else holds handles and whatever its attempts bring. */
  lemma EveryCallEnds(s: State, c: nat, a: Attempt, b: Attempt, d: Attempt)
    requires c < |s.calls|
    ensures
      var r := Apply(Apply(Apply(Apply(Apply(s, Get(c)), Perform(c, a)), Perform(c, b)), Perform(c, d)), Release(c));
      c < |r.calls| && r.calls[c].Finished?
  {
    hide Apply;
    var s1 := Apply(s, Get(c));
    var s2 := Apply(s1, Perform(c, a));
    var s3 := Apply(s2, Perform(c, b));
    var s4 := Apply(s3, Perform(c, d));
    GetGoesOn(s, c);
    PerformGoesOn(s1, c, a);
    PerformGoesOn(s2, c, b);
    PerformGoesOn(s3, c, d);
    ReleaseGoesOn(s4, c);
  }

  lemma FinishedCall(k: Call)
    requires k.Finished? && CallInv(k)
    ensures |k.tries| <= MAX_RETRIES && k.response == k.given + AllChunks(k.tries)
    ensures k.ok <==> exists i :: 0 <= i < |k.tries| && k.tries[i].ok
    ensures forall i :: 0 <= i < |k.tries| - 1 ==> !k.tries[i].ok
    ensures !k.ok ==> k.tries == [] || |k.tries| == MAX_RETRIES
  {
    hide AllChunks;
    if k.tries != [] {
      assert forall i :: 0 <= i < |k.tries| - 1 ==> k.tries[i] == k.tries[..|k.tries| - 1][i];
    }
  }
}
