/** The access-token cache of token_manager.cpp; times are nanoseconds of a steady clock. */
module TokenManager {
  import opened Wrappers

  const LIFETIME: int := 59 * 60 * 1_000_000_000

  /** What fetchAccessToken does: it returns a string, empty when the request failed, or throws. */
  datatype Reply = Text(text: string) | Thrown

  /** One call of getAccessToken: the clock at its check, what a fetch would bring, the clock after it. */
  datatype Call = Call(now: int, reply: Reply, later: int)

  datatype Cache = Cache(token: string, expiry: int)

  /** Before the first call: no token, and the epoch as expiry time. */
  const EMPTY: Cache := Cache("", 0)

  /** Line 9: the token has expired or there is none. */
  predicate Fetches(c: Cache, call: Call) {
    call.now > c.expiry || c.token == ""
  }

  /** A fetch that throws leaves the cache alone; any other sets both fields. */
  function Step(c: Cache, call: Call): Cache {
    if !Fetches(c, call) || call.reply.Thrown? then c else Cache(call.reply.text, call.later + LIFETIME)
  }

  /** The token the call returns; None when the fetch threw. */
  function Result(c: Cache, call: Call): Option<string> {
    if !Fetches(c, call) then Some(c.token) else if call.reply.Thrown? then None else Some(call.reply.text)
  }

  class Manager {
    var accessToken: string
    var expiryTime: int

    constructor ()
      ensures Cache(accessToken, expiryTime) == EMPTY
    {
      accessToken := "";
      expiryTime := 0;
    }

    /** getAccessToken, lines 6-15, which runs under token_mutex from start to end. */
    method GetAccessToken(call: Call) returns (token: Option<string>)
      modifies this
      ensures Cache(accessToken, expiryTime) == Step(old(Cache(accessToken, expiryTime)), call)
      ensures token == Result(old(Cache(accessToken, expiryTime)), call)
      ensures token.None? <==> (call.now > old(expiryTime) || old(accessToken) == "") && call.reply.Thrown?
      ensures token.Some? ==> token.value == accessToken
    {
      if call.now > expiryTime || accessToken == "" {
        if call.reply.Thrown? {
          return None;
        }
        accessToken := call.reply.text;
        expiryTime := call.later + LIFETIME;
      }
      token := Some(accessToken);
    }
  }

  // ---------------------------------------------------------------- runs

  function At(calls: seq<Call>, k: nat): Cache
    requires k <= |calls|
  {
    if k == 0 then EMPTY else Step(At(calls, k - 1), calls[k - 1])
  }

  /** The clock never goes back, within a call or from one call to the next. */
  ghost predicate Monotone(calls: seq<Call>) {
    && (forall k :: 0 <= k < |calls| ==> calls[k].now <= calls[k].later)
    && (forall i, k :: 0 <= i < k < |calls| ==> calls[i].later <= calls[k].now)
  }

  ghost predicate FetchesAt(calls: seq<Call>, k: nat)
    requires k < |calls|
  {
    Fetches(At(calls, k), calls[k])
  }

  /** Call `k` fetched, and got a token. */
  ghost predicate Succeeds(calls: seq<Call>, k: nat)
    requires k < |calls|
  {
    FetchesAt(calls, k) && calls[k].reply.Text? && calls[k].reply.text != ""
  }

  /** After a successful fetch the cache stays as that fetch left it until the clock has passed the lifetime. */
  lemma {:induction false} KeptUntilExpiry(calls: seq<Call>, i: nat, k: nat)
    requires Monotone(calls) && i < k <= |calls| && Succeeds(calls, i)
    ensures At(calls, k) == Cache(calls[i].reply.text, calls[i].later + LIFETIME) ||
      exists m :: i < m < k && calls[m].now > calls[i].later + LIFETIME
    decreases k
  {
    if k > i + 1 {
      KeptUntilExpiry(calls, i, k - 1);
      if exists m :: i < m < k - 1 && calls[m].now > calls[i].later + LIFETIME {
        var m :| i < m < k - 1 && calls[m].now > calls[i].later + LIFETIME;
        assert i < m < k;
      } else if FetchesAt(calls, k - 1) {
        assert calls[k - 1].now > calls[i].later + LIFETIME;
      }
    }
  }

  /** Two fetches, the first successful: the second starts more than 59 minutes after the first completed. */
  lemma FetchGap(calls: seq<Call>, i: nat, j: nat)
    requires Monotone(calls) && i < j < |calls| && Succeeds(calls, i) && FetchesAt(calls, j)
    ensures calls[j].now > calls[i].later + LIFETIME
  {
    KeptUntilExpiry(calls, i, j);
    if exists m :: i < m < j && calls[m].now > calls[i].later + LIFETIME {
      var m :| i < m < j && calls[m].now > calls[i].later + LIFETIME;
      assert calls[m].now <= calls[m].later <= calls[j].now;
    }
  }

  /**
    The fetch rate over any run: the last of `n` successful fetches starts more than 59(n-1) minutes after the
    first of them completed.
   */
  lemma {:induction false} FetchRate(calls: seq<Call>, fetches: seq<nat>)
    requires Monotone(calls) && |fetches| >= 2
    requires forall a :: 0 <= a < |fetches| ==> fetches[a] < |calls| && Succeeds(calls, fetches[a])
    requires forall a, b :: 0 <= a < b < |fetches| ==> fetches[a] < fetches[b]
    ensures calls[fetches[|fetches| - 1]].now > calls[fetches[0]].later + (|fetches| - 1) * LIFETIME
  {
    var n := |fetches|;
    FetchGap(calls, fetches[n - 2], fetches[n - 1]);
    if n > 2 {
      FetchRate(calls, fetches[..n - 1]);
      assert calls[fetches[n - 2]].now <= calls[fetches[n - 2]].later;
    }
  }

  /** A token in the cache was brought by a successful fetch, which set the expiry. */
  lemma {:induction false} TokenHasSource(calls: seq<Call>, k: nat) returns (i: nat)
    requires k <= |calls| && At(calls, k).token != ""
    ensures i < k && Succeeds(calls, i) && At(calls, k) == Cache(calls[i].reply.text, calls[i].later + LIFETIME)
  {
    if At(calls, k) != At(calls, k - 1) {
      i := k - 1;
    } else {
      i := TokenHasSource(calls, k - 1);
    }
  }

  /**
    Freshness: what a call returns is either what its own fetch brought, or a non-empty token of an earlier
    successful fetch that was at most 59 minutes old at the call's check.
   */
  lemma ReturnedTokensAreFresh(calls: seq<Call>, k: nat) returns (i: nat)
    requires k < |calls| && Result(At(calls, k), calls[k]).Some?
    ensures
      if FetchesAt(calls, k) then i == k && calls[k].reply == Text(Result(At(calls, k), calls[k]).value)
      else
        && i < k && Succeeds(calls, i) && calls[i].reply == Text(Result(At(calls, k), calls[k]).value)
        && calls[k].now <= calls[i].later + LIFETIME
  {
    if FetchesAt(calls, k) {
      i := k;
    } else {
      i := TokenHasSource(calls, k);
    }
  }

  /** A success at most 59 minutes before the check of call `k`. */
  ghost predicate FreshAt(calls: seq<Call>, i: nat, k: nat)
    requires i < k < |calls|
  {
    Succeeds(calls, i) && calls[k].now <= calls[i].later + LIFETIME
  }

  /** What the fetch of a call brings it. */
  function Fetched(reply: Reply): Option<string> {
    if reply.Thrown? then None else Some(reply.text)
  }

  /**
    What every call of a run returns: while some success is at most 59 minutes old it is that success's token, without
    a fetch; otherwise the call fetches, and returns what its own fetch brought - nothing if and only if it threw.
   */
  lemma EveryCallIsAnswered(calls: seq<Call>, k: nat)
    requires Monotone(calls) && k < |calls|
    ensures FetchesAt(calls, k) <==> !exists i: nat :: i < k && FreshAt(calls, i, k)
    ensures FetchesAt(calls, k) ==> Result(At(calls, k), calls[k]) == Fetched(calls[k].reply)
    ensures forall i: nat :: i < k && FreshAt(calls, i, k) ==> Result(At(calls, k), calls[k]) == Some(calls[i].reply.text)
    ensures Result(At(calls, k), calls[k]).None? <==> FetchesAt(calls, k) && calls[k].reply.Thrown?
  {
    forall i: nat | i < k && FreshAt(calls, i, k)
      ensures !FetchesAt(calls, k) && Result(At(calls, k), calls[k]) == Some(calls[i].reply.text)
    {
      FreshAnswers(calls, i, k);
    }
    if !FetchesAt(calls, k) {
      var i := TokenHasSource(calls, k);
      assert FreshAt(calls, i, k);
    }
  }

  lemma FreshAnswers(calls: seq<Call>, i: nat, k: nat)
    requires Monotone(calls) && i < k < |calls| && FreshAt(calls, i, k)
    ensures !FetchesAt(calls, k) && Result(At(calls, k), calls[k]) == Some(calls[i].reply.text)
  {
    KeptUntilExpiry(calls, i, k);
    if exists m :: i < m < k && calls[m].now > calls[i].later + LIFETIME {
      var m :| i < m < k && calls[m].now > calls[i].later + LIFETIME;
      assert calls[m].now <= calls[m].later <= calls[k].now;
    }
  }

  /**
    Only successes are spaced out.  Of two consecutive calls, the first a fetch and the second made as soon as
    it is over, the second fetches again if and only if the first failed: no token, or an exception.
   */
  lemma RefetchIffFailed(calls: seq<Call>, k: nat)
    requires Monotone(calls) && k + 1 < |calls| && FetchesAt(calls, k) && calls[k + 1].now == calls[k].later
    ensures FetchesAt(calls, k + 1) <==> !Succeeds(calls, k)
  {
    assert At(calls, k + 1) == Step(At(calls, k), calls[k]);
    if calls[k].reply.Thrown? {
      assert calls[k].now <= calls[k + 1].now;
    }
  }
}
