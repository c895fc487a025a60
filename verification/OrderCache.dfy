/**
  The tails of placeOrder and modifyOrder (order_management.cpp:203-229, 368-391): reading the reply, taking a
  block of the 100-block order pool, and recording the order in the cache.
 */
module OrderCache {
  import opened Wrappers
  import opened JsonTranslation
  import MP = MemoryPool

  const ORDER_BLOCKS: nat := 100

  /** What a request brought: nothing readable, or a parsed document (null when parsing failed). */
  datatype Reply = Unreadable | Document(parsed: bool, root: Value)

  /** How the reading of a reply ends: false, an assertion of rapidjson on a value of the wrong kind, or an order. */
  datatype Reading = Refused | Asserts | Order(id: string, order: Value)

  /** The first member called `name` is the one at `i`. */
  ghost predicate FirstNamed(members: seq<Member>, i: nat, name: string) {
    i < |members| && members[i].name == name && forall k :: 0 <= k < i ==> members[k].name != name
  }

  /** FindMember: the first member of that name. */
  function Find(members: seq<Member>, name: string): (found: Option<Value>)
    ensures found.Some? ==> exists i: nat :: FirstNamed(members, i, name) && members[i].value == found.value
    ensures found.None? ==> forall i :: 0 <= i < |members| ==> members[i].name != name
  {
    if members == [] then None
    else if members[0].name == name then
      assert FirstNamed(members, 0, name);
      Some(members[0].value)
    else
      assert forall i :: 0 < i < |members| ==> members[i] == members[1..][i - 1];
      assert forall i: nat :: FirstNamed(members[1..], i, name) ==> FirstNamed(members, i + 1, name) && members[i + 1].value == members[1..][i].value;
      Find(members[1..], name)
  }

  /** Lines 209-229 of placeOrder: the id comes from the reply. */
  function ReadPlaced(reply: Reply): Reading {
    if reply.Unreadable? then Refused
    else if !reply.root.RObject? then Asserts
    else
      var result := Find(reply.root.members, "result");
      if reply.parsed && result.Some? && !result.value.RObject? then Asserts
      else
        var order := if result.Some? && result.value.RObject? then Find(result.value.members, "order") else None;
        if reply.parsed && order.Some? then
          if !order.value.RObject? then Asserts
          else
            var id := Find(order.value.members, "order_id");
            if id.None? then Refused
            else if !id.value.RString? then Asserts
            else Order(CutAtNul(id.value.text), order.value)
        else
          var error := Find(reply.root.members, "error");
          if error.None? then Refused else ReadError(error.value)
  }

  /** error["message"].GetString(), then false. */
  function ReadError(error: Value): Reading {
    if !error.RObject? then Asserts
    else
      var message := Find(error.members, "message");
      if message.Some? && message.value.RString? then Refused else Asserts
  }

  /** Lines 375-391 of modifyOrder: the id is the caller's. */
  function ReadModified(reply: Reply, orderId: string): Reading {
    if reply.Unreadable? then Refused
    else if !reply.root.RObject? then Asserts
    else
      var error := Find(reply.root.members, "error");
      if error.Some? then ReadError(error.value)
      else if !reply.parsed then Refused
      else
        var result := Find(reply.root.members, "result");
        if result.None? || !result.value.RObject? then Asserts
        else
          var order := Find(result.value.members, "order");
          if order.None? then Refused else Order(orderId, order.value)
  }

  datatype Request = Place(reply: Reply) | Modify(orderId: string, reply: Reply)

  function Read(request: Request): Reading {
    match request
    case Place(reply) => ReadPlaced(reply)
    case Modify(orderId, reply) => ReadModified(reply, orderId)
  }

  // ---------------------------------------------------------------- what a reply says, member by member

  /** `v` is an object whose first member called `name` is `w`. */
  ghost predicate Has(v: Value, name: string, w: Value) {
    v.RObject? && exists i: nat :: FirstNamed(v.members, i, name) && v.members[i].value == w
  }

  /** `v` is an object without a member called `name`. */
  ghost predicate Lacks(v: Value, name: string) {
    v.RObject? && forall i :: 0 <= i < |v.members| ==> v.members[i].name != name
  }

  /** `order` is result.order of the document. */
  ghost predicate HasOrder(root: Value, order: Value) {
    exists result :: Has(root, "result", result) && Has(result, "order", order)
  }

  /** The document has a result object, but no order in it. */
  ghost predicate EmptyResult(root: Value) {
    exists result :: Has(root, "result", result) && Lacks(result, "order")
  }

  /** The document's result is no object. */
  ghost predicate BadResult(root: Value) {
    exists result :: Has(root, "result", result) && !result.RObject?
  }

  /** The document has an error with a readable message. */
  ghost predicate ReadableError(root: Value) {
    exists error, message :: Has(root, "error", error) && Has(error, "message", message) && message.RString?
  }

  ghost predicate OrderCalled(order: Value, id: string) {
    exists text :: Has(order, "order_id", RString(text)) && IsCString(text, id)
  }

  ghost predicate BadOrderId(order: Value) {
    !order.RObject? || exists id :: Has(order, "order_id", id) && !id.RString?
  }

  /** A reply that has no order: it is refused if it has no error or a readable one, and is misread otherwise. */
  ghost predicate NoOrder(reply: Reply)
    requires reply.Document?
  {
    reply.root.RObject? && (reply.parsed ==> Lacks(reply.root, "result") || EmptyResult(reply.root))
  }

  /** What placeOrder has to make of a reply, said of the document itself. */
  ghost predicate Placed(reply: Reply, reading: Reading) {
    match reading
    case Order(id, order) => reply.Document? && reply.parsed && HasOrder(reply.root, order) && OrderCalled(order, id)
    case Refused =>
      || reply.Unreadable?
      || (reply.parsed && exists order :: HasOrder(reply.root, order) && Lacks(order, "order_id"))
      || (NoOrder(reply) && (Lacks(reply.root, "error") || ReadableError(reply.root)))
    case Asserts =>
      && reply.Document?
      && (|| !reply.root.RObject?
          || (reply.parsed && BadResult(reply.root))
          || (reply.parsed && exists order :: HasOrder(reply.root, order) && BadOrderId(order))
          || (NoOrder(reply) && !Lacks(reply.root, "error") && !ReadableError(reply.root)))
  }

  /** What modifyOrder has to make of a reply. */
  ghost predicate Modified(reply: Reply, orderId: string, reading: Reading) {
    match reading
    case Order(id, order) =>
      reply.Document? && reply.parsed && Lacks(reply.root, "error") && HasOrder(reply.root, order) && id == orderId
    case Refused =>
      || reply.Unreadable?
      || ReadableError(reply.root)
      || (Lacks(reply.root, "error") && (!reply.parsed || EmptyResult(reply.root)))
    case Asserts =>
      && reply.Document?
      && (|| !reply.root.RObject?
          || (!Lacks(reply.root, "error") && !ReadableError(reply.root))
          || (Lacks(reply.root, "error") && reply.parsed && (Lacks(reply.root, "result") || BadResult(reply.root))))
  }

  ghost predicate Reads(request: Request, reading: Reading) {
    match request
    case Place(reply) => Placed(reply, reading)
    case Modify(orderId, reply) => Modified(reply, orderId, reading)
  }

  lemma HasIff(v: Value, name: string, w: Value)
    ensures Has(v, name, w) <==> v.RObject? && Find(v.members, name) == Some(w)
    ensures Lacks(v, name) <==> v.RObject? && Find(v.members, name) == None
  {
    hide Find;
    if v.RObject? && Find(v.members, name).Some? {
      var i: nat :| FirstNamed(v.members, i, name) && v.members[i].value == Find(v.members, name).value;
      if Has(v, name, w) {
        var k: nat :| FirstNamed(v.members, k, name) && v.members[k].value == w;
        assert !(i < k) && !(k < i);
      }
    }
  }

  /** The same for all values at once. */
  lemma Members(v: Value, name: string)
    ensures forall w :: Has(v, name, w) <==> v.RObject? && Find(v.members, name) == Some(w)
    ensures Lacks(v, name) <==> v.RObject? && Find(v.members, name) == None
  {
    hide Find, Has, Lacks;
    HasIff(v, name, RNull);
    forall w ensures Has(v, name, w) <==> v.RObject? && Find(v.members, name) == Some(w) { HasIff(v, name, w); }
  }

  /** The member that FindMember gives, if `v` is an object. */
  function Part(v: Value, name: string): Option<Value> {
    if v.RObject? then Find(v.members, name) else None
  }

  lemma ResultParts(root: Value, order: Value)
    ensures
      var result := Part(root, "result");
      && (HasOrder(root, order) <==> result.Some? && Part(result.value, "order") == Some(order))
      && (EmptyResult(root) <==> result.Some? && result.value.RObject? && Part(result.value, "order").None?)
      && (BadResult(root) <==> result.Some? && !result.value.RObject?)
      && (Lacks(root, "result") <==> root.RObject? && result.None?)
  {
    hide Has, Lacks, Find;
    Members(root, "result");
    forall result ensures Has(result, "order", order) <==> Part(result, "order") == Some(order) { HasIff(result, "order", order); }
    forall result ensures Lacks(result, "order") <==> result.RObject? && Part(result, "order").None? { HasIff(result, "order", order); }
    var result := Part(root, "result");
    if result.Some? { assert Has(root, "result", result.value); }
  }

  lemma ErrorParts(root: Value)
    ensures
      var error := Part(root, "error");
      && (ReadableError(root) <==> error.Some? && ReadError(error.value).Refused?)
      && (Lacks(root, "error") <==> root.RObject? && error.None?)
  {
    hide Has, Lacks, Find;
    Members(root, "error");
    forall error ensures forall message :: Has(error, "message", message) <==> Part(error, "message") == Some(message) { Members(error, "message"); }
    var error := Part(root, "error");
    if error.Some? && Part(error.value, "message").Some? {
      assert Has(root, "error", error.value) && Has(error.value, "message", Part(error.value, "message").value);
    }
  }

  lemma OrderParts(order: Value, id: string)
    ensures
      var part := Part(order, "order_id");
      && (OrderCalled(order, id) <==> part.Some? && part.value.RString? && id == CutAtNul(part.value.text))
      && (BadOrderId(order) <==> !order.RObject? || (part.Some? && !part.value.RString?))
      && (Lacks(order, "order_id") <==> order.RObject? && part.None?)
  {
    hide Has, Lacks, Find, CutAtNul, IsCString;
    Members(order, "order_id");
    var part := Part(order, "order_id");
    if part.Some? && part.value.RString? {
      CutIsCString(part.value.text, id);
      assert Has(order, "order_id", RString(part.value.text));
    }
  }

  /** The parts of a document that placeOrder looks at, as FindMember gives them. */
  lemma DocumentParts(root: Value)
    ensures
      var result, error := Part(root, "result"), Part(root, "error");
      && (forall order :: HasOrder(root, order) <==> result.Some? && Part(result.value, "order") == Some(order))
      && (EmptyResult(root) <==> result.Some? && result.value.RObject? && Part(result.value, "order").None?)
      && (BadResult(root) <==> result.Some? && !result.value.RObject?)
      && (Lacks(root, "result") <==> root.RObject? && result.None?)
      && (ReadableError(root) <==> error.Some? && ReadError(error.value).Refused?)
      && (Lacks(root, "error") <==> root.RObject? && error.None?)
      && (error.Some? ==> !ReadError(error.value).Order?)
  {
    hide Part, Lacks, HasOrder, EmptyResult, BadResult, ReadableError, ReadError;
    ErrorParts(root);
    ErrorReading(root);
    ResultParts(root, RNull);
    forall order ensures HasOrder(root, order) <==> Part(root, "result").Some? && Part(Part(root, "result").value, "order") == Some(order) {
      ResultParts(root, order);
    }
  }

  lemma PlacedOrderIff(reply: Reply, id: string, order: Value)
    requires reply.Document?
    ensures Placed(reply, Order(id, order)) <==> ReadPlaced(reply) == Order(id, order)
  {
    hide Find, Lacks, HasOrder, EmptyResult, BadResult, ReadableError, OrderCalled, BadOrderId, CutAtNul, ReadError;
    DocumentParts(reply.root);
    OrderParts(order, id);
  }

  lemma PlacedRefusedIff(reply: Reply)
    requires reply.Document?
    ensures Placed(reply, Refused) <==> ReadPlaced(reply) == Refused
  {
    hide Find, Lacks, HasOrder, EmptyResult, BadResult, ReadableError, OrderCalled, BadOrderId, CutAtNul, ReadError;
    DocumentParts(reply.root);
    forall order ensures Lacks(order, "order_id") <==> order.RObject? && Part(order, "order_id").None? { OrderParts(order, ""); }
  }

  lemma PlacedAssertsIff(reply: Reply)
    requires reply.Document?
    ensures Placed(reply, Asserts) <==> ReadPlaced(reply) == Asserts
  {
    hide Find, Lacks, HasOrder, EmptyResult, BadResult, ReadableError, OrderCalled, BadOrderId, CutAtNul, ReadError;
    DocumentParts(reply.root);
    forall order ensures BadOrderId(order) <==> !order.RObject? || (Part(order, "order_id").Some? && !Part(order, "order_id").value.RString?) {
      OrderParts(order, "");
    }
  }

  lemma PlacedIff(reply: Reply, reading: Reading)
    ensures Placed(reply, reading) <==> reading == ReadPlaced(reply)
  {
    if reply.Document? {
      hide Placed, ReadPlaced;
      match reading
      case Order(id, order) => PlacedOrderIff(reply, id, order);
      case Refused => PlacedRefusedIff(reply);
      case Asserts => PlacedAssertsIff(reply);
    }
  }

  lemma ErrorReading(root: Value)
    ensures Part(root, "error").Some? ==> !ReadError(Part(root, "error").value).Order?
  {
  }

  lemma ModifiedIff(reply: Reply, orderId: string, reading: Reading)
    ensures Modified(reply, orderId, reading) <==> reading == ReadModified(reply, orderId)
  {
    if reply.Document? {
      hide Find, Lacks, HasOrder, EmptyResult, BadResult, ReadableError, ReadError;
      DocumentParts(reply.root);
    }
  }

  /** A reply has one reading, and it is the one the code arrives at. */
  lemma ReadsIff(request: Request, reading: Reading)
    ensures Reads(request, reading) <==> reading == Read(request)
  {
    hide Placed, Modified, ReadPlaced, ReadModified;
    match request
    case Place(reply) => PlacedIff(reply, reading);
    case Modify(orderId, reply) => ModifiedIff(reply, orderId, reading);
  }

  class OrderApi {
    var orders: map<string, Json>
    const orderPool: MP.Pool

    ghost predicate Valid()
      reads this, orderPool
    {
      orderPool.Valid() && orderPool.blockCount == ORDER_BLOCKS && |orderPool.held| <= ORDER_BLOCKS
    }

    constructor (blockSize: nat, memory: nat)
      requires blockSize > 0
      ensures Valid() && orders == map[] && orderPool.held == {} && fresh(orderPool)
    {
      orderPool := new MP.Pool(blockSize, ORDER_BLOCKS, memory);
      orders := map[];
    }

    /**
      A reply with an order takes a block and records what the order means; with the pool exhausted the call still
      succeeds but records nothing, and any other reply changes nothing.  `None` is a failed library assertion.
     */
    method Handle(request: Request) returns (outcome: Option<bool>, ghost reading: Reading)
      requires Valid()
      modifies this`orders, orderPool`freeBlocks, orderPool`held
      ensures Valid()
      ensures Reads(request, reading)
      ensures outcome == if reading.Asserts? then None else Some(reading.Order?)
      ensures reading.Order? && |old(orderPool.held)| < ORDER_BLOCKS ==>
        && reading.id in orders && Means(reading.order, orders[reading.id]) && orders == old(orders)[reading.id := orders[reading.id]]
        && |orderPool.held| == |old(orderPool.held)| + 1
      ensures !(reading.Order? && |old(orderPool.held)| < ORDER_BLOCKS) ==> orders == old(orders) && orderPool.held == old(orderPool.held)
    {
      hide Reads, Means, Translate, Read;
      var read := Read(request);
      reading := read;
      ReadsIff(request, reading);
      if read.Asserts? {
        return None, reading;
      }
      if read.Refused? {
        return Some(false), reading;
      }
      var block := orderPool.Allocate();
      orderPool.Counts();
      if block.Some? {
        var translated := Convert(read.order);
        orders := orders[read.id := translated];
      }
      outcome := Some(true);
    }

    /** The cache and the pool are as the orders read so far make them. */
    ghost predicate Recorded(log: seq<Reading>)
      reads this, orderPool
    {
      |orderPool.held| == Min(ORDER_BLOCKS, |log|) && Matches(orders, log, |orderPool.held|)
    }

    method HandleNext(request: Request, ghost log: seq<Reading>) returns (outcome: Option<bool>, ghost reading: Reading)
      requires Valid() && Recorded(log)
      modifies this`orders, orderPool`freeBlocks, orderPool`held
      ensures Valid() && Reads(request, reading) && (outcome.None? <==> reading.Asserts?)
      ensures Recorded(if reading.Order? then log + [reading] else log)
    {
      hide Matches, Reads, Means, Min;
      ghost var before, used := orders, |orderPool.held|;
      outcome, reading := Handle(request);
      NextRecorded(before, log, used, reading, orders, |orderPool.held|);
    }

    lemma NothingRecorded()
      requires Valid() && orderPool.held == {} && orders == map[]
      ensures Recorded([])
    {
    }

    /**
      A run of requests, one after the other, up to the first that fails a library assertion: `log` holds the orders
      of the replies that have one, `at` where they came from.  The cache has for each id what the last of the first
      100 orders under that id means, and nothing else; the pool has handed out a block for each of the first 100.
     */
    method HandleAll(requests: seq<Request>) returns (handled: nat, ghost log: seq<Reading>, ghost at: seq<nat>)
      requires Valid() && orderPool.held == {} && orders == map[]
      modifies this`orders, orderPool`freeBlocks, orderPool`held
      ensures Valid() && handled <= |requests|
      ensures handled < |requests| ==> Reads(requests[handled], Asserts)
      ensures IsLog(requests[..handled], log, at)
      ensures |orderPool.held| == Min(ORDER_BLOCKS, |log|) && Matches(orders, log, |orderPool.held|)
    {
      hide Matches, Reads, IsLog, Valid;
      handled, log, at := 0, [], [];
      NothingRecorded();
      LogStarts(requests[..0]);
      while handled < |requests|
        invariant Valid() && handled <= |requests| && IsLog(requests[..handled], log, at) && Recorded(log)
      {
        ghost var reading;
        var outcome;
        outcome, reading := HandleNext(requests[handled], log);
        if outcome.None? {
          return;
        }
        assert requests[..handled + 1] == requests[..handled] + [requests[handled]];
        LogExtends(requests[..handled], log, at, requests[handled], reading);
        if reading.Order? {
          log, at := log + [reading], at + [handled];
        }
        handled := handled + 1;
      }
    }
  }

  function Min(a: nat, b: nat): nat {
    if a < b then a else b
  }

  /** `log` holds, in order, the readings of the replies at `at`, all of them orders; every other reply is refused. */
  ghost predicate IsLog(requests: seq<Request>, log: seq<Reading>, at: seq<nat>) {
    && |at| == |log|
    && (forall k :: 0 <= k < |at| ==> at[k] < |requests| && log[k].Order? && Reads(requests[at[k]], log[k]))
    && (forall k, m :: 0 <= k < m < |at| ==> at[k] < at[m])
    && (forall i: nat :: i < |requests| && i !in at ==> Reads(requests[i], Refused))
  }

  lemma LogStarts(requests: seq<Request>)
    requires requests == []
    ensures IsLog(requests, [], [])
  {
  }

  lemma LogSkips(requests: seq<Request>, log: seq<Reading>, at: seq<nat>, request: Request)
    requires IsLog(requests, log, at) && Reads(request, Refused)
    ensures IsLog(requests + [request], log, at)
  {
    hide Reads;
    var all := requests + [request];
    forall i: nat | i < |all| && i !in at ensures Reads(all[i], Refused) {
      assert all[i] == if i < |requests| then requests[i] else request;
    }
  }

  lemma LogAdds(requests: seq<Request>, log: seq<Reading>, at: seq<nat>, request: Request, reading: Reading)
    requires IsLog(requests, log, at) && Reads(request, reading) && reading.Order?
    ensures IsLog(requests + [request], log + [reading], at + [|requests|])
  {
    hide Reads;
    var all, longer, places := requests + [request], log + [reading], at + [|requests|];
    assert places[|at|] == |requests|;
    forall k | 0 <= k < |places| ensures places[k] < |all| && longer[k].Order? && Reads(all[places[k]], longer[k]) {
      if k < |at| { assert places[k] == at[k] && longer[k] == log[k]; }
    }
    forall i: nat | i < |all| && i !in places ensures Reads(all[i], Refused) {
      LogMisses(at, |requests|, i);
    }
  }

  lemma LogMisses(at: seq<nat>, n: nat, i: nat)
    requires i !in at + [n]
    ensures i != n && i !in at
  {
    assert (at + [n])[|at|] == n;
  }

  lemma LogExtends(requests: seq<Request>, log: seq<Reading>, at: seq<nat>, request: Request, reading: Reading)
    requires IsLog(requests, log, at) && Reads(request, reading) && !reading.Asserts?
    ensures
      if reading.Order? then IsLog(requests + [request], log + [reading], at + [|requests|])
      else IsLog(requests + [request], log, at)
  {
    hide Reads, IsLog;
    if reading.Order? { LogAdds(requests, log, at, request, reading); } else { LogSkips(requests, log, at, request); }
  }

  /** Of the first `n` orders of the log, the last under `id` is the one at `k`. */
  ghost predicate LastUnder(log: seq<Reading>, n: nat, k: nat, id: string) {
    && k < n <= |log| && log[k].Order? && log[k].id == id
    && (forall m :: k < m < n && log[m].Order? ==> log[m].id != id)
  }

  /** The cache holds, for each id, what the last of the first `n` orders under it means, and nothing else. */
  ghost predicate Matches(orders: map<string, Json>, log: seq<Reading>, n: nat) {
    && (forall id :: id in orders <==> exists k: nat :: LastUnder(log, n, k, id))
    && (forall id, k: nat :: id in orders && LastUnder(log, n, k, id) ==> Means(log[k].order, orders[id]))
  }

  /** One more order in the log, counted or not. */
  lemma LastUnderExtends(log: seq<Reading>, n: nat, r: Reading, k: nat, id: string)
    requires n <= |log| && r.Order?
    ensures LastUnder(log + [r], n, k, id) <==> LastUnder(log, n, k, id)
    ensures n == |log| ==> (LastUnder(log + [r], n + 1, k, id) <==> if id == r.id then k == n else LastUnder(log, n, k, id))
  {
    var all := log + [r];
    assert forall m :: 0 <= m < |log| ==> all[m] == log[m];
    assert all[|log|] == r;
  }

  lemma MatchesLonger(orders: map<string, Json>, log: seq<Reading>, n: nat, r: Reading)
    requires n <= |log| && r.Order? && Matches(orders, log, n)
    ensures Matches(orders, log + [r], n)
  {
    hide LastUnder, Means;
    forall k: nat, id ensures LastUnder(log + [r], n, k, id) <==> LastUnder(log, n, k, id) { LastUnderExtends(log, n, r, k, id); }
    forall id, k: nat | id in orders && LastUnder(log, n, k, id) ensures k < |log| { LastUnderIsInside(log, n, k, id); }
  }

  lemma LastUnderIsInside(log: seq<Reading>, n: nat, k: nat, id: string)
    requires LastUnder(log, n, k, id)
    ensures k < n <= |log| && log[k].Order?
  {
  }

  lemma MatchesExtends(orders: map<string, Json>, log: seq<Reading>, r: Reading, json: Json)
    requires r.Order? && Matches(orders, log, |log|) && Means(r.order, json)
    ensures Matches(orders[r.id := json], log + [r], |log| + 1)
  {
    hide LastUnder, Means;
    var n, all, m, after := |log|, log + [r], |log| + 1, orders[r.id := json];
    forall k: nat, id ensures LastUnder(all, m, k, id) <==> if id == r.id then k == n else LastUnder(log, n, k, id) {
      LastUnderExtends(log, n, r, k, id);
    }
    forall id ensures id in after <==> exists k: nat :: LastUnder(all, m, k, id) {
      if id == r.id {
        assert LastUnder(all, m, n, id);
      } else if id in orders {
        var k: nat :| LastUnder(log, n, k, id);
        assert LastUnder(all, m, k, id);
      }
    }
    forall id, k: nat | id in after && LastUnder(all, m, k, id) ensures k < m && all[k].Order? && Means(all[k].order, after[id]) {
      LastUnderIsInside(all, m, k, id);
      if id != r.id { LastUnderIsInside(log, n, k, id); }
    }
  }

  /** Handle's effect on cache and pool, put on record. */
  lemma NextRecorded(before: map<string, Json>, log: seq<Reading>, used: nat, r: Reading, after: map<string, Json>, usedAfter: nat)
    requires used == Min(ORDER_BLOCKS, |log|) && Matches(before, log, used)
    requires
      if r.Order? && used < ORDER_BLOCKS then
        r.id in after && Means(r.order, after[r.id]) && after == before[r.id := after[r.id]] && usedAfter == used + 1
      else after == before && usedAfter == used
    ensures
      var next := if r.Order? then log + [r] else log;
      usedAfter == Min(ORDER_BLOCKS, |next|) && Matches(after, next, usedAfter)
  {
    hide Matches, Means;
    if r.Order? {
      if used < ORDER_BLOCKS { MatchesExtends(before, log, r, after[r.id]); } else { MatchesLonger(before, log, used, r); }
    }
  }
}
