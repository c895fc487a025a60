/** rapidjsonToNlohmannJson (utils.cpp:85-115): from a parsed rapidjson value to an nlohmann value. */
module JsonTranslation {
  import opened Wrappers

  /** A rapidjson value: objects keep member order and duplicate names, strings may contain NUL. */
  datatype Value =
    | RNull
    | RBool(flag: bool)
    | RInteger(n: int)       // what the parser keeps as an integer
    | RDouble(d: real)
    | RString(text: string)
    | RArray(items: seq<Value>)
    | RObject(members: seq<Member>)

  datatype Member = Member(name: string, value: Value)

  /** An nlohmann value: objects are maps, integers are int64_t or uint64_t. */
  datatype Json =
    | JNull
    | JBool(flag: bool)
    | JInteger(n: int)
    | JUnsigned(n: int)
    | JDouble(d: real)
    | JString(text: string)
    | JArray(items: seq<Json>)
    | JObject(members: map<string, Json>)

  // ---------------------------------------------------------------- scalars

  const TWO_31: int := 0x8000_0000
  const TWO_32: int := 0x1_0000_0000
  const TWO_63: int := 0x8000_0000_0000_0000
  const TWO_64: int := 0x1_0000_0000_0000_0000

  /** The string that a `const char*` to `s` stands for: everything before the first NUL. */
  function CutAtNul(s: string): (c: string)
    ensures c <= s && '\0' !in c
    ensures |c| < |s| ==> s[|c|] == '\0'
  {
    if s == [] || s[0] == '\0' then [] else [s[0]] + CutAtNul(s[1..])
  }

  predicate IsInt(n: int) { -TWO_31 <= n < TWO_31 }
  predicate IsUint(n: int) { 0 <= n < TWO_32 }
  predicate IsInt64(n: int) { -TWO_63 <= n < TWO_63 }
  predicate IsUint64(n: int) { 0 <= n < TWO_64 }

  /** Conversions to the fixed-width types, wrapping as the hardware does. */
  function AsSigned(n: int, half: int): int
    requires half > 0
  {
    (n + half) % (2 * half) - half
  }

  function AsUnsigned(n: int, range: int): int
    requires range > 0
  {
    n % range
  }

  /** The cascade of lines 102-109. */
  function Number(n: int): Json {
    if IsInt(n) then JInteger(AsSigned(n, TWO_31))
    else if IsUint(n) then JUnsigned(AsUnsigned(n, TWO_32))
    else if IsInt64(n) then JInteger(AsSigned(n, TWO_63))
    else if IsUint64(n) then JUnsigned(AsUnsigned(n, TWO_64))
    else JNull
  }

  lemma UnsignedFits(n: int, range: int)
    requires 0 <= n < range
    ensures AsUnsigned(n, range) == n
  {
  }

  lemma SignedFits(n: int, half: int)
    requires half > 0 && -half <= n < half
    ensures AsSigned(n, half) == n
  {
    UnsignedFits(n + half, 2 * half);
  }

  /** What the cascade makes of one number. */
  lemma NumberKept(n: int)
    ensures if -TWO_63 <= n < TWO_64 then Number(n) == JInteger(n) || (Number(n) == JUnsigned(n) && IsUint64(n)) else Number(n) == JNull
    ensures Number(n).JInteger? ==> IsInt64(n)
  {
    hide AsSigned, AsUnsigned;
    if IsInt(n) { SignedFits(n, TWO_31); }
    else if IsUint(n) { UnsignedFits(n, TWO_32); }
    else if IsInt64(n) { SignedFits(n, TWO_63); }
    else if IsUint64(n) { UnsignedFits(n, TWO_64); }
  }

  /** Every integer a rapidjson value can hold keeps its value, and no other number translates to the same. */
  lemma NumbersKeepTheirValue(n: int)
    ensures -TWO_63 <= n < TWO_64 <==> Number(n).JInteger? || Number(n).JUnsigned?
    ensures Number(n).JInteger? || Number(n).JUnsigned? ==> Number(n).n == n
    ensures Number(n).JInteger? ==> IsInt64(n)
    ensures Number(n).JUnsigned? ==> IsUint64(n)
    ensures forall m :: -TWO_63 <= n < TWO_64 && Number(m) == Number(n) ==> m == n
  {
    hide Number;
    NumberKept(n);
    forall m | -TWO_63 <= n < TWO_64 && Number(m) == Number(n) ensures m == n { NumberKept(m); }
  }

  // ---------------------------------------------------------------- trees

  function Translate(value: Value): Json
    decreases value, 1, 0
  {
    match value
    case RObject(members) => JObject(TranslateMembers(value, |members|))
    case RArray(items) => JArray(seq(|items|, i requires 0 <= i < |items| => Translate(items[i])))
    case RString(text) => JString(CutAtNul(text))
    case RBool(flag) => JBool(flag)
    case RInteger(n) => Number(n)
    case RDouble(d) => JDouble(d)
    case RNull => JNull
  }

  /** The map after the first `n` members have been assigned: a later member overwrites an earlier one. */
  function TranslateMembers(value: Value, n: nat): map<string, Json>
    requires value.RObject? && n <= |value.members|
    decreases value, 0, n
  {
    if n == 0 then map[]
    else TranslateMembers(value, n - 1)[CutAtNul(value.members[n - 1].name) := Translate(value.members[n - 1].value)]
  }

  // ---------------------------------------------------------------- meaning: value by value

  /** `c` is what a `const char*` to `s` stands for. */
  ghost predicate IsCString(s: string, c: string) {
    c <= s && '\0' !in c && (|c| < |s| ==> s[|c|] == '\0')
  }

  /** The last member whose C-string name is `name` is the one at `i`. */
  ghost predicate LastCalled(members: seq<Member>, i: nat, name: string) {
    && i < |members| && IsCString(members[i].name, name)
    && (forall k :: i < k < |members| ==> !IsCString(members[k].name, name))
  }

  /** `m` is what is stored for the last member of each C-string name, and nothing else. */
  ghost predicate MembersMean(members: seq<Member>, m: map<string, Json>)
    decreases members
  {
    && (forall name :: name in m <==> exists i: nat :: LastCalled(members, i, name))
    && (forall i: nat, name | LastCalled(members, i, name) && name in m :: Means(members[i].value, m[name]))
  }

  /** What the document value `v` has to become, said of each kind of value. */
  ghost predicate Means(v: Value, j: Json)
    decreases v
  {
    match v
    case RNull => j == JNull
    case RBool(flag) => j == JBool(flag)
    case RDouble(d) => j == JDouble(d)
    case RInteger(n) =>
      if IsInt(n) || (IsInt64(n) && !IsUint(n)) then j == JInteger(n)
      else if IsUint64(n) then j == JUnsigned(n)
      else j == JNull
    case RString(text) => j.JString? && IsCString(text, j.text)
    case RArray(items) => j.JArray? && |j.items| == |items| && forall i :: 0 <= i < |items| ==> Means(items[i], j.items[i])
    case RObject(members) => j.JObject? && MembersMean(members, j.members)
  }

  /** The function as the source computes it: a loop over members or items, recursing into each. */
  method Convert(value: Value) returns (result: Json)
    ensures Means(value, result) && result == Translate(value)
    decreases value
  {
    hide Means;
    MeansIffTranslated(value, Translate(value));
    match value
    case RObject(members) =>
      var fields: map<string, Json> := map[];
      for i := 0 to |members|
        invariant fields == TranslateMembers(value, i)
      {
        var translated := Convert(members[i].value);
        fields := fields[CutAtNul(members[i].name) := translated];
      }
      result := JObject(fields);
    case RArray(items) =>
      var list: seq<Json> := [];
      for i := 0 to |items|
        invariant |list| == i && forall k :: 0 <= k < i ==> list[k] == Translate(items[k])
      {
        var translated := Convert(items[i]);
        list := list + [translated];
      }
      result := JArray(list);
      assert list == Translate(value).items;
    case RString(text) => result := JString(CutAtNul(text));
    case RBool(flag) => result := JBool(flag);
    case RInteger(n) => result := Number(n);
    case RDouble(d) => result := JDouble(d);
    case RNull => result := JNull;
  }

  // ---------------------------------------------------------------- meaning: lookup along a path

  datatype Step = Key(name: string) | Index(i: nat)

  /** The last of the first `n` members whose C-string name is `name`. */
  function LastNamed(members: seq<Member>, n: nat, name: string): (found: Option<nat>)
    requires n <= |members|
    ensures found.Some? ==> found.value < n && CutAtNul(members[found.value].name) == name
    ensures found.Some? ==> forall i :: found.value < i < n ==> CutAtNul(members[i].name) != name
    ensures found.None? ==> forall i :: 0 <= i < n ==> CutAtNul(members[i].name) != name
  {
    if n == 0 then None
    else if CutAtNul(members[n - 1].name) == name then Some(n - 1)
    else LastNamed(members, n - 1, name)
  }

  /** What a path means in the input: names as C strings, the last duplicate wins. */
  function LookupValue(value: Value, path: seq<Step>): Option<Value>
    decreases |path|
  {
    if path == [] then Some(value)
    else match path[0]
      case Key(name) =>
        if !value.RObject? then None
        else
          var i := LastNamed(value.members, |value.members|, name);
          if i.None? then None else LookupValue(value.members[i.value].value, path[1..])
      case Index(i) =>
        if value.RArray? && i < |value.items| then LookupValue(value.items[i], path[1..]) else None
  }

  function LookupJson(json: Json, path: seq<Step>): Option<Json>
    decreases |path|
  {
    if path == [] then Some(json)
    else match path[0]
      case Key(name) => if json.JObject? && name in json.members then LookupJson(json.members[name], path[1..]) else None
      case Index(i) => if json.JArray? && i < |json.items| then LookupJson(json.items[i], path[1..]) else None
  }

  lemma {:induction false} MembersAreLastNamed(value: Value, n: nat, name: string)
    requires value.RObject? && n <= |value.members|
    ensures name in TranslateMembers(value, n) <==> LastNamed(value.members, n, name).Some?
    ensures LastNamed(value.members, n, name).Some? ==>
      TranslateMembers(value, n)[name] == Translate(value.members[LastNamed(value.members, n, name).value].value)
    decreases n
  {
    if n > 0 { MembersAreLastNamed(value, n - 1, name); }
  }

  lemma CutIsCString(s: string, c: string)
    ensures IsCString(s, c) <==> c == CutAtNul(s)
  {
    var d := CutAtNul(s);
    if IsCString(s, c) {
      assert forall k :: 0 <= k < |c| ==> c[k] != '\0';
      assert forall k :: 0 <= k < |d| ==> d[k] != '\0';
      assert c == s[..|c|] && d == s[..|d|];
    }
  }

  lemma LastCalledIff(members: seq<Member>, i: nat, name: string)
    ensures LastCalled(members, i, name) <==> LastNamed(members, |members|, name) == Some(i)
  {
    hide CutAtNul, IsCString;
    forall k | 0 <= k < |members| ensures IsCString(members[k].name, name) <==> name == CutAtNul(members[k].name) {
      CutIsCString(members[k].name, name);
    }
  }

  /** A key is stored exactly when some member is called by it. */
  lemma StoredIff(members: seq<Member>, name: string)
    ensures (exists i: nat :: LastCalled(members, i, name)) <==> LastNamed(members, |members|, name).Some?
  {
    hide LastCalled, LastNamed;
    forall i: nat ensures LastCalled(members, i, name) <==> LastNamed(members, |members|, name) == Some(i) { LastCalledIff(members, i, name); }
    var found := LastNamed(members, |members|, name);
    if found.Some? { assert LastCalled(members, found.value, name); }
  }

  /** The translation of a tree is what the tree means, and nothing else is. */
  lemma {:induction false} MeansIffTranslated(v: Value, j: Json)
    ensures Means(v, j) <==> j == Translate(v)
    decreases v, 1
  {
    match v
    case RObject(members) => if j.JObject? { MembersMeanIff(v, j.members); }
    case RArray(items) =>
      if j.JArray? && |j.items| == |items| {
        forall i | 0 <= i < |items| ensures Means(items[i], j.items[i]) <==> j.items[i] == Translate(items[i]) {
          MeansIffTranslated(items[i], j.items[i]);
        }
        ArrayItems(v);
        hide Means, Translate;
        assert (forall i :: 0 <= i < |items| ==> j.items[i] == Translate(items[i])) <==> j.items == Translate(v).items;
      }
    case RString(text) => if j.JString? { CutIsCString(text, j.text); }
    case RInteger(n) => NumberKept(n);
    case _ =>
  }

  lemma {:induction false} MembersMeanIff(v: Value, m: map<string, Json>)
    requires v.RObject?
    ensures MembersMean(v.members, m) <==> m == TranslateMembers(v, |v.members|)
    decreases v, 0
  {
    hide MembersMean, Translate, TranslateMembers, LastCalled;
    if MembersMean(v.members, m) {
      MembersMeanParts(v.members, m);
      forall i: nat | i < |v.members| ensures forall name | name in m && LastCalled(v.members, i, name) :: m[name] == Translate(v.members[i].value) {
        forall name | name in m && LastCalled(v.members, i, name) ensures m[name] == Translate(v.members[i].value) {
          MeansIffTranslated(v.members[i].value, m[name]);
        }
      }
      StoredAll(v, m);
    }
    var t := TranslateMembers(v, |v.members|);
    forall name ensures name in t <==> exists i: nat :: LastCalled(v.members, i, name) { StoredLast(v, name); }
    forall i: nat, name | LastCalled(v.members, i, name) && name in t ensures i < |v.members| && Means(v.members[i].value, t[name]) {
      StoredLast(v, name);
      MeansIffTranslated(v.members[i].value, t[name]);
    }
    MembersMeanWhole(v.members, t);
  }

  lemma MembersMeanParts(members: seq<Member>, m: map<string, Json>)
    requires MembersMean(members, m)
    ensures forall name :: name in m <==> exists i: nat :: LastCalled(members, i, name)
    ensures forall i: nat, name | LastCalled(members, i, name) && name in m :: i < |members| && Means(members[i].value, m[name])
  {
    hide Means;
  }

  lemma MembersMeanWhole(members: seq<Member>, m: map<string, Json>)
    requires forall name :: name in m <==> exists i: nat :: LastCalled(members, i, name)
    requires forall i: nat, name | LastCalled(members, i, name) && name in m :: i < |members| && Means(members[i].value, m[name])
    ensures MembersMean(members, m)
  {
    hide Means;
  }

  /** A map with the right keys, and under each the translation of its last member, is the one the loop builds. */
  lemma StoredAll(v: Value, m: map<string, Json>)
    requires v.RObject?
    requires forall name :: name in m <==> exists i: nat :: LastCalled(v.members, i, name)
    requires forall i: nat | i < |v.members| :: forall name | name in m && LastCalled(v.members, i, name) :: m[name] == Translate(v.members[i].value)
    ensures m == TranslateMembers(v, |v.members|)
  {
    hide Translate, TranslateMembers;
    var t := TranslateMembers(v, |v.members|);
    forall name ensures name in t <==> name in m { StoredLast(v, name); }
    forall name | name in m ensures m[name] == t[name] {
      StoredLast(v, name);
      var i: nat :| LastCalled(v.members, i, name);
    }
    assert m.Keys == t.Keys;
  }

  /** What the loop over the members has stored in the end. */
  lemma StoredLast(v: Value, name: string)
    requires v.RObject?
    ensures name in TranslateMembers(v, |v.members|) <==> exists i: nat :: LastCalled(v.members, i, name)
    ensures forall i: nat | LastCalled(v.members, i, name) ::
      i < |v.members| && name in TranslateMembers(v, |v.members|) && TranslateMembers(v, |v.members|)[name] == Translate(v.members[i].value)
  {
    hide LastNamed, Translate, TranslateMembers, IsCString;
    StoredIff(v.members, name);
    MembersAreLastNamed(v, |v.members|, name);
    forall i: nat | LastCalled(v.members, i, name)
      ensures i < |v.members| && LastNamed(v.members, |v.members|, name) == Some(i)
    {
      LastCalledIff(v.members, i, name);
    }
  }

  /**
    The translation preserves meaning: whatever a tree has to become, the result has something at a path exactly when
    the tree has, and it is what the tree's part there has to become.
   */
  lemma {:induction false} LookupCommutes(value: Value, json: Json, path: seq<Step>)
    requires Means(value, json)
    ensures LookupJson(json, path).Some? <==> LookupValue(value, path).Some?
    ensures LookupValue(value, path).Some? ==> Means(LookupValue(value, path).value, LookupJson(json, path).value)
    decreases |path|
  {
    if path != [] {
      match path[0]
      case Key(name) =>
        if value.RObject? {
          StoredIff(value.members, name);
          var i := LastNamed(value.members, |value.members|, name);
          if i.Some? {
            LastCalledIff(value.members, i.value, name);
            LookupCommutes(value.members[i.value].value, json.members[name], path[1..]);
          }
        }
      case Index(i) =>
        if value.RArray? && i < |value.items| { LookupCommutes(value.items[i], json.items[i], path[1..]); }
    }
  }

  // ---------------------------------------------------------------- what is lost

  predicate NulFree(s: string) {
    '\0' !in s
  }

  /** No NUL in any name or string, no duplicate names, and only integers rapidjson can hold. */
  ghost predicate Clean(value: Value) {
    match value
    case RObject(members) =>
      && (forall i :: 0 <= i < |members| ==> NulFree(members[i].name) && Clean(members[i].value))
      && (forall i, j :: 0 <= i < j < |members| ==> members[i].name != members[j].name)
    case RArray(items) => forall i :: 0 <= i < |items| ==> Clean(items[i])
    case RString(text) => NulFree(text)
    case RInteger(n) => -TWO_63 <= n < TWO_64
    case _ => true
  }

  ghost function Names(members: seq<Member>): set<string> {
    set i | 0 <= i < |members| :: members[i].name
  }

  /** Some member of `members` has `m`'s name and, up to order, its value. */
  ghost predicate Counterpart(m: Member, members: seq<Member>)
    decreases m
  {
    exists j :: 0 <= j < |members| && members[j].name == m.name && SameUpToOrder(m.value, members[j].value)
  }

  /** Equal but for the order of object members, at every level. */
  ghost predicate SameUpToOrder(v: Value, w: Value)
    decreases v
  {
    match v
    case RObject(members) =>
      && w.RObject? && Names(members) == Names(w.members)
      && (forall i :: 0 <= i < |members| ==> Counterpart(members[i], w.members))
    case RArray(items) =>
      w.RArray? && |items| == |w.items| && forall i :: 0 <= i < |items| ==> SameUpToOrder(items[i], w.items[i])
    case _ => v == w
  }

  lemma {:induction false} CutKeepsNulFree(s: string)
    requires NulFree(s)
    ensures CutAtNul(s) == s
  {
    if s != [] {
      assert s[0] in s;
      assert forall i :: 0 <= i < |s[1..]| ==> s[1..][i] == s[i + 1];
      CutKeepsNulFree(s[1..]);
    }
  }

  /** In a clean object the map holds each member under its own name, and nothing else. */
  lemma CleanMembers(value: Value)
    requires value.RObject? && Clean(value)
    ensures HoldsMembers(value)
  {
    forall i | 0 <= i < |value.members| ensures CutAtNul(value.members[i].name) == value.members[i].name { CutKeepsNulFree(value.members[i].name); }
    forall i | 0 <= i < |value.members|
      ensures value.members[i].name in Translate(value).members && Translate(value).members[value.members[i].name] == Translate(value.members[i].value)
    {
      MembersAreLastNamed(value, |value.members|, value.members[i].name);
    }
    forall name | name in Translate(value).members ensures name in Names(value.members) {
      MembersAreLastNamed(value, |value.members|, name);
      var i := LastNamed(value.members, |value.members|, name).value;
      assert value.members[i].name == name;
    }
  }

  /**
    For trees without NULs and without duplicate names the translation loses member order and nothing else:
    two such trees translate to the same value if and only if they are equal up to member order.
   */
  lemma {:induction false} OnlyOrderIsLost(v: Value, w: Value)
    requires Clean(v) && Clean(w)
    ensures Translate(v) == Translate(w) <==> SameUpToOrder(v, w)
    decreases v
  {
    match v
    case RObject(_) => if w.RObject? { ObjectsLoseOrder(v, w); } else { ScalarKinds(w); }
    case RArray(items) =>
      ScalarKinds(w);
      ArrayItems(v);
      if w.RArray? {
        ArrayItems(w);
      }
      if w.RArray? && |items| == |w.items| {
        forall i | 0 <= i < |items| ensures Translate(items[i]) == Translate(w.items[i]) <==> SameUpToOrder(items[i], w.items[i]) {
          OnlyOrderIsLost(items[i], w.items[i]);
        }
        hide Clean, Translate;
        if SameUpToOrder(v, w) { assert Translate(v).items == Translate(w).items; }
      }
    case _ => ScalarsAreKept(v, w);
  }

  lemma ScalarKinds(v: Value)
    requires Clean(v)
    ensures Translate(v).JObject? <==> v.RObject?
    ensures Translate(v).JArray? <==> v.RArray?
  {
    if v.RInteger? { NumbersKeepTheirValue(v.n); }
  }

  lemma ScalarsAreKept(v: Value, w: Value)
    requires Clean(v) && Clean(w) && !v.RObject? && !v.RArray?
    ensures Translate(v) == Translate(w) <==> v == w
  {
    ScalarKinds(w);
    if v.RString? { CutKeepsNulFree(v.text); }
    if w.RString? { CutKeepsNulFree(w.text); }
    if v.RInteger? { NumbersKeepTheirValue(v.n); }
    if w.RInteger? { NumbersKeepTheirValue(w.n); }
  }

  lemma {:induction false} ObjectsLoseOrder(v: Value, w: Value)
    requires Clean(v) && Clean(w) && v.RObject? && w.RObject?
    ensures Translate(v) == Translate(w) <==> SameUpToOrder(v, w)
    decreases v, 0
  {
    CleanMembers(v);
    CleanMembers(w);
    forall i, j | 0 <= i < |v.members| && 0 <= j < |w.members|
      ensures Translate(v.members[i].value) == Translate(w.members[j].value) <==> SameUpToOrder(v.members[i].value, w.members[j].value)
    {
      OnlyOrderIsLost(v.members[i].value, w.members[j].value);
    }
    hide Clean, SameUpToOrder, Translate;
    if Translate(v) == Translate(w) {
      EqualObjectsMatch(v, w);
    } else if SameUpToOrder(v, w) {
      MatchingObjectsAreEqual(v, w);
    }
  }

  lemma ArrayItems(v: Value)
    requires v.RArray?
    ensures Translate(v).JArray? && |Translate(v).items| == |v.items|
    ensures forall i :: 0 <= i < |v.items| ==> Translate(v).items[i] == Translate(v.items[i])
  {
  }

  /** The output of `v` holds each member of `v` under its own name, and nothing else. */
  ghost predicate HoldsMembers(v: Value)
    requires v.RObject?
  {
    && Translate(v).JObject?
    && Translate(v).members.Keys == Names(v.members)
    && (forall i :: 0 <= i < |v.members| ==>
          v.members[i].name in Translate(v).members && Translate(v).members[v.members[i].name] == Translate(v.members[i].value))
  }

  lemma EqualObjectsMatch(v: Value, w: Value)
    requires v.RObject? && w.RObject? && HoldsMembers(v) && HoldsMembers(w) && Translate(v) == Translate(w)
    requires forall i, j :: 0 <= i < |v.members| && 0 <= j < |w.members| ==>
      (Translate(v.members[i].value) == Translate(w.members[j].value) <==> SameUpToOrder(v.members[i].value, w.members[j].value))
    ensures SameUpToOrder(v, w)
  {
    hide Translate;
    forall i | 0 <= i < |v.members| ensures Counterpart(v.members[i], w.members) {
      assert v.members[i].name in Names(w.members);
      var j :| 0 <= j < |w.members| && w.members[j].name == v.members[i].name;
      assert Translate(v.members[i].value) == Translate(w.members[j].value);
    }
    assert Names(v.members) == Names(w.members);
    hide Counterpart, Names;
  }

  lemma MatchingObjectsAreEqual(v: Value, w: Value)
    requires v.RObject? && w.RObject? && HoldsMembers(v) && HoldsMembers(w) && SameUpToOrder(v, w)
    requires forall i, j :: 0 <= i < |v.members| && 0 <= j < |w.members| ==>
      (Translate(v.members[i].value) == Translate(w.members[j].value) <==> SameUpToOrder(v.members[i].value, w.members[j].value))
    ensures Translate(v) == Translate(w)
  {
    hide Translate;
    forall name | name in Names(v.members) ensures Translate(w).members[name] == Translate(v).members[name] {
      var i :| 0 <= i < |v.members| && v.members[i].name == name;
      assert Counterpart(v.members[i], w.members);
      var j :| 0 <= j < |w.members| && w.members[j].name == name && SameUpToOrder(v.members[i].value, w.members[j].value);
    }
    hide Names, Counterpart;
    assert Translate(v).members == Translate(w).members;
  }
}
