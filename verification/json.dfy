/**
 Values produced by `JSON.parse`, JavaScript's view of them (truthiness and
 property access), and `findInObject`, the bounded-depth search for a price
 history array inside a page's embedded state (extension/content.js).
 */
module Json {
  import opened Wrappers
  import opened Seqs

  /** A parsed JSON value; object members keep the order they were written in. */
  datatype Json =
    | JNull
    | JBool(b: bool)
    | JNum(n: real)
    | JStr(s: string)
    | JArr(items: seq<Json>)
    | JObj(members: seq<Member>)

  datatype Member = Member(key: string, value: Json)

  /** JavaScript truthiness (JSON has no NaN and no undefined). */
  predicate Truthy(v: Json)
  {
    match v
    case JNull => false
    case JBool(b) => b
    case JNum(n) => n != 0.0
    case JStr(s) => |s| > 0
    case _ => true
  }

  /** `typeof v === 'object'` for a truthy `v`: an array or an object. */
  predicate IsContainer(v: Json)
  {
    v.JArr? || v.JObj?
  }

  /** The value of the first member named `key`, or None (`undefined`). */
  function Lookup(ms: seq<Member>, key: string): (r: Option<Json>)
    ensures r.Some? <==> exists i :: 0 <= i < |ms| && ms[i].key == key
    ensures r.Some? ==> exists i :: 0 <= i < |ms| && ms[i].key == key && ms[i].value == r.value
  {
    if |ms| == 0 then None
    else if ms[0].key == key then Some(ms[0].value)
    else
      var r := Lookup(ms[1..], key);
      assert forall i :: 1 <= i < |ms| ==> ms[i] == ms[1..][i - 1];
      r
  }

  /** Property access `v[key]` on a named property: only objects have one. */
  function Get(v: Json, key: string): Option<Json>
  {
    match v
    case JObj(ms) => Lookup(ms, key)
    case _ => None
  }

  /** `findInObject` gives up below this depth (`depth > 15`). */
  const MaxDepth: nat := 15

  /** The node holds a non-empty array under `key`. */
  predicate IsHit(v: Json, key: string)
  {
    var x := Get(v, key);
    x.Some? && x.value.JArr? && |x.value.items| > 0
  }

  /** The items of the array stored under the first key, in `keys` order, that is a hit. */
  function FirstHit(v: Json, keys: seq<string>): (r: Option<seq<Json>>)
    ensures r.Some? <==> exists i :: 0 <= i < |keys| && IsHit(v, keys[i])
    ensures r.Some? ==> exists i ::
      && 0 <= i < |keys|
      && IsHit(v, keys[i])
      && Get(v, keys[i]).value.items == r.value
      && forall j :: 0 <= j < i ==> !IsHit(v, keys[j])
  {
    FirstHitFrom(v, keys, 0)
  }

  /** FirstHit restricted to the keys from position `k` on. */
  function FirstHitFrom(v: Json, keys: seq<string>, k: nat): (r: Option<seq<Json>>)
    requires k <= |keys|
    decreases |keys| - k
    ensures r.Some? <==> exists i :: k <= i < |keys| && IsHit(v, keys[i])
    ensures r.Some? ==> exists i ::
      && k <= i < |keys|
      && IsHit(v, keys[i])
      && Get(v, keys[i]).value.items == r.value
      && forall j :: k <= j < i ==> !IsHit(v, keys[j])
  {
    if k == |keys| then None
    else if IsHit(v, keys[k]) then Some(Get(v, keys[k]).value.items)
    else
      var r := FirstHitFrom(v, keys, k + 1);
      FirstHitSkip(v, keys, k, r);
      r
  }

  /** A miss at position `k` leaves the first hit from `k + 1` on the first hit from `k` on. */
  lemma FirstHitSkip(v: Json, keys: seq<string>, k: nat, r: Option<seq<Json>>)
    requires k < |keys| && !IsHit(v, keys[k])
    requires r.Some? <==> exists i :: k + 1 <= i < |keys| && IsHit(v, keys[i])
    requires r.Some? ==> exists i ::
      && k + 1 <= i < |keys|
      && IsHit(v, keys[i])
      && Get(v, keys[i]).value.items == r.value
      && forall j :: k + 1 <= j < i ==> !IsHit(v, keys[j])
    ensures r.Some? <==> exists i :: k <= i < |keys| && IsHit(v, keys[i])
    ensures r.Some? ==> exists i ::
      && k <= i < |keys|
      && IsHit(v, keys[i])
      && Get(v, keys[i]).value.items == r.value
      && forall j :: k <= j < i ==> !IsHit(v, keys[j])
  {
    if exists i :: k <= i < |keys| && IsHit(v, keys[i]) {
      var i :| k <= i < |keys| && IsHit(v, keys[i]);
      assert i != k;
    }
  }

  /** A decimal digit. */
  predicate IsDigit(c: char)
  {
    '0' <= c <= '9'
  }

  /** The value of a string of decimal digits, read left to right. */
  function DecimalValue(k: string): int
  {
    if |k| == 0 then 0 else DecimalValue(k[..|k| - 1]) * 10 + (k[|k| - 1] as int - '0' as int)
  }

  /**
   An array index in the sense of ECMAScript: the canonical decimal numeral (no
   sign, no leading zero) of an integer below 2^32 - 1.
   */
  predicate IsArrayIndex(k: string)
  {
    && |k| > 0
    && (forall i :: 0 <= i < |k| ==> IsDigit(k[i]))
    && (k[0] != '0' || |k| == 1)
    && DecimalValue(k) < 0xFFFF_FFFF
  }

  /**
   The sort key of the member at position `p` in enumeration order: an array
   index key counts by its numeric value, every other key comes after all of
   those, by its position.
   */
  function EnumKey(ms: seq<Member>, p: nat): int
  {
    if p < |ms| && IsArrayIndex(ms[p].key) then DecimalValue(ms[p].key) else 0xFFFF_FFFF + p
  }

  /**
   The positions of `ms` in the order `for (const key in obj)` enumerates an
   object's own keys (section 10.1.11.1, OrdinaryOwnPropertyKeys, of
   ECMA-262): array index keys first, in ascending numeric order, then the
   other keys in the order they were written.
   */
  function ForInOrder(ms: seq<Member>): (r: seq<nat>)
    ensures |r| == |ms|
    ensures multiset(r) == multiset(Range(|ms|))
    ensures forall t :: 0 <= t < |r| ==> r[t] < |ms|
    ensures forall a, b :: 0 <= a < b < |r| ==> EnumKey(ms, r[a]) <= EnumKey(ms, r[b])
  {
    var r := SortBy(Range(|ms|), (p: nat) => EnumKey(ms, p));
    forall t | 0 <= t < |r|
      ensures r[t] < |ms|
    {
      assert r[t] in multiset(Range(|ms|));
    }
    r
  }

  /** Every member is visited once the loop has run. */
  lemma ForInVisitsAll(ms: seq<Member>, p: nat)
    requires p < |ms|
    ensures exists t :: 0 <= t < |ms| && ForInOrder(ms)[t] == p
  {
    assert Range(|ms|)[p] == p;
    assert p in multiset(ForInOrder(ms));
  }

  /**
   Enumeration order spelled out: an array index key is visited before every
   other key, two array index keys in ascending numeric order, and two other
   keys in written order.
   */
  lemma ForInOrderRule(ms: seq<Member>, a: nat, b: nat)
    requires a < b < |ms|
    ensures var r := ForInOrder(ms); var ka, kb := ms[r[a]].key, ms[r[b]].key;
      && (IsArrayIndex(kb) ==> IsArrayIndex(ka) && DecimalValue(ka) <= DecimalValue(kb))
      && (!IsArrayIndex(ka) ==> !IsArrayIndex(kb) && r[a] <= r[b])
  {
    var r := ForInOrder(ms);
    assert EnumKey(ms, r[a]) <= EnumKey(ms, r[b]);
  }

  /** The number of children `for (const key in obj)` visits. */
  function ChildCount(v: Json): nat
  {
    match v
    case JArr(items) => |items|
    case JObj(ms) => |ms|
    case _ => 0
  }

  /** The `i`-th child `for (const key in obj)` visits. */
  function Child(v: Json, i: nat): Json
    requires i < ChildCount(v)
  {
    match v
    case JArr(items) => items[i]
    case JObj(ms) => ms[ForInOrder(ms)[i]].value
  }

  /**
   A non-empty array is stored under one of `keys` in `v` or in a descendant of
   `v`, no deeper than the search looks when `v` sits at `depth`.
   */
  ghost predicate StoredWithin(v: Json, keys: seq<string>, depth: nat, a: seq<Json>)
    decreases v
  {
    && depth <= MaxDepth
    && IsContainer(v)
    && |a| > 0
    && ((exists i :: 0 <= i < |keys| && Get(v, keys[i]) == Some(JArr(a)))
        || match v
           case JArr(items) => exists i :: 0 <= i < |items| && StoredWithin(items[i], keys, depth + 1, a)
           case JObj(ms) => exists i :: 0 <= i < |ms| && StoredWithin(ms[i].value, keys, depth + 1, a)
           case _ => false)
  }

  /** Some node of `v` within the depth limit holds a hit for one of `keys`. */
  ghost predicate HitWithin(v: Json, keys: seq<string>, depth: nat)
    decreases v
  {
    && depth <= MaxDepth
    && IsContainer(v)
    && ((exists i :: 0 <= i < |keys| && IsHit(v, keys[i]))
        || match v
           case JArr(items) => exists i :: 0 <= i < |items| && HitWithin(items[i], keys, depth + 1)
           case JObj(ms) => exists i :: 0 <= i < |ms| && HitWithin(ms[i].value, keys, depth + 1)
           case _ => false)
  }

  /**
   `findInObject(obj, keys, depth)`: the keys of the current node are tried, in
   order, before any child; children are searched in enumeration order
   (ForInOrder) and the first non-null answer wins.
   */
  function FindInObject(obj: Json, keys: seq<string>, depth: nat): (r: Option<seq<Json>>)
    ensures depth > MaxDepth || !IsContainer(obj) ==> r.None?
    ensures r.Some? ==> |r.value| > 0 && StoredWithin(obj, keys, depth, r.value)
    ensures depth <= MaxDepth && IsContainer(obj) && FirstHit(obj, keys).Some? ==> r == FirstHit(obj, keys)
    decreases obj, 1
  {
    if depth > MaxDepth || !IsContainer(obj) then None
    else
      var hit := FirstHit(obj, keys);
      if hit.Some? then
        HitIsStored(obj, keys, depth, hit.value);
        hit
      else FindInChildren(obj, keys, depth, 0)
  }

  lemma HitIsStored(obj: Json, keys: seq<string>, depth: nat, a: seq<Json>)
    requires depth <= MaxDepth && IsContainer(obj)
    requires FirstHit(obj, keys) == Some(a)
    ensures StoredWithin(obj, keys, depth, a)
  {
    var i :| 0 <= i < |keys| && IsHit(obj, keys[i]) && Get(obj, keys[i]).value.items == a;
    assert Get(obj, keys[i]) == Some(JArr(a));
  }

  /** The loop `for (const key in obj)` from the `i`-th child on. */
  function FindInChildren(obj: Json, keys: seq<string>, depth: nat, i: nat): (r: Option<seq<Json>>)
    requires depth <= MaxDepth && IsContainer(obj)
    requires i <= ChildCount(obj)
    ensures r.Some? ==> |r.value| > 0 && StoredWithin(obj, keys, depth, r.value)
    decreases obj, 0, ChildCount(obj) - i
  {
    if i == ChildCount(obj) then None
    else
      var found :=
        match obj
        case JArr(items) => FindInObject(items[i], keys, depth + 1)
        case JObj(ms) => FindInObject(ms[ForInOrder(ms)[i]].value, keys, depth + 1);
      if found.Some? then
        ChildStoreIsStored(obj, keys, depth, i, found.value);
        found
      else FindInChildren(obj, keys, depth, i + 1)
  }

  /** The answer of the search started at child `k`. */
  function ChildAnswer(obj: Json, keys: seq<string>, depth: nat, k: nat): Option<seq<Json>>
    requires depth <= MaxDepth && IsContainer(obj) && k < ChildCount(obj)
  {
    FindInObject(Child(obj, k), keys, depth + 1)
  }

  /** No child from `i` up to, not including, `k` answers. */
  predicate NoAnswerBetween(obj: Json, keys: seq<string>, depth: nat, i: nat, k: nat)
    requires depth <= MaxDepth && IsContainer(obj) && k <= ChildCount(obj)
  {
    forall j :: i <= j < k ==> ChildAnswer(obj, keys, depth, j).None?
  }

  /**
   The loop returns the answer of the first child, in enumeration order, whose
   search succeeds.
   */
  lemma {:induction false} FindInChildrenFirst(obj: Json, keys: seq<string>, depth: nat, i: nat)
    requires depth <= MaxDepth && IsContainer(obj)
    requires i <= ChildCount(obj)
    ensures var r := FindInChildren(obj, keys, depth, i);
      r.Some? ==> exists k ::
        && i <= k < ChildCount(obj)
        && ChildAnswer(obj, keys, depth, k) == r
        && NoAnswerBetween(obj, keys, depth, i, k)
    decreases ChildCount(obj) - i
  {
    if i < ChildCount(obj) {
      ChildSearchStep(obj, keys, depth, i);
      if ChildAnswer(obj, keys, depth, i).None? {
        FindInChildrenFirst(obj, keys, depth, i + 1);
        var r := FindInChildren(obj, keys, depth, i + 1);
        if r.Some? {
          var k :| && i + 1 <= k < ChildCount(obj)
                   && ChildAnswer(obj, keys, depth, k) == r
                   && NoAnswerBetween(obj, keys, depth, i + 1, k);
          assert NoAnswerBetween(obj, keys, depth, i, k);
        }
      } else {
        assert NoAnswerBetween(obj, keys, depth, i, i);
      }
    }
  }

  /** One turn of the child loop: child `i` answers, or the loop moves on. */
  lemma ChildSearchStep(obj: Json, keys: seq<string>, depth: nat, i: nat)
    requires depth <= MaxDepth && IsContainer(obj)
    requires i < ChildCount(obj)
    ensures var found := ChildAnswer(obj, keys, depth, i);
      FindInChildren(obj, keys, depth, i) == if found.Some? then found else FindInChildren(obj, keys, depth, i + 1)
  {
    if obj.JObj? {
      assert Child(obj, i) == obj.members[ForInOrder(obj.members)[i]].value;
    }
  }

  /** What is stored within a child is stored within its parent. */
  lemma ChildStoreIsStored(obj: Json, keys: seq<string>, depth: nat, i: nat, a: seq<Json>)
    requires depth <= MaxDepth && IsContainer(obj) && i < ChildCount(obj)
    requires StoredWithin(Child(obj, i), keys, depth + 1, a)
    ensures StoredWithin(obj, keys, depth, a)
  {
  }

  /** The search finds an array exactly when one is stored within reach. */
  lemma {:induction false} FindInObjectComplete(obj: Json, keys: seq<string>, depth: nat)
    ensures FindInObject(obj, keys, depth).Some? <==> HitWithin(obj, keys, depth)
    decreases obj, 1
  {
    if depth <= MaxDepth && IsContainer(obj) && FirstHit(obj, keys).None? {
      FindInChildrenComplete(obj, keys, depth, 0);
      if HitWithin(obj, keys, depth) {
        var j: nat :| j < ChildCount(obj) && HitWithin(Child(obj, j), keys, depth + 1) by {
          if obj.JArr? {
            var j :| 0 <= j < |obj.items| && HitWithin(obj.items[j], keys, depth + 1);
            assert Child(obj, j) == obj.items[j];
          } else {
            var p :| 0 <= p < |obj.members| && HitWithin(obj.members[p].value, keys, depth + 1);
            ForInVisitsAll(obj.members, p);
            var j :| 0 <= j < |obj.members| && ForInOrder(obj.members)[j] == p;
            assert Child(obj, j) == obj.members[p].value;
          }
        }
      }
      if j: nat :| j < ChildCount(obj) && HitWithin(Child(obj, j), keys, depth + 1) {
        assert HitWithin(obj, keys, depth) by {
          if obj.JArr? {
            assert HitWithin(obj.items[j], keys, depth + 1);
          } else {
            var p := ForInOrder(obj.members)[j];
            assert HitWithin(obj.members[p].value, keys, depth + 1);
          }
        }
      }
    }
  }

  lemma {:induction false} FindInChildrenComplete(obj: Json, keys: seq<string>, depth: nat, i: nat)
    requires depth <= MaxDepth && IsContainer(obj)
    requires i <= ChildCount(obj)
    ensures FindInChildren(obj, keys, depth, i).Some? <==>
      exists j :: i <= j < ChildCount(obj) && HitWithin(Child(obj, j), keys, depth + 1)
    decreases obj, 0, ChildCount(obj) - i
  {
    if i < ChildCount(obj) {
      FindInObjectComplete(Child(obj, i), keys, depth + 1);
      FindInChildrenComplete(obj, keys, depth, i + 1);
    }
  }

  /**
   An array index key is searched before a key written earlier: in
   `{"a": {"priceHistory": [1]}, "0": {"priceHistory": [2]}}` the search
   finds `[2]`.
   */
  lemma IndexKeySearchedFirst()
    ensures FindInObject(JObj(ExampleMembers()), ["priceHistory"], 0) == Some([JNum(2.0)])
  {
    var ms, keys := ExampleMembers(), ["priceHistory"];
    ExampleOrder();
    assert Child(JObj(ms), 0) == ms[1].value;
    ExampleSecondChild();
    assert FirstHit(JObj(ms), keys).None? by {
      assert Get(JObj(ms), keys[0]).None?;
    }
    ChildSearchStep(JObj(ms), keys, 0, 0);
  }

  lemma ExampleSecondChild()
    ensures FindInObject(ExampleMembers()[1].value, ["priceHistory"], 1) == Some([JNum(2.0)])
  {
    var v := ExampleMembers()[1].value;
    assert IsHit(v, ["priceHistory"][0]);
  }

  /** `{"a": {"priceHistory": [1]}, "0": {"priceHistory": [2]}}`. */
  function ExampleMembers(): seq<Member>
  {
    [Member("a", JObj([Member("priceHistory", JArr([JNum(1.0)]))])),
     Member("0", JObj([Member("priceHistory", JArr([JNum(2.0)]))]))]
  }

  lemma ExampleOrder()
    ensures ForInOrder(ExampleMembers()) == [1, 0]
  {
    var ms := ExampleMembers();
    assert !IsArrayIndex("a") by {
      assert !IsDigit("a"[0]);
    }
    assert DecimalValue("0") == 0 by {
      assert "0"[..0] == [];
    }
    assert EnumKey(ms, 0) == 0xFFFF_FFFF && EnumKey(ms, 1) == 0;
    var r := ForInOrder(ms);
    assert r[0] < 2 && r[1] < 2;
    assert Range(2) == [0, 1];
    assert multiset(r) == multiset{0, 1};
    assert r == [r[0], r[1]];
    assert EnumKey(ms, r[0]) <= EnumKey(ms, r[1]);
  }
}
