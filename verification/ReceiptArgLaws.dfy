/**
 What dict() makes of the arguments a receipt carries: which elements of a list are pairs, which of
 several equal keys counts, and which lists it takes at all.
 */
module ReceiptArgLaws {
  import opened Outcomes
  import opened PyText
  import opened CanonicalJson
  import opened ReceiptArgs

  /** An element that dict() reads as a key and a value. Lists and dicts are not hashable, so no keys. */
  predicate IsPair(v: Json, key: Json, value: Json) {
    || (v == JArr([key, value]) && !key.JArr? && !key.JObj?)
    || (key.JStr? && value.JStr? && |key.s| == |value.s| == 1 && v == JStr(key.s + value.s))
    || (key.JStr? && value.JStr? && v.JObj? && |v.members| == 2
        && v.members[0].key == key.s && v.members[1].key == value.s)
  }

  lemma PairIff(v: Json, key: Json, value: Json)
    ensures PairOf(v) == Some(Item(key, value)) <==> IsPair(v, key, value)
  {
    match v
    case JArr(xs) =>
      if |xs| == 2 {
        assert xs == [xs[0], xs[1]];
      }
    case JStr(s) =>
      if |s| == 2 {
        assert s == [s[0]] + [s[1]];
        if key.JStr? && value.JStr? && |key.s| == |value.s| == 1 && s == key.s + value.s {
          assert key.s == [s[0]] && value.s == [s[1]];
        }
      }
    case _ =>
  }

  /** Two keys are one key of a dict: equal, or the numbers one and zero and the bools that equal them. */
  lemma SameKeyIff(a: Json, b: Json)
    ensures SameKey(a, b)
       <==> || a == b || {a, b} == {JBool(true), JInt(1)} || {a, b} == {JBool(false), JInt(0)}
  {
    assert {a, b} == {JBool(true), JInt(1)} ==> a in {JBool(true), JInt(1)} && b in {JBool(true), JInt(1)};
    assert {a, b} == {JBool(false), JInt(0)} ==> a in {JBool(false), JInt(0)} && b in {JBool(false), JInt(0)};
  }

  /** The element is a pair with this key. */
  predicate IsKeyed(v: Json, key: Json) {
    PairOf(v).Some? && SameKey(PairOf(v).value.key, key)
  }

  predicate IsFirstOf(vs: seq<Json>, i: int, key: Json) {
    0 <= i < |vs| && IsKeyed(vs[i], key) && forall j | 0 <= j < i :: !IsKeyed(vs[j], key)
  }

  predicate IsLastOf(vs: seq<Json>, i: int, key: Json) {
    0 <= i < |vs| && IsKeyed(vs[i], key) && forall j | i < j < |vs| :: !IsKeyed(vs[j], key)
  }

  /** Some entry has this key. */
  ghost predicate HasItem(items: seq<Item>, key: Json) {
    exists k :: 0 <= k < |items| && SameKey(items[k].key, key)
  }

  /** One entry tells a list: its key stands as it was first written, its value is the last one given. */
  ghost predicate IsTold(vs: seq<Json>, item: Item) {
    && (exists i :: IsFirstOf(vs, i, item.key) && PairOf(vs[i]).value.key == item.key)
    && (exists j :: IsLastOf(vs, j, item.key) && PairOf(vs[j]).value.value == item.value)
  }

  /** An entry as it is after one pair more. */
  lemma TellsOneMore(vs: seq<Json>, v: Json, item: Item)
    requires PairOf(v).Some? && IsTold(vs, item)
    ensures IsTold(vs + [v], if SameKey(item.key, PairOf(v).value.key) then Item(item.key, PairOf(v).value.value)
                             else item)
  {
    hide PairOf;
    var more, n := vs + [v], |vs|;
    var i :| IsFirstOf(vs, i, item.key) && PairOf(vs[i]).value.key == item.key;
    assert IsFirstOf(more, i, item.key) && more[i] == vs[i];
    var j :| IsLastOf(vs, j, item.key) && PairOf(vs[j]).value.value == item.value;
    assert more[n] == v && more[j] == vs[j];
    if SameKey(item.key, PairOf(v).value.key) {
      assert IsLastOf(more, n, item.key);
    } else {
      assert IsLastOf(more, j, item.key);
    }
  }

  lemma TellsNew(vs: seq<Json>, v: Json)
    requires PairOf(v).Some? && forall i | 0 <= i < |vs| :: !IsKeyed(vs[i], PairOf(v).value.key)
    ensures IsTold(vs + [v], PairOf(v).value)
  {
    hide PairOf;
    var more, n, key := vs + [v], |vs|, PairOf(v).value.key;
    assert more[n] == v && IsFirstOf(more, n, key) && IsLastOf(more, n, key);
  }

  /** Assigning an entry: in its place when its key is there, else at the end. */
  lemma {:induction false} PutItemIs(items: seq<Item>, item: Item)
    requires DistinctItems(items)
    ensures
      var r := PutItem(items, item);
      if exists k :: 0 <= k < |items| && SameKey(items[k].key, item.key) then
        && |r| == |items|
        && forall k | 0 <= k < |items| ::
             r[k] == if SameKey(items[k].key, item.key) then Item(items[k].key, item.value) else items[k]
      else r == items + [item]
  {
    if items != [] {
      var rest := items[1..];
      assert forall k | 0 <= k < |rest| :: rest[k] == items[k + 1];
      if SameKey(items[0].key, item.key) {
        forall k | 0 < k < |items| ensures !SameKey(items[k].key, item.key) {
          assert !SameKey(items[0].key, items[k].key);
        }
      } else {
        PutItemIs(rest, item);
        assert forall k | 1 <= k < |items| :: items[k] == rest[k - 1];
      }
    }
  }

  /**
   dict() of a list that has only pairs: every key once, as it was first written, with the value
   that was given last; and no key that was not given.
   */
  lemma {:induction false} LastPairCounts(vs: seq<Json>)
    requires ItemsOf(vs).Some?
    ensures forall i | 0 <= i < |vs| :: PairOf(vs[i]).Some?
    ensures
      var items := ItemsOf(vs).value;
      && DistinctItems(items)
      && (forall k | 0 <= k < |items| :: IsTold(vs, items[k]))
      && (forall i | 0 <= i < |vs| :: HasItem(items, PairOf(vs[i]).value.key))
    decreases |vs|
  {
    hide PairOf, PutItem, SameKey, IsTold;
    if vs != [] {
      var front, last := vs[..|vs| - 1], vs[|vs| - 1];
      LastPairCounts(front);
      assert vs == front + [last];
      var items, item := ItemsOf(front).value, PairOf(last).value;
      var put := ItemsOf(vs).value;
      assert put == PutItem(items, item);
      PutItemIs(items, item);
      forall k | 0 <= k < |put| ensures IsTold(vs, put[k]) {
        if k < |items| {
          TellsOneMore(front, last, items[k]);
        } else {
          NotKeyed(front, items, item.key);
          TellsNew(front, last);
        }
      }
      PutDistinct(items, item);
      forall i | 0 <= i < |vs| ensures HasItem(put, PairOf(vs[i]).value.key) {
        if i < |front| {
          var k :| 0 <= k < |items| && SameKey(items[k].key, PairOf(front[i]).value.key);
          assert put[k].key == items[k].key;
        } else if put == items + [item] {
          SameAsItself(item.key);
          assert put[|items|] == item;
        } else {
          var k :| 0 <= k < |items| && SameKey(items[k].key, item.key);
          assert put[k].key == items[k].key;
        }
      }
    }
  }

  lemma SameAsItself(key: Json)
    ensures SameKey(key, key)
  {
  }

  lemma SameIsTransitive(a: Json, b: Json, c: Json)
    requires SameKey(a, b)
    ensures SameKey(b, c) <==> SameKey(a, c)
    ensures SameKey(b, a)
  {
  }

  /** A key that no entry has was given by no pair. */
  lemma NotKeyed(vs: seq<Json>, items: seq<Item>, key: Json)
    requires forall i | 0 <= i < |vs| :: PairOf(vs[i]).Some?
    requires forall i | 0 <= i < |vs| :: HasItem(items, PairOf(vs[i]).value.key)
    requires forall k | 0 <= k < |items| :: !SameKey(items[k].key, key)
    ensures forall i | 0 <= i < |vs| :: !IsKeyed(vs[i], key)
  {
    hide PairOf, SameKey;
    forall i | 0 <= i < |vs| ensures !IsKeyed(vs[i], key) {
      var k :| 0 <= k < |items| && SameKey(items[k].key, PairOf(vs[i]).value.key);
      SameIsTransitive(items[k].key, PairOf(vs[i]).value.key, key);
    }
  }

  lemma PutDistinct(items: seq<Item>, item: Item)
    requires DistinctItems(items)
    ensures DistinctItems(PutItem(items, item))
  {
    hide PutItem, SameKey;
    PutItemIs(items, item);
    var put := PutItem(items, item);
    forall i, j | 0 <= i < j < |put| ensures !SameKey(put[i].key, put[j].key) {
      assert i < |items| ==> put[i].key == items[i].key;
      assert j < |items| ==> put[j].key == items[j].key;
    }
  }

  lemma {:induction false} AllArePairs(vs: seq<Json>)
    ensures ItemsOf(vs).Some? <==> forall i | 0 <= i < |vs| :: PairOf(vs[i]).Some?
    decreases |vs|
  {
    hide PairOf, PutItem;
    if vs != [] {
      AllArePairs(vs[..|vs| - 1]);
      assert forall i | 0 <= i < |vs| - 1 :: vs[..|vs| - 1][i] == vs[i];
    }
  }

  /** All keys given are texts, or all are numbers, or they are all one key. */
  ghost predicate KeysCompare(vs: seq<Json>) {
    || (forall i | 0 <= i < |vs| :: PairOf(vs[i]).Some? && PairOf(vs[i]).value.key.JStr?)
    || (forall i | 0 <= i < |vs| :: PairOf(vs[i]).Some? && IsNumber(PairOf(vs[i]).value.key))
    || (forall i, j | 0 <= i < |vs| && 0 <= j < |vs| ::
          PairOf(vs[i]).Some? && PairOf(vs[j]).Some? && SameKey(PairOf(vs[i]).value.key, PairOf(vs[j]).value.key))
  }

  /**
   Which arguments make a dict: objects, the empty text, and the lists that have only pairs and whose
   keys can be sorted.
   */
  lemma CoercesIff(args: Json)
    ensures Coerced(args).Some?
       <==> || args.JObj? || args == JStr("")
            || (args.JArr? && (forall i | 0 <= i < |args.items| :: PairOf(args.items[i]).Some?)
                && KeysCompare(args.items))
  {
    hide PairOf, SameKey, ItemsOf, SortByNumber, IsSortable, KeysCompare;
    if args.JArr? {
      AllArePairs(args.items);
      if ItemsOf(args.items).Some? {
        SortableIff(args.items);
      }
    }
  }

  lemma SortableIff(vs: seq<Json>)
    requires ItemsOf(vs).Some?
    ensures IsSortable(ItemsOf(vs).value) <==> KeysCompare(vs)
  {
    hide PairOf, ItemsOf, IsTold, SameKey, HasItem, AllTexts, AllNumbers, DistinctItems, IsNumber;
    LastPairCounts(vs);
    var items, keys := ItemsOf(vs).value, KeysOf(vs);
    forall k | 0 <= k < |items| ensures items[k].key in keys {
      TellsKey(vs, items[k]);
      var i :| 0 <= i < |vs| && PairOf(vs[i]).value.key == items[k].key;
      assert keys[i] == items[k].key;
    }
    forall key | key in keys ensures HasItem(items, key) {
      var i :| 0 <= i < |keys| && keys[i] == key;
    }
    KindsAgree(items, keys);
    OneKeyIff(items, keys);
    KeysCompareIff(vs, keys);
  }

  function KeysOf(vs: seq<Json>): (keys: seq<Json>)
    requires forall i | 0 <= i < |vs| :: PairOf(vs[i]).Some?
    ensures |keys| == |vs| && forall i | 0 <= i < |vs| :: keys[i] == PairOf(vs[i]).value.key
  {
    seq(|vs|, i requires 0 <= i < |vs| => PairOf(vs[i]).value.key)
  }

  lemma KeysCompareIff(vs: seq<Json>, keys: seq<Json>)
    requires |keys| == |vs| && forall i | 0 <= i < |vs| :: PairOf(vs[i]).Some? && keys[i] == PairOf(vs[i]).value.key
    ensures KeysCompare(vs)
       <==> || (forall key | key in keys :: key.JStr?) || (forall key | key in keys :: IsNumber(key))
            || (forall a, b | a in keys && b in keys :: SameKey(a, b))
  {
    hide PairOf, SameKey, IsNumber;
    assert forall i | 0 <= i < |vs| :: keys[i] in keys;
  }

  /** The keys of a dict are all texts, or all numbers, exactly when those given are. */
  lemma KindsAgree(items: seq<Item>, keys: seq<Json>)
    requires forall k | 0 <= k < |items| :: items[k].key in keys
    requires forall key | key in keys :: HasItem(items, key)
    ensures AllTexts(items) <==> forall key | key in keys :: key.JStr?
    ensures AllNumbers(items) <==> forall key | key in keys :: IsNumber(key)
  {
    hide SameKey, HasItem, IsNumber;
    forall key | key in keys
      ensures AllTexts(items) ==> key.JStr?
      ensures AllNumbers(items) ==> IsNumber(key)
    {
      var k := ItemFor(items, key);
      SameKeyKind(items[k].key, key);
    }
  }

  lemma ItemFor(items: seq<Item>, key: Json) returns (k: nat)
    requires HasItem(items, key)
    ensures k < |items| && SameKey(items[k].key, key)
  {
    k :| k < |items| && SameKey(items[k].key, key);
  }

  /** A dict has no second key exactly when one key was given again and again. */
  lemma OneKeyIff(items: seq<Item>, keys: seq<Json>)
    requires DistinctItems(items) && forall k | 0 <= k < |items| :: items[k].key in keys
    requires forall key | key in keys :: HasItem(items, key)
    ensures |items| <= 1 <==> forall a, b | a in keys && b in keys :: SameKey(a, b)
  {
    hide SameKey;
    if |items| <= 1 {
      forall a, b | a in keys && b in keys ensures SameKey(a, b) {
        var k :| 0 <= k < |items| && SameKey(items[k].key, a);
        var m :| 0 <= m < |items| && SameKey(items[m].key, b);
        SameIsTransitive(items[k].key, a, b);
      }
    } else {
      assert items[0].key in keys && items[1].key in keys && !SameKey(items[0].key, items[1].key);
    }
  }

  predicate SameKind(a: Json, b: Json) {
    (a.JStr? <==> b.JStr?) && (IsNumber(a) <==> IsNumber(b))
  }

  lemma SameKeyKind(a: Json, b: Json)
    requires SameKey(a, b)
    ensures SameKind(a, b)
  {
  }

  lemma TellsKey(vs: seq<Json>, item: Item)
    requires IsTold(vs, item) && forall i | 0 <= i < |vs| :: PairOf(vs[i]).Some?
    ensures exists i :: 0 <= i < |vs| && PairOf(vs[i]).value.key == item.key
  {
  }
}
