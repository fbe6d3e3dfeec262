/**
 The canonical text determines the normalized tree, and two argument trees share it
 exactly when they agree key by key.
 */
module CanonicalJsonProofs {
  import opened Outcomes
  import opened PyText
  import opened CanonicalJson
  import opened JsonReader

  /* ---------- the printer is prefix-free ---------- */

  /** Two printed trees, followed by anything that may follow them, are equal texts only if the trees are equal. */
  lemma PrintPrefix(a: Json, b: Json, x: string, y: string)
    requires Print(a) + x == Print(b) + y && Ends(x) && Ends(y)
    ensures a == b && x == y
  {
    hide Print, Ends;
    PrintedReads(a, x);
    PrintedReads(b, y);
  }

  /** The printed text determines the tree. */
  lemma PrintInjective(a: Json, b: Json)
    requires Print(a) == Print(b)
    ensures a == b
  {
    assert Print(a) + "" == Print(b) + "";
    PrintPrefix(a, b, "", "");
  }

  /* ---------- sorting ---------- */

  predicate HasKey(ms: seq<Member>, key: string) {
    ms != [] && (ms[0].key == key || HasKey(ms[1..], key))
  }

  /** dict.get: None when the key is absent. */
  function Get(ms: seq<Member>, key: string): Json {
    if ms == [] then JNull else if ms[0].key == key then ms[0].value else Get(ms[1..], key)
  }

  lemma {:induction false} HasKeyIff(ms: seq<Member>, key: string)
    ensures HasKey(ms, key) <==> exists m | m in ms :: m.key == key
    ensures HasKey(ms, key) ==> Member(key, Get(ms, key)) in ms
    ensures !HasKey(ms, key) ==> Get(ms, key) == JNull
  {
    if ms != [] {
      HasKeyIff(ms[1..], key);
      assert ms == [ms[0]] + ms[1..];
    }
  }

  lemma {:induction false} InsertAscends(m: Member, ms: seq<Member>)
    requires KeysAscend(ms) && !HasKey(ms, m.key)
    ensures KeysAscend(InsertByKey(m, ms))
    ensures ms != [] && TextLess(ms[0].key, m.key) ==> InsertByKey(m, ms)[0] == ms[0]
  {
    if ms != [] && !TextLess(m.key, ms[0].key) {
      TextLessTotal(m.key, ms[0].key);
      InsertAscends(m, ms[1..]);
      if |ms| > 1 {
        TextLessTotal(m.key, ms[1].key);
        assert InsertByKey(m, ms[1..])[0] in {m, ms[1]};
      }
    } else if ms != [] {
      TextLessTotal(m.key, ms[0].key);
    }
  }

  lemma {:induction false} InsertGets(m: Member, ms: seq<Member>, key: string)
    requires !HasKey(ms, m.key)
    ensures HasKey(InsertByKey(m, ms), key) <==> m.key == key || HasKey(ms, key)
    ensures Get(InsertByKey(m, ms), key) == if m.key == key then m.value else Get(ms, key)
  {
    if ms != [] && !TextLess(m.key, ms[0].key) {
      InsertGets(m, ms[1..], key);
    }
  }

  /** Sorting a dict's items orders the keys and keeps every lookup. */
  lemma {:induction false} SortCorrect(ms: seq<Member>, key: string)
    requires UniqueKeys(ms)
    ensures KeysAscend(SortByKey(ms))
    ensures HasKey(SortByKey(ms), key) <==> HasKey(ms, key)
    ensures Get(SortByKey(ms), key) == Get(ms, key)
  {
    if ms != [] {
      SortCorrect(ms[1..], key);
      SortCorrect(ms[1..], ms[0].key);
      HasKeyIff(ms[1..], ms[0].key);
      assert !HasKey(ms[1..], ms[0].key);
      InsertAscends(ms[0], SortByKey(ms[1..]));
      InsertGets(ms[0], SortByKey(ms[1..]), key);
    }
  }

  lemma {:induction false} SortKeepsSorted(ms: seq<Member>)
    requires KeysAscend(ms)
    ensures SortByKey(ms) == ms
  {
    if ms != [] {
      assert forall k | 0 < k < |ms[1..]| :: ms[1..][k] == ms[k + 1];
      SortKeepsSorted(ms[1..]);
    }
  }

  /** Ascending keys: the first key is below every later one. */
  lemma {:induction false} FirstKeyLeast(ms: seq<Member>, key: string)
    requires ms != [] && KeysAscend(ms) && (key == ms[0].key || TextLess(key, ms[0].key))
    ensures !HasKey(ms[1..], key)
  {
    if |ms| > 1 {
      if key != ms[0].key {
        TextLessTransitive(key, ms[0].key, ms[1].key);
      }
      TextLessTotal(key, ms[1].key);
      assert KeysAscend(ms[1..]);
      FirstKeyLeast(ms[1..], key);
    }
  }

  lemma {:induction false} AscendingUnique(ms: seq<Member>)
    requires KeysAscend(ms)
    ensures UniqueKeys(ms)
  {
    if ms != [] {
      assert KeysAscend(ms[1..]);
      AscendingUnique(ms[1..]);
      FirstKeyLeast(ms, ms[0].key);
      HasKeyIff(ms[1..], ms[0].key);
      forall a, b | 0 <= a < b < |ms|
        ensures ms[a].key != ms[b].key
      {
        if a == 0 {
          assert ms[b] == ms[1..][b - 1] && ms[1..][b - 1] in ms[1..];
        } else {
          assert ms[a] == ms[1..][a - 1] && ms[b] == ms[1..][b - 1];
        }
      }
    }
  }

  /* ---------- normal trees ---------- */

  lemma {:induction false} NormalizeMembersUnique(ms: seq<Member>)
    requires UniqueKeys(ms)
    ensures UniqueKeys(NormalizeMembers(ms))
    ensures forall m | m in NormalizeMembers(ms) :: !m.value.JNull? && HasKey(ms, m.key)
  {
    hide Normalize;
    if ms != [] {
      NormalizeMembersUnique(ms[1..]);
      NormalizeKeepsKind(ms[0].value);
      HasKeyIff(ms[1..], ms[0].key);
    }
  }

  lemma NormalizeKeepsKind(v: Json)
    ensures Normalize(v).JNull? <==> v.JNull?
    ensures Normalize(v).JObj? <==> v.JObj?
  {
  }

  lemma {:induction false} NormalizeMembersGets(ms: seq<Member>, key: string)
    requires UniqueKeys(ms)
    ensures Get(NormalizeMembers(ms), key) == Normalize(Get(ms, key))
  {
    hide Normalize;
    NormalizeNull();
    if ms != [] {
      NormalizeMembersGets(ms[1..], key);
      HasKeyIff(ms[1..], ms[0].key);
    }
  }

  lemma NormalizeNull()
    ensures Normalize(JNull) == JNull
  {
  }

  lemma {:induction false} NormalizeIsNormal(v: Json)
    requires IsTree(v)
    ensures IsNormal(Normalize(v))
    decreases v
  {
    match v
    case JArr(items) =>
      forall k | 0 <= k < |items|
        ensures IsNormal(NormalizeItems(items)[k])
      {
        NormalizeItemsAt(items, k);
        NormalizeIsNormal(items[k]);
      }
    case JObj(members) =>
      NormalizeMembersUnique(members);
      SortCorrect(NormalizeMembers(members), "");
      var sorted := SortByKey(NormalizeMembers(members));
      forall m | m in sorted
        ensures !m.value.JNull? && IsNormal(m.value)
      {
        assert m in multiset(sorted);
        assert m in NormalizeMembers(members);
        var source := NormalizedFrom(members, m);
        NormalizeIsNormal(source.value);
      }
    case _ =>
  }

  lemma {:induction false} NormalizeItemsAt(items: seq<Json>, k: nat)
    requires k < |items|
    ensures NormalizeItems(items)[k] == Normalize(items[k])
  {
    if k > 0 {
      NormalizeItemsAt(items[1..], k - 1);
    }
  }

  lemma {:induction false} NormalizedFrom(members: seq<Member>, m: Member) returns (source: Member)
    requires m in NormalizeMembers(members)
    ensures source in members && m == Member(source.key, Normalize(source.value))
  {
    if !members[0].value.JNull? && m == NormalizeMembers(members)[0] {
      source := members[0];
    } else {
      source := NormalizedFrom(members[1..], m);
    }
  }

  /** A normal tree is its own normal form and already sorted. */
  lemma {:induction false} NormalIsFixed(v: Json)
    requires IsNormal(v)
    ensures Normalize(v) == v && SortKeys(v) == v
    decreases v, 1
  {
    match v
    case JArr(items) => NormalItemsFixed(items);
    case JObj(members) =>
      NormalMembersFixed(members);
      SortKeepsSorted(members);
    case _ =>
  }

  lemma {:induction false} NormalItemsFixed(items: seq<Json>)
    requires forall i | i in items :: IsNormal(i)
    ensures NormalizeItems(items) == items && SortKeysItems(items) == items
    decreases items, 0
  {
    if items != [] {
      NormalIsFixed(items[0]);
      NormalItemsFixed(items[1..]);
    }
  }

  lemma {:induction false} NormalMembersFixed(members: seq<Member>)
    requires forall m | m in members :: !m.value.JNull? && IsNormal(m.value)
    ensures NormalizeMembers(members) == members && SortKeysMembers(members) == members
    decreases members, 0
  {
    if members != [] {
      NormalIsFixed(members[0].value);
      NormalMembersFixed(members[1..]);
    }
  }

  /** normalize_value is idempotent. */
  lemma NormalizeIdempotent(v: Json)
    requires IsTree(v)
    ensures Normalize(Normalize(v)) == Normalize(v)
  {
    NormalizeIsNormal(v);
    NormalIsFixed(Normalize(v));
  }

  /** Two argument dicts share a binding exactly when they share a normal form. */
  lemma BindingDeterminesNormalForm(a: seq<Member>, b: seq<Member>)
    requires IsTree(JObj(a)) && IsTree(JObj(b))
    ensures ArgsBinding(a) == ArgsBinding(b) <==> Normalize(JObj(a)) == Normalize(JObj(b))
  {
    NormalizeIsNormal(JObj(a));
    NormalizeIsNormal(JObj(b));
    NormalIsFixed(Normalize(JObj(a)));
    NormalIsFixed(Normalize(JObj(b)));
    if ArgsBinding(a) == ArgsBinding(b) {
      PrintInjective(Normalize(JObj(a)), Normalize(JObj(b)));
    }
  }

  /* ---------- what sharing a binding means ---------- */

  /**
   The same arguments: equal leaves, lists item by item (None items included), dicts key by
   key whatever the order, where a None entry counts as absent.
   */
  predicate Agree(v: Json, w: Json)
    decreases v
  {
    match v
    case JArr(items) =>
      && w.JArr? && |w.items| == |items|
      && forall k | 0 <= k < |items| :: Agree(items[k], w.items[k])
    case JObj(members) =>
      && w.JObj?
      && (forall m | m in members :: Agree(m.value, Get(w.members, m.key)))
      && (forall m | m in w.members :: m.value.JNull? || HasKey(members, m.key))
    case _ => v == w
  }

  /** Ascending dicts without None are equal when every lookup is. */
  lemma {:induction false} LookupsDetermine(a: seq<Member>, b: seq<Member>)
    requires KeysAscend(a) && KeysAscend(b)
    requires (forall m | m in a :: !m.value.JNull?) && (forall m | m in b :: !m.value.JNull?)
    requires forall key :: Get(a, key) == Get(b, key)
    ensures a == b
  {
    if a == [] || b == [] {
      assert a != [] ==> Get(a, a[0].key) == a[0].value && Get(b, a[0].key) == JNull;
      assert b != [] ==> Get(b, b[0].key) == b[0].value && Get(a, b[0].key) == JNull;
    } else {
      FirstKeyLeast(a, a[0].key);
      FirstKeyLeast(b, b[0].key);
      SameFirstKey(a, b);
      assert Get(a, a[0].key) == Get(b, a[0].key);
      HasKeyIff(a[1..], a[0].key);
      HasKeyIff(b[1..], a[0].key);
      forall key
        ensures Get(a[1..], key) == Get(b[1..], key)
      {
        assert Get(a, key) == Get(b, key);
      }
      assert KeysAscend(a[1..]) && KeysAscend(b[1..]);
      LookupsDetermine(a[1..], b[1..]);
      assert a == [a[0]] + a[1..] && b == [b[0]] + b[1..];
    }
  }

  lemma SameFirstKey(a: seq<Member>, b: seq<Member>)
    requires a != [] && b != [] && KeysAscend(a) && KeysAscend(b)
    requires !a[0].value.JNull? && !b[0].value.JNull?
    requires Get(a, a[0].key) == Get(b, a[0].key) && Get(a, b[0].key) == Get(b, b[0].key)
    ensures a[0].key == b[0].key
  {
    TextLessTotal(a[0].key, b[0].key);
    if TextLess(a[0].key, b[0].key) {
      FirstKeyLeast(b, a[0].key);
      HasKeyIff(b[1..], a[0].key);
    } else if TextLess(b[0].key, a[0].key) {
      FirstKeyLeast(a, b[0].key);
      HasKeyIff(a[1..], b[0].key);
    }
  }

  /** Looking a key up in the normal form of a dict. */
  lemma NormalGets(members: seq<Member>, key: string)
    requires UniqueKeys(members)
    ensures Get(Normalize(JObj(members)).members, key) == Normalize(Get(members, key))
  {
    NormalizeMembersGets(members, key);
    NormalizeMembersUnique(members);
    SortCorrect(NormalizeMembers(members), key);
  }

  lemma {:induction false} GetIsMember(members: seq<Member>, m: Member)
    requires UniqueKeys(members) && m in members
    ensures Get(members, m.key) == m.value
  {
    if m != members[0] {
      var k :| 0 <= k < |members| && members[k] == m;
      assert members[0].key != members[k].key;
      assert members[1..][k - 1] == m;
      GetIsMember(members[1..], m);
    }
  }

  lemma {:induction false} AgreeMeansSameNormalForm(v: Json, w: Json)
    requires IsTree(v) && IsTree(w)
    ensures Agree(v, w) <==> Normalize(v) == Normalize(w)
    decreases v
  {
    match v
    case JArr(items) =>
      if w.JArr? && |w.items| == |items| {
        forall k | 0 <= k < |items|
          ensures Agree(items[k], w.items[k]) <==> NormalizeItems(items)[k] == NormalizeItems(w.items)[k]
        {
          NormalizeItemsAt(items, k);
          NormalizeItemsAt(w.items, k);
          AgreeMeansSameNormalForm(items[k], w.items[k]);
        }
      }
    case JObj(members) =>
      if w.JObj? {
        forall m | m in members
          ensures Agree(m.value, Get(w.members, m.key)) <==> Normalize(m.value) == Normalize(Get(w.members, m.key))
        {
          HasKeyIff(w.members, m.key);
          AgreeMeansSameNormalForm(m.value, Get(w.members, m.key));
        }
        if Agree(v, w) {
          DictsAgree(members, w.members);
        } else if Normalize(v) == Normalize(w) {
          DictsEqual(members, w.members);
        }
      }
    case _ =>
  }

  /** Key-by-key agreement of two dicts gives them one normal form. */
  lemma DictsAgree(a: seq<Member>, b: seq<Member>)
    requires IsTree(JObj(a)) && IsTree(JObj(b))
    requires forall m | m in a :: Normalize(m.value) == Normalize(Get(b, m.key))
    requires forall m | m in b :: m.value.JNull? || HasKey(a, m.key)
    ensures Normalize(JObj(a)) == Normalize(JObj(b))
  {
    var x, y := Normalize(JObj(a)).members, Normalize(JObj(b)).members;
    NormalizeIsNormal(JObj(a));
    NormalizeIsNormal(JObj(b));
    forall key
      ensures Get(x, key) == Get(y, key)
    {
      NormalGets(a, key);
      NormalGets(b, key);
      HasKeyIff(a, key);
      HasKeyIff(b, key);
    }
    LookupsDetermine(x, y);
  }

  /** Two dicts with one normal form agree key by key. */
  lemma DictsEqual(a: seq<Member>, b: seq<Member>)
    requires IsTree(JObj(a)) && IsTree(JObj(b))
    requires Normalize(JObj(a)) == Normalize(JObj(b))
    ensures forall m | m in a :: Normalize(m.value) == Normalize(Get(b, m.key))
    ensures forall m | m in b :: m.value.JNull? || HasKey(a, m.key)
  {
    forall m | m in a
      ensures Normalize(m.value) == Normalize(Get(b, m.key))
    {
      GetIsMember(a, m);
      NormalGets(a, m.key);
      NormalGets(b, m.key);
    }
    forall m | m in b
      ensures m.value.JNull? || HasKey(a, m.key)
    {
      GetIsMember(b, m);
      NormalGets(a, m.key);
      NormalGets(b, m.key);
      HasKeyIff(a, m.key);
    }
  }

  /** The binding law: two argument dicts get the same binding exactly when they agree. */
  lemma BindingMeansAgreement(a: seq<Member>, b: seq<Member>)
    requires IsTree(JObj(a)) && IsTree(JObj(b))
    ensures ArgsBinding(a) == ArgsBinding(b) <==> Agree(JObj(a), JObj(b))
  {
    BindingDeterminesNormalForm(a, b);
    AgreeMeansSameNormalForm(JObj(a), JObj(b));
  }

  /* ---------- sorting keys on the way ---------- */

  lemma {:induction false} SortKeysAt(members: seq<Member>, i: nat)
    requires i < |members|
    ensures |SortKeysMembers(members)| == |members|
    ensures SortKeysMembers(members)[i] == Member(members[i].key, SortKeys(members[i].value))
  {
    if i > 0 {
      SortKeysAt(members[1..], i - 1);
    } else if |members| > 1 {
      SortKeysAt(members[1..], 0);
    }
  }

  lemma SortKeysAll(members: seq<Member>)
    ensures |SortKeysMembers(members)| == |members|
    ensures forall i | 0 <= i < |members| ::
              SortKeysMembers(members)[i] == Member(members[i].key, SortKeys(members[i].value))
  {
    if members != [] {
      SortKeysAt(members, 0);
    }
    forall i | 0 <= i < |members|
      ensures SortKeysMembers(members)[i] == Member(members[i].key, SortKeys(members[i].value))
    {
      SortKeysAt(members, i);
    }
  }

  lemma {:induction false} ItemsAt(items: seq<Json>)
    ensures |SortKeysItems(items)| == |items|
    ensures forall i | 0 <= i < |items| :: SortKeysItems(items)[i] == SortKeys(items[i])
  {
    if items != [] {
      ItemsAt(items[1..]);
    }
  }

  predicate SameKeys(a: seq<Member>, b: seq<Member>) {
    |a| == |b| && forall i | 0 <= i < |a| :: a[i].key == b[i].key
  }

  /** Dicts of the same keys in the same places sort alike exactly when their values do, place by place. */
  lemma FieldsIff(a: seq<Member>, b: seq<Member>)
    requires SameKeys(a, b) && UniqueKeys(a)
    ensures SortKeys(JObj(a)) == SortKeys(JObj(b))
       <==> forall i | 0 <= i < |a| :: SortKeys(a[i].value) == SortKeys(b[i].value)
  {
    hide SortByKey, SortKeysMembers, Get;
    var x, y := SortKeysMembers(a), SortKeysMembers(b);
    SortKeysAll(a);
    SortKeysAll(b);
    assert UniqueKeys(x) && UniqueKeys(y);
    if SortByKey(x) == SortByKey(y) {
      forall i | 0 <= i < |a| ensures SortKeys(a[i].value) == SortKeys(b[i].value) {
        GetIsMember(x, x[i]);
        GetIsMember(y, y[i]);
        SortCorrect(x, x[i].key);
        SortCorrect(y, y[i].key);
      }
    }
    if forall i | 0 <= i < |a| :: SortKeys(a[i].value) == SortKeys(b[i].value) {
      assert x == y;
    }
  }

  lemma SortKeysOfList(a: seq<Json>, b: seq<Json>)
    ensures SortKeys(JArr(a)) == SortKeys(JArr(b))
       <==> |a| == |b| && forall i | 0 <= i < |a| :: SortKeys(a[i]) == SortKeys(b[i])
  {
    ItemsAt(a);
    ItemsAt(b);
    var x, y := SortKeysItems(a), SortKeysItems(b);
    if x == y {
      forall i | 0 <= i < |a| ensures SortKeys(a[i]) == SortKeys(b[i]) {
        assert x[i] == y[i];
      }
    }
    if |a| == |b| && forall i | 0 <= i < |a| :: SortKeys(a[i]) == SortKeys(b[i]) {
      assert x == y;
    }
  }

  /** Looking a key up after sorting. */
  lemma {:induction false} SortKeysGets(members: seq<Member>, key: string)
    ensures HasKey(SortKeysMembers(members), key) <==> HasKey(members, key)
    ensures HasKey(members, key) ==> Get(SortKeysMembers(members), key) == SortKeys(Get(members, key))
  {
    hide SortKeys;
    if members != [] {
      SortKeysGets(members[1..], key);
    }
  }

  /* ---------- what a canonical text says ---------- */

  /** The same tree, dicts in whatever order. */
  predicate SameUpToOrder(v: Json, w: Json)
    decreases v
  {
    match v
    case JArr(items) =>
      && w.JArr? && |w.items| == |items|
      && forall k | 0 <= k < |items| :: SameUpToOrder(items[k], w.items[k])
    case JObj(members) =>
      && w.JObj? && |w.members| == |members|
      && forall m | m in members :: HasKey(w.members, m.key) && SameUpToOrder(m.value, Get(w.members, m.key))
    case _ => v == w
  }

  /** Keys ascend in every dict. */
  predicate IsSorted(v: Json) {
    match v
    case JArr(items) => forall i | i in items :: IsSorted(i)
    case JObj(members) => KeysAscend(members) && forall m | m in members :: IsSorted(m.value)
    case _ => true
  }

  lemma {:induction false} SortKeysIs(v: Json)
    requires IsTree(v)
    ensures SameUpToOrder(v, SortKeys(v)) && IsSorted(SortKeys(v))
    decreases v
  {
    hide SortByKey, SortKeysMembers, SortKeysItems, KeysAscend, HasKey, Get;
    match v
    case JArr(items) =>
      ItemsAt(items);
      forall k | 0 <= k < |items|
        ensures SameUpToOrder(items[k], SortKeys(items[k])) && IsSorted(SortKeysItems(items)[k])
      {
        SortKeysIs(items[k]);
      }
    case JObj(members) =>
      var x := SortKeysMembers(members);
      SortKeysAll(members);
      assert UniqueKeys(x);
      SortCorrect(x, "");
      forall m | m in members
        ensures HasKey(SortByKey(x), m.key) && SameUpToOrder(m.value, Get(SortByKey(x), m.key))
      {
        SortKeysIs(m.value);
        GetIsMember(members, m);
        HasKeyIff(members, m.key);
        SortKeysGets(members, m.key);
        SortCorrect(x, m.key);
      }
      forall m | m in SortByKey(x) ensures IsSorted(m.value) {
        assert m in multiset(SortByKey(x));
        assert m in x;
        var k :| 0 <= k < |x| && x[k] == m;
        SortKeysIs(members[k].value);
      }
      SameSize(x);
    case _ =>
  }

  lemma SameSize(x: seq<Member>)
    ensures |SortByKey(x)| == |x|
  {
    hide SortByKey;
    assert |multiset(SortByKey(x))| == |multiset(x)|;
  }

  /**
   The canonical text of a tree: read as JSON, to its end, it is that tree with the keys of every
   dict in ascending order.
   */
  lemma CanonicalReadsBack(v: Json) returns (w: Json)
    requires IsTree(v)
    ensures ReadValue(CanonicalText(v)) == Some(Read(w, "")) && SameUpToOrder(v, w) && IsSorted(w)
  {
    hide ReadValue, Print, SortKeys, SameUpToOrder, IsSorted;
    w := SortKeys(v);
    PrintReadsBack(w);
    SortKeysIs(v);
  }
}
