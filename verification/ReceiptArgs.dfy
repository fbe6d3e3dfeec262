/**
 The arguments a receipt carries are bound through dict(): an object stays itself, an empty text
 or list is an empty dict, a list of pairs becomes the dict of those pairs, and anything else
 raises. Keys that are not texts appear in the binding as the texts json.dumps gives them.
 */
module ReceiptArgs {
  import opened Outcomes
  import opened PyText
  import opened CanonicalJson
  import opened CanonicalJsonProofs

  /** An entry of a dict whose keys need not be texts. */
  datatype Item = Item(key: Json, value: Json)

  predicate IsNumber(key: Json) {
    key.JInt? || key.JBool?
  }

  function NumberOf(key: Json): int
    requires IsNumber(key)
  {
    match key
    case JInt(n) => n
    case JBool(b) => if b then 1 else 0
  }

  /** Equal as dict keys: True is 1. */
  predicate SameKey(a: Json, b: Json) {
    a == b || (IsNumber(a) && IsNumber(b) && NumberOf(a) == NumberOf(b))
  }

  /** The key and value dict() reads from one element; None where it raises. */
  function PairOf(v: Json): Option<Item> {
    match v
    case JArr(xs) => if |xs| == 2 && !xs[0].JArr? && !xs[0].JObj? then Some(Item(xs[0], xs[1])) else None
    case JStr(s) => if |s| == 2 then Some(Item(JStr([s[0]]), JStr([s[1]]))) else None
    case JObj(ms) => if |ms| == 2 then Some(Item(JStr(ms[0].key), JStr(ms[1].key))) else None
    case _ => None
  }

  /** dict assignment: an existing key keeps its place and its form. */
  function PutItem(items: seq<Item>, item: Item): seq<Item> {
    if items == [] then [item]
    else if SameKey(items[0].key, item.key) then [Item(items[0].key, item.value)] + items[1..]
    else [items[0]] + PutItem(items[1..], item)
  }

  function ItemsOf(vs: seq<Json>): Option<seq<Item>> {
    if vs == [] then Some([])
    else
      var front, last := ItemsOf(vs[..|vs| - 1]), PairOf(vs[|vs| - 1]);
      if front.None? || last.None? then None else Some(PutItem(front.value, last.value))
  }

  predicate AllTexts(items: seq<Item>) {
    forall k | 0 <= k < |items| :: items[k].key.JStr?
  }

  predicate AllNumbers(items: seq<Item>) {
    forall k | 0 <= k < |items| :: IsNumber(items[k].key)
  }

  /** sorted() over the items does not raise. */
  predicate IsSortable(items: seq<Item>) {
    |items| <= 1 || AllTexts(items) || AllNumbers(items)
  }

  function InsertByNumber(item: Item, items: seq<Item>): seq<Item>
    requires IsNumber(item.key) && AllNumbers(items)
  {
    if items == [] || NumberOf(item.key) < NumberOf(items[0].key) then [item] + items
    else [items[0]] + InsertByNumber(item, items[1..])
  }

  function SortByNumber(items: seq<Item>): (r: seq<Item>)
    requires AllNumbers(items)
    ensures AllNumbers(r)
  {
    if items == [] then []
    else
      InsertStaysNumeric(items[0], SortByNumber(items[1..]));
      InsertByNumber(items[0], SortByNumber(items[1..]))
  }

  lemma InsertStaysNumeric(item: Item, items: seq<Item>)
    requires IsNumber(item.key) && AllNumbers(items)
    ensures AllNumbers(InsertByNumber(item, items))
    ensures forall x | x in InsertByNumber(item, items) :: x == item || x in items
  {
    if items != [] && !(NumberOf(item.key) < NumberOf(items[0].key)) {
      InsertStaysNumeric(item, items[1..]);
    }
  }

  /** The text json.dumps prints for a key. */
  function KeyText(key: Json): string {
    match key
    case JStr(s) => s
    case JInt(n) => IntText(n)
    case JBool(b) => if b then "true" else "false"
    case _ => "null"
  }

  function Shown(items: seq<Item>): (r: seq<Member>)
    ensures |r| == |items| && forall k | 0 <= k < |items| :: r[k] == Member(KeyText(items[k].key), items[k].value)
  {
    seq(|items|, k requires 0 <= k < |items| => Member(KeyText(items[k].key), items[k].value))
  }

  /** The list has only numeric keys: they print in numeric order. */
  predicate IsNumbered(args: Json) {
    args.JArr? && ItemsOf(args.items).Some? && AllNumbers(ItemsOf(args.items).value)
  }

  /** The dict that dict() makes of the arguments, keys as they are printed; None where it or sorting raises. */
  function Coerced(args: Json): Option<seq<Member>> {
    match args
    case JObj(members) => Some(members)
    case JStr(s) => if s == "" then Some([]) else None
    case JArr(vs) =>
      var items := ItemsOf(vs);
      if items.None? || !IsSortable(items.value) then None
      else Some(Shown(if AllNumbers(items.value) then SortByNumber(items.value) else items.value))
    case _ => None
  }

  /** args_binding of what a receipt carries. */
  function BindingOf(args: Json): Option<string> {
    match Coerced(args)
    case None => None
    case Some(members) =>
      Some(if IsNumbered(args) then Print(JObj(NormalizeMembers(members))) else ArgsBinding(members))
  }

  /** The arguments coerce to a dict that agrees with the call's, numeric keys standing in text order too. */
  ghost predicate CoerceTo(args: Json, members: seq<Member>) {
    && Coerced(args).Some?
    && Agree(JObj(Coerced(args).value), JObj(members))
    && (IsNumbered(args) ==> KeysAscend(NormalizeMembers(Coerced(args).value)))
  }

  /* ---------- a coerced dict is a dict ---------- */

  predicate DistinctItems(items: seq<Item>) {
    forall i, j | 0 <= i < j < |items| :: !SameKey(items[i].key, items[j].key)
  }

  predicate TreeItems(items: seq<Item>) {
    forall k | 0 <= k < |items| :: IsTree(items[k].value)
  }

  lemma {:induction false} PutKeeps(items: seq<Item>, item: Item)
    requires DistinctItems(items) && TreeItems(items) && IsTree(item.value)
    ensures DistinctItems(PutItem(items, item)) && TreeItems(PutItem(items, item))
    ensures forall x | x in PutItem(items, item) ::
              x.key == item.key || exists k :: 0 <= k < |items| && items[k].key == x.key
    decreases |items|
  {
    hide IsTree;
    if items != [] && !SameKey(items[0].key, item.key) {
      var rest := items[1..];
      assert forall k | 0 <= k < |rest| :: rest[k] == items[k + 1];
      PutKeeps(rest, item);
      var put := PutItem(rest, item);
      forall j | 0 <= j < |put| ensures !SameKey(items[0].key, put[j].key) {
        assert put[j] in put;
      }
      assert PutItem(items, item) == [items[0]] + put;
    }
  }

  lemma PairIsTree(v: Json)
    requires IsTree(v) && PairOf(v).Some?
    ensures IsTree(PairOf(v).value.value)
  {
  }

  lemma {:induction false} ItemsKeep(vs: seq<Json>)
    requires (forall v | v in vs :: IsTree(v)) && ItemsOf(vs).Some?
    ensures DistinctItems(ItemsOf(vs).value) && TreeItems(ItemsOf(vs).value)
    decreases |vs|
  {
    hide IsTree, PairOf, PutItem, SameKey;
    if vs != [] {
      ItemsKeep(vs[..|vs| - 1]);
      PairIsTree(vs[|vs| - 1]);
      PutKeeps(ItemsOf(vs[..|vs| - 1]).value, PairOf(vs[|vs| - 1]).value);
    }
  }

  predicate NumbersAscend(items: seq<Item>)
    requires AllNumbers(items)
  {
    forall i, j | 0 <= i < j < |items| :: NumberOf(items[i].key) < NumberOf(items[j].key)
  }

  lemma {:induction false} InsertNumberAscends(item: Item, items: seq<Item>)
    requires IsNumber(item.key) && AllNumbers(items) && NumbersAscend(items)
    requires forall k | 0 <= k < |items| :: NumberOf(items[k].key) != NumberOf(item.key)
    ensures AllNumbers(InsertByNumber(item, items)) && NumbersAscend(InsertByNumber(item, items))
    decreases |items|
  {
    InsertStaysNumeric(item, items);
    if items != [] && !(NumberOf(item.key) < NumberOf(items[0].key)) {
      var rest := items[1..];
      InsertStaysNumeric(item, rest);
      InsertNumberAscends(item, rest);
      var more := InsertByNumber(item, rest);
      forall j | 0 <= j < |more| ensures NumberOf(items[0].key) < NumberOf(more[j].key) {
        assert more[j] in more;
        if more[j] != item {
          var k :| 0 <= k < |rest| && rest[k] == more[j];
          assert items[k + 1] == rest[k];
        }
      }
    }
  }

  lemma {:induction false} SortNumberAscends(items: seq<Item>)
    requires AllNumbers(items) && DistinctItems(items)
    ensures NumbersAscend(SortByNumber(items))
    ensures forall x | x in SortByNumber(items) :: x in items
    decreases |items|
  {
    if items != [] {
      var rest := items[1..];
      assert forall k | 0 <= k < |rest| :: rest[k] == items[k + 1];
      SortNumberAscends(rest);
      var sorted := SortByNumber(rest);
      forall k | 0 <= k < |sorted| ensures NumberOf(sorted[k].key) != NumberOf(items[0].key) {
        assert sorted[k] in sorted;
        var j :| 0 <= j < |rest| && rest[j] == sorted[k];
        assert !SameKey(items[0].key, items[j + 1].key);
      }
      InsertNumberAscends(items[0], sorted);
      InsertStaysNumeric(items[0], sorted);
    }
  }

  /** Different numbers print differently. */
  lemma NumberTexts(a: Json, b: Json)
    requires IsNumber(a) && IsNumber(b) && NumberOf(a) != NumberOf(b)
    ensures KeyText(a) != KeyText(b)
  {
    var s, t := KeyText(a), KeyText(b);
    if a.JInt? && b.JInt? {
      IntTextInjective(a.n, b.n);
    } else if a.JInt? {
      assert IsDigit(s[|s| - 1]) && !IsDigit(t[|t| - 1]);
    } else if b.JInt? {
      assert IsDigit(t[|t| - 1]) && !IsDigit(s[|s| - 1]);
    } else {
      assert "true"[0] != "false"[0];
    }
  }

  /** A coerced tree is a tree: its printed keys are unique. */
  lemma CoercedIsTree(args: Json)
    requires IsTree(args) && Coerced(args).Some?
    ensures IsTree(JObj(Coerced(args).value))
  {
    hide ItemsOf, SortByNumber, KeyText;
    if args.JArr? {
      ItemsKeep(args.items);
      var items := ItemsOf(args.items).value;
      if AllNumbers(items) {
        SortNumberAscends(items);
        SortedIsTree(items, SortByNumber(items));
      } else {
        TextsAreTree(items);
      }
    }
  }

  lemma SortedIsTree(items: seq<Item>, sorted: seq<Item>)
    requires TreeItems(items) && AllNumbers(sorted) && NumbersAscend(sorted) && forall x | x in sorted :: x in items
    ensures IsTree(JObj(Shown(sorted)))
  {
    hide KeyText;
    var ms := Shown(sorted);
    forall i, j | 0 <= i < j < |ms| ensures ms[i].key != ms[j].key {
      NumberTexts(sorted[i].key, sorted[j].key);
    }
    forall m | m in ms ensures IsTree(m.value) {
      var k :| 0 <= k < |ms| && ms[k] == m;
      assert sorted[k] in sorted;
      assert sorted[k] in items;
    }
  }

  lemma TextsAreTree(items: seq<Item>)
    requires TreeItems(items) && DistinctItems(items) && (|items| <= 1 || AllTexts(items))
    ensures IsTree(JObj(Shown(items)))
  {
    var ms := Shown(items);
    forall i, j | 0 <= i < j < |ms| ensures ms[i].key != ms[j].key {
      assert !SameKey(items[i].key, items[j].key);
    }
    forall m | m in ms ensures IsTree(m.value) {
      var k :| 0 <= k < |ms| && ms[k] == m;
    }
  }

  /* ---------- what a binding means ---------- */

  /** A receipt's arguments bind like the call's exactly when they coerce to a dict that agrees with it. */
  lemma BindingMeansCoercion(args: Json, members: seq<Member>)
    requires IsTree(args) && IsTree(JObj(members))
    ensures BindingOf(args) == Some(ArgsBinding(members)) <==> CoerceTo(args, members)
  {
    hide Agree, ArgsBinding, IsTree, KeysAscend, Coerced, IsNumbered, NormalizeMembers, Print;
    if Coerced(args).Some? {
      CoercedIsTree(args);
      BindingMeansAgreement(Coerced(args).value, members);
      if IsNumbered(args) {
        PrintedAsIs(Coerced(args).value, members);
      }
    }
  }

  /** Members printed in the order they stand bind like a dict exactly when they agree and stand in text order. */
  lemma PrintedAsIs(c: seq<Member>, members: seq<Member>)
    requires IsTree(JObj(c)) && IsTree(JObj(members))
    ensures Print(JObj(NormalizeMembers(c))) == ArgsBinding(members)
       <==> Agree(JObj(c), JObj(members)) && KeysAscend(NormalizeMembers(c))
  {
    hide Agree, IsTree, KeysAscend, NormalizeMembers, Print, SortKeys, SortByKey, Normalize, IsNormal;
    var stood, normal := JObj(NormalizeMembers(c)), Normalize(JObj(members));
    NormalizeIsNormal(JObj(members));
    NormalIsFixed(normal);
    NormalAscends(members);
    AgreeMeansSameNormalForm(JObj(c), JObj(members));
    NormalizeDict(c);
    NormalizeDict(members);
    if KeysAscend(stood.members) {
      SortKeepsSorted(stood.members);
    }
    if Print(stood) == Print(normal) {
      PrintInjective(stood, normal);
    }
  }

  lemma NormalizeDict(c: seq<Member>)
    ensures Normalize(JObj(c)) == JObj(SortByKey(NormalizeMembers(c)))
  {
  }

  lemma NormalAscends(members: seq<Member>)
    requires IsNormal(Normalize(JObj(members)))
    ensures Normalize(JObj(members)).JObj? && KeysAscend(Normalize(JObj(members)).members)
  {
  }

  /** Objects and calls normalize to one tree; anything else that binds does not. */
  lemma OneTreeIffObject(args: Json, members: seq<Member>)
    requires IsTree(args) && IsTree(JObj(members)) && CoerceTo(args, members)
    ensures Normalize(args) == Normalize(JObj(members)) <==> args.JObj?
  {
    hide Agree, IsTree, Normalize, ItemsOf, SortByNumber, IsNumbered, NormalizeMembers;
    NormalizeKeepsKind(args);
    NormalizeKeepsKind(JObj(members));
    if args.JObj? {
      assert JObj(Coerced(args).value) == args;
      AgreeMeansSameNormalForm(args, JObj(members));
    }
  }

  /** An empty list binds like an empty dict, and a pair like the dict of it. */
  lemma ListsBind(key: string, value: string)
    ensures CoerceTo(JArr([]), []) && CoerceTo(JStr(""), [])
    ensures CoerceTo(JArr([JArr([JStr(key), JStr(value)])]), [Member(key, JStr(value))])
    ensures CoerceTo(JArr([JArr([JBool(true), JStr(value)])]), [Member("true", JStr(value))])
  {
    hide CoerceTo;
    NothingCoerces();
    PairCoerces(JStr(key), value);
    PairCoerces(JBool(true), value);
  }

  lemma NothingCoerces()
    ensures CoerceTo(JArr([]), []) && CoerceTo(JStr(""), [])
  {
  }

  lemma PairCoerces(key: Json, value: string)
    requires key.JStr? || key.JBool?
    ensures CoerceTo(JArr([JArr([key, JStr(value)])]), [Member(KeyText(key), JStr(value))])
  {
    var pair, item := JArr([key, JStr(value)]), Item(key, JStr(value));
    OnePair(pair, item);
    var shown := [Member(KeyText(key), JStr(value))];
    assert Coerced(JArr([pair])) == Some(shown) by {
      hide ItemsOf, KeyText;
      OneSorted(item);
      assert Shown([item]) == shown;
    }
    OneMember(shown[0]);
  }

  lemma OneMember(m: Member)
    requires m.value.JStr?
    ensures Agree(JObj([m]), JObj([m])) && KeysAscend(NormalizeMembers([m]))
  {
    assert [m][1..] == [] && Get([m], m.key) == m.value;
  }

  lemma OnePair(pair: Json, item: Item)
    requires PairOf(pair) == Some(item)
    ensures ItemsOf([pair]) == Some([item])
  {
    hide PairOf;
    assert [pair][..0] == [];
    assert ItemsOf([]) == Some([]);
  }

  lemma OneSorted(item: Item)
    ensures AllNumbers([item]) ==> SortByNumber([item]) == [item]
  {
    assert [item][1..] == [];
  }
}
