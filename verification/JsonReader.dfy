/**
 A reader of JSON texts as RFC 8259 defines them (sections 3 to 7; compact texts, numbers that are
 integers), and the proof that it reads back what the canonical printer prints.
 */
module JsonReader {
  import opened Outcomes
  import opened PyText
  import opened CanonicalJson

  /** What was read, and the text after it. */
  datatype Read<+T> = Read(value: T, rest: string)

  /* ---------- strings (section 7) ---------- */

  function HexValue(c: char): Option<nat> {
    if '0' <= c <= '9' then Some(c as nat - '0' as nat)
    else if 'a' <= c <= 'f' then Some(c as nat - 'a' as nat + 10)
    else if 'A' <= c <= 'F' then Some(c as nat - 'A' as nat + 10)
    else None
  }

  /** The character of four hexadecimal digits; None for one half of a surrogate pair. */
  function HexChar(t: string): Option<char>
    requires |t| >= 4
  {
    var a, b, c, d := HexValue(t[0]), HexValue(t[1]), HexValue(t[2]), HexValue(t[3]);
    if a.None? || b.None? || c.None? || d.None? then None
    else
      var code := ((a.value * 16 + b.value) * 16 + c.value) * 16 + d.value;
      if code < 0xD800 || 0xE000 <= code < 0x10000 then Some(code as char) else None
  }

  /** The character that a backslash and this letter stand for. */
  function Escaped(c: char): Option<char> {
    if c in {'"', '\\', '/'} then Some(c)
    else if c == 'b' then Some('\U{8}')
    else if c == 'f' then Some('\U{C}')
    else if c == 'n' then Some('\U{A}')
    else if c == 'r' then Some('\U{D}')
    else if c == 't' then Some('\U{9}')
    else None
  }

  /** One character of a string, written plainly or escaped; None where none may stand. */
  function ReadChar(t: string): (r: Option<Read<char>>)
    ensures r.Some? ==> |r.value.rest| < |t|
  {
    if t == "" || t[0] < '\U{20}' || t[0] == '"' then None
    else if t[0] != '\\' then Some(Read(t[0], t[1..]))
    else if |t| >= 6 && t[1] == 'u' then
      (match HexChar(t[2..6]) case Some(c) => Some(Read(c, t[6..])) case None => None)
    else if |t| >= 2 then
      (match Escaped(t[1]) case Some(c) => Some(Read(c, t[2..])) case None => None)
    else None
  }

  /** The characters up to the closing quotation mark. */
  function ReadChars(t: string): (r: Option<Read<string>>)
    ensures r.Some? ==> |r.value.rest| < |t|
    decreases |t|
  {
    if t != "" && t[0] == '"' then Some(Read("", t[1..]))
    else
      match ReadChar(t)
      case None => None
      case Some(Read(c, rest)) =>
        match ReadChars(rest)
        case None => None
        case Some(Read(s, rest')) => Some(Read([c] + s, rest'))
  }

  /* ---------- numbers (section 6) ---------- */

  function DigitRun(t: string): (n: nat)
    ensures n <= |t| && AllDigits(t[..n]) && (n < |t| ==> !IsDigit(t[n]))
  {
    if t == "" || !IsDigit(t[0]) then 0
    else
      assert t == [t[0]] + t[1..];
      var n := 1 + DigitRun(t[1..]);
      assert t[..n] == [t[0]] + t[1..][..n - 1];
      n
  }

  /** A whole number without leading zeros; a fraction or an exponent is not read. */
  function ReadNat(t: string): (r: Option<Read<nat>>)
    ensures r.Some? ==> |r.value.rest| < |t|
  {
    var n := DigitRun(t);
    if n == 0 || (n > 1 && t[0] == '0') || (n < |t| && t[n] in {'.', 'e', 'E'}) then None
    else Some(Read(NatValue(t[..n]), t[n..]))
  }

  function ReadInt(t: string): (r: Option<Read<int>>)
    ensures r.Some? ==> |r.value.rest| < |t|
  {
    if "-" <= t then
      (match ReadNat(t[1..])
       case Some(Read(n, rest)) => (var m: int := n; Some(Read(-m, rest)))
       case None => None)
    else
      match ReadNat(t)
      case Some(Read(n, rest)) => (var m: int := n; Some(Read(m, rest)))
      case None => None
  }

  /* ---------- values (sections 3 to 5) ---------- */

  function ReadValue(t: string): (r: Option<Read<Json>>)
    ensures r.Some? ==> |r.value.rest| < |t|
    decreases |t|, 0
  {
    if "null" <= t then Some(Read(JNull, t[4..]))
    else if "true" <= t then Some(Read(JBool(true), t[4..]))
    else if "false" <= t then Some(Read(JBool(false), t[5..]))
    else if "\"" <= t then
      (match ReadChars(t[1..]) case Some(Read(s, rest)) => Some(Read(JStr(s), rest)) case None => None)
    else if "[]" <= t then Some(Read(JArr([]), t[2..]))
    else if "{}" <= t then Some(Read(JObj([]), t[2..]))
    else if "[" <= t then
      (match ReadItems(t[1..]) case Some(Read(items, rest)) => Some(Read(JArr(items), rest)) case None => None)
    else if "{" <= t then
      (match ReadMembers(t[1..]) case Some(Read(members, rest)) => Some(Read(JObj(members), rest)) case None => None)
    else
      match ReadInt(t) case Some(Read(n, rest)) => Some(Read(JInt(n), rest)) case None => None
  }

  /** Values parted by commas, up to the closing bracket. */
  function ReadItems(t: string): (r: Option<Read<seq<Json>>>)
    ensures r.Some? ==> |r.value.rest| < |t|
    decreases |t|, 1
  {
    match ReadValue(t)
    case None => None
    case Some(Read(v, rest)) =>
      if "]" <= rest then Some(Read([v], rest[1..]))
      else if "," <= rest then
        (match ReadItems(rest[1..]) case Some(Read(vs, rest')) => Some(Read([v] + vs, rest')) case None => None)
      else None
  }

  /** A name, a colon and a value. */
  function ReadMember(t: string): (r: Option<Read<Member>>)
    ensures r.Some? ==> |r.value.rest| < |t|
    decreases |t|, 1
  {
    if !("\"" <= t) then None
    else
      match ReadChars(t[1..])
      case None => None
      case Some(Read(key, rest)) =>
        if !(":" <= rest) then None
        else
          match ReadValue(rest[1..])
          case None => None
          case Some(Read(v, rest')) => Some(Read(Member(key, v), rest'))
  }

  /** Members parted by commas, up to the closing brace. */
  function ReadMembers(t: string): (r: Option<Read<seq<Member>>>)
    ensures r.Some? ==> |r.value.rest| < |t|
    decreases |t|, 2
  {
    match ReadMember(t)
    case None => None
    case Some(Read(m, rest)) =>
      if "}" <= rest then Some(Read([m], rest[1..]))
      else if "," <= rest then
        (match ReadMembers(rest[1..]) case Some(Read(ms, rest')) => Some(Read([m] + ms, rest')) case None => None)
      else None
  }

  /* ---------- reading what is printed ---------- */

  /** What may follow a value inside a printed tree. */
  predicate Ends(x: string) {
    x == "" || x[0] in {',', ']', '}'}
  }

  lemma OneEscape(c: char, x: string)
    ensures ReadChar(EscapeChar(c) + x) == Some(Read(c, x))
    ensures EscapeChar(c) != "" && EscapeChar(c)[0] != '"'
  {
    var e := EscapeChar(c);
    var t := e + x;
    assert t[|e|..] == x;
    assert forall k | 0 <= k < |e| :: t[k] == e[k];
    if |e| == 6 {
      HexReads(c as nat / 16);
      HexReads(c as nat % 16);
      assert t[2..6] == ['0', '0', HexDigit(c as nat / 16), HexDigit(c as nat % 16)];
      assert HexValue('0') == Some(0);
    }
  }

  lemma HexReads(d: nat)
    requires d < 16
    ensures HexValue(HexDigit(d)) == Some(d)
  {
  }

  lemma {:induction false} EscapedText(s: string, x: string)
    ensures ReadChars(EscapeText(s) + ("\"" + x)) == Some(Read(s, x))
  {
    hide EscapeChar, ReadChar;
    if s == "" {
      assert EscapeText(s) + ("\"" + x) == "\"" + x;
      assert ("\"" + x)[1..] == x;
    } else {
      var rest := EscapeText(s[1..]) + ("\"" + x);
      assert EscapeText(s) + ("\"" + x) == EscapeChar(s[0]) + rest;
      OneEscape(s[0], rest);
      assert (EscapeChar(s[0]) + rest)[0] == EscapeChar(s[0])[0];
      EscapedText(s[1..], x);
      assert [s[0]] + s[1..] == s;
    }
  }

  lemma StringReads(s: string, x: string)
    ensures ReadValue(PrintString(s) + x) == Some(Read(JStr(s), x))
    ensures (PrintString(s) + x)[..1] == "\"" && ReadChars((PrintString(s) + x)[1..]) == Some(Read(s, x))
  {
    hide EscapeText, ReadChars;
    EscapedText(s, x);
    var t := PrintString(s) + x;
    assert t == "\"" + (EscapeText(s) + ("\"" + x));
    assert t[1..] == EscapeText(s) + ("\"" + x);
    assert t[0] == '"' && "null"[0] == 'n' && "true"[0] == 't' && "false"[0] == 'f';
  }

  lemma {:induction false} NoLeadingZero(n: nat)
    ensures n > 0 ==> Digits(n)[0] != '0'
    ensures |Digits(n)| == 1 <==> n < 10
  {
    if n >= 10 {
      NoLeadingZero(n / 10);
    }
  }

  lemma {:induction false} DigitRunIs(a: string, x: string)
    requires AllDigits(a) && (x == "" || !IsDigit(x[0]))
    ensures DigitRun(a + x) == |a|
  {
    if a == "" {
      assert a + x == x;
    } else {
      assert (a + x)[1..] == a[1..] + x;
      DigitRunIs(a[1..], x);
    }
  }

  lemma NatReads(n: nat, x: string)
    requires Ends(x)
    ensures ReadNat(Digits(n) + x) == Some(Read(n, x))
  {
    hide Digits, DigitRun;
    var t := Digits(n) + x;
    NatValueOfDigits(n);
    NoLeadingZero(n);
    DigitRunIs(Digits(n), x);
    assert t[..|Digits(n)|] == Digits(n) && t[|Digits(n)|..] == x;
    assert t[0] == Digits(n)[0];
  }

  lemma IntReads(n: int, x: string)
    requires Ends(x)
    ensures ReadInt(IntText(n) + x) == Some(Read(n, x))
    ensures var t := IntText(n) + x; t != "" && (IsDigit(t[0]) || t[0] == '-')
  {
    hide Digits, ReadNat;
    var t := IntText(n) + x;
    if n < 0 {
      assert t == "-" + (Digits(-n) + x);
      assert t[1..] == Digits(-n) + x;
      NatReads(-n, x);
    } else {
      NatReads(n, x);
      assert t[0] == Digits(n)[0];
    }
  }

  /** What a number begins with begins nothing else. */
  lemma NumberIsRead(t: string)
    requires t != "" && (IsDigit(t[0]) || t[0] == '-')
    ensures ReadValue(t) == match ReadInt(t) case Some(Read(n, rest)) => Some(Read(JInt(n), rest)) case None => None
  {
    assert "null"[0] == 'n' && "true"[0] == 't' && "false"[0] == 'f' && "\""[0] == '"';
    assert "[]"[0] == '[' && "{}"[0] == '{' && "["[0] == '[' && "{"[0] == '{';
    hide ReadInt;
  }

  lemma BracketIsRead(t: string)
    requires t != "" && t[0] != ']'
    ensures ReadValue("[" + t)
         == match ReadItems(t) case Some(Read(items, rest)) => Some(Read(JArr(items), rest)) case None => None
  {
    hide ReadItems, ReadMembers, ReadInt, ReadChars;
    var s := "[" + t;
    assert s[0] == '[' && s[1] == t[0] && s[1..] == t;
    assert "null"[0] == 'n' && "true"[0] == 't' && "false"[0] == 'f' && "[]"[1] == ']' && "{}"[0] == '{';
  }

  lemma BraceIsRead(t: string)
    requires t != "" && t[0] != '}'
    ensures ReadValue("{" + t)
         == match ReadMembers(t) case Some(Read(members, rest)) => Some(Read(JObj(members), rest)) case None => None
  {
    hide ReadItems, ReadMembers, ReadInt, ReadChars;
    var s := "{" + t;
    assert s[0] == '{' && s[1] == t[0] && s[1..] == t;
    assert "null"[0] == 'n' && "true"[0] == 't' && "false"[0] == 'f' && "[]"[0] == '[' && "{}"[1] == '}';
  }

  lemma WordReads(v: Json, x: string)
    requires v in {JNull, JBool(true), JBool(false), JArr([]), JObj([])}
    ensures ReadValue(Print(v) + x) == Some(Read(v, x))
  {
    var p := Print(v);
    var t := p + x;
    assert "[" + PrintItems([]) + "]" == "[]" && "{" + PrintMembers([]) + "}" == "{}";
    assert p in {"null", "true", "false", "[]", "{}"};
    assert t[..|p|] == p && t[|p|..] == x;
    assert t[0] == p[0];
  }

  /** Nothing that is printed begins with what closes a list or a dict. */
  lemma PrintOpens(v: Json)
    ensures Print(v) != "" && Print(v)[0] !in {',', ']', '}'}
  {
  }

  /** The printed text of a tree, followed by what may follow it, reads as the tree. */
  lemma {:induction false} PrintedReads(v: Json, x: string)
    requires Ends(x)
    ensures ReadValue(Print(v) + x) == Some(Read(v, x))
    decreases v, 1
  {
    hide ReadValue, PrintItems, PrintMembers, IntText, PrintString;
    match v
    case JNull => WordReads(v, x);
    case JBool(b) => WordReads(v, x);
    case JInt(n) =>
      IntReads(n, x);
      NumberIsRead(IntText(n) + x);
    case JStr(s) => StringReads(s, x);
    case JArr(items) =>
      if items == [] {
        WordReads(v, x);
      } else {
        var t := PrintItems(items) + ("]" + x);
        assert Print(v) + x == "[" + t;
        ItemsUnfold(items, x);
        ItemsRead(items, x);
        BracketIsRead(t);
      }
    case JObj(members) =>
      if members == [] {
        WordReads(v, x);
      } else {
        var t := PrintMembers(members) + ("}" + x);
        assert Print(v) + x == "{" + t;
        MembersUnfold(members, x);
        MembersRead(members, x);
        BraceIsRead(t);
      }
  }

  lemma ItemsUnfold(items: seq<Json>, x: string)
    requires items != []
    ensures
      var t, p := PrintItems(items) + ("]" + x), Print(items[0]);
      && (|items| == 1 ==> t == p + ("]" + x))
      && (|items| > 1 ==> t == p + ("," + (PrintItems(items[1..]) + ("]" + x))))
      && t != "" && t[0] != ']'
  {
    hide Print;
    PrintOpens(items[0]);
    var p, tail := Print(items[0]), PrintItems(items[1..]);
    if |items| == 1 {
      assert PrintItems(items) == p;
    } else {
      assert PrintItems(items) == p + ("," + tail);
      Regrouped(p, "," + tail, "]" + x);
      Regrouped(",", tail, "]" + x);
    }
  }

  lemma Regrouped(a: string, b: string, c: string)
    ensures (a + b) + c == a + (b + c)
    ensures a != "" ==> (a + b)[0] == a[0]
  {
  }

  lemma {:induction false} ItemsRead(items: seq<Json>, x: string)
    requires items != []
    ensures ReadItems(PrintItems(items) + ("]" + x)) == Some(Read(items, x))
    decreases items, 0
  {
    hide Print, PrintItems, ReadValue;
    ItemsUnfold(items, x);
    if |items| == 1 {
      PrintedReads(items[0], "]" + x);
      assert ("]" + x)[1..] == x && items == [items[0]];
    } else {
      var rest := PrintItems(items[1..]) + ("]" + x);
      PrintedReads(items[0], "," + rest);
      assert ("," + rest)[1..] == rest;
      ItemsRead(items[1..], x);
      assert items == [items[0]] + items[1..];
    }
  }

  lemma MembersUnfold(members: seq<Member>, x: string)
    requires members != []
    ensures
      var t, p := PrintMembers(members) + ("}" + x), PrintMember(members[0]);
      && (|members| == 1 ==> t == p + ("}" + x))
      && (|members| > 1 ==> t == p + ("," + (PrintMembers(members[1..]) + ("}" + x))))
      && t != "" && t[0] == '"'
  {
    hide PrintMember;
    MemberOpens(members[0]);
    var p, tail := PrintMember(members[0]), PrintMembers(members[1..]);
    if |members| == 1 {
      assert PrintMembers(members) == p;
    } else {
      assert PrintMembers(members) == p + ("," + tail);
      Regrouped(p, "," + tail, "}" + x);
      Regrouped(",", tail, "}" + x);
    }
  }

  lemma MemberOpens(m: Member)
    ensures PrintMember(m) != "" && PrintMember(m)[0] == '"'
  {
    hide Print, EscapeText;
  }

  lemma {:induction false} MemberReads(m: Member, x: string)
    requires Ends(x)
    ensures ReadMember(PrintMember(m) + x) == Some(Read(m, x))
    decreases m, 0
  {
    hide PrintString, Print, ReadValue, ReadChars;
    var t, after := PrintMember(m) + x, ":" + (Print(m.value) + x);
    assert t == PrintString(m.key) + after;
    StringReads(m.key, after);
    assert "\"" <= t;
    assert after[1..] == Print(m.value) + x;
    PrintedReads(m.value, x);
  }

  lemma {:induction false} MembersRead(members: seq<Member>, x: string)
    requires members != []
    ensures ReadMembers(PrintMembers(members) + ("}" + x)) == Some(Read(members, x))
    decreases members, 0
  {
    hide PrintMember, PrintMembers, ReadMember;
    MembersUnfold(members, x);
    if |members| == 1 {
      MemberReads(members[0], "}" + x);
      assert ("}" + x)[1..] == x && members == [members[0]];
    } else {
      var rest := PrintMembers(members[1..]) + ("}" + x);
      MemberReads(members[0], "," + rest);
      assert ("," + rest)[1..] == rest;
      MembersRead(members[1..], x);
      assert members == [members[0]] + members[1..];
    }
  }

  /** The round trip: a printed text reads as its tree, to the end. */
  lemma PrintReadsBack(v: Json)
    ensures ReadValue(Print(v)) == Some(Read(v, ""))
  {
    hide ReadValue, Print;
    PrintedReads(v, "");
    assert Print(v) + "" == Print(v);
  }
}
