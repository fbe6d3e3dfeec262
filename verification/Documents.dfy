/**
 Document numbers: the text form checkpoints store, the number-aware maximum over texts, and
 the order the source database sorts by.
 */
module Documents {
  import opened Outcomes
  import opened PyText
  import opened CanonicalJson

  /** A document number as its source column holds it: an integer or an opaque code. */
  datatype Doc = Num(n: int) | Code(s: string)

  function DocText(d: Doc): string {
    if d.Num? then IntText(d.n) else d.s
  }

  /** A code is non-empty and does not read as an integer. */
  predicate IsDoc(d: Doc) {
    if d.Num? then |Digits(if d.n < 0 then -d.n else d.n)| <= INT_MAX_STR_DIGITS
    else d.s != "" && ParseInt(d.s).None?
  }

  /** How the database reads a text parameter against the document column. */
  function DocOf(text: string): Doc {
    if ParseInt(text).Some? then Num(ParseInt(text).value) else Code(text)
  }

  predicate SameKind(a: Doc, b: Doc) {
    a.Num? <==> b.Num?
  }

  predicate DocLess(a: Doc, b: Doc) {
    || (a.Num? && b.Num? && a.n < b.n)
    || (a.Code? && b.Code? && TextLess(a.s, b.s))
  }

  function MaxDoc(a: Doc, b: Doc): Doc {
    if DocLess(a, b) then b else a
  }

  /** The number-aware maximum: numeric when both texts are integers, else lexical. */
  function MaxDocument(a: Option<string>, b: Option<string>): (r: Option<string>)
    ensures (r == a || r == b) && (r.None? <==> a.None? && b.None?)
  {
    if a.None? then b
    else if b.None? then a
    else
      var x, y := ParseInt(a.value), ParseInt(b.value);
      if x.Some? && y.Some? then (if x.value >= y.value then a else b)
      else if TextLess(a.value, b.value) then b else a
  }

  lemma DocTextRoundTrips(d: Doc)
    requires IsDoc(d)
    ensures DocOf(DocText(d)) == d && DocText(d) != ""
  {
    if d.Num? {
      ParseIntText(d.n);
    }
  }

  lemma DocOrderTotal(a: Doc, b: Doc)
    requires SameKind(a, b)
    ensures a == b || DocLess(a, b) || DocLess(b, a)
    ensures !(DocLess(a, b) && DocLess(b, a)) && !DocLess(a, a)
  {
    if a.Code? {
      TextLessTotal(a.s, b.s);
      TextLessTotal(a.s, a.s);
    }
  }

  lemma DocOrderTransitive(a: Doc, b: Doc, c: Doc)
    requires DocLess(a, b) && DocLess(b, c)
    ensures DocLess(a, c)
  {
    if a.Code? {
      TextLessTransitive(a.s, b.s, c.s);
    }
  }

  /** On one kind of document the maximum over texts is the maximum in the database's order. */
  lemma MaxDocumentIsMaximum(a: Doc, b: Doc)
    requires IsDoc(a) && IsDoc(b) && SameKind(a, b)
    ensures MaxDocument(Some(DocText(a)), Some(DocText(b))) == Some(DocText(MaxDoc(a, b)))
  {
    DocTextRoundTrips(a);
    DocTextRoundTrips(b);
    if a.Code? {
      TextLessTotal(a.s, b.s);
    }
  }

  /**
   The second text wins exactly when it is the larger: as a number when both are numbers, else as a
   text. Texts of one number are a tie, and the first stays.
   */
  lemma SecondWinsIff(a: string, b: string)
    requires a != b
    ensures MaxDocument(Some(a), Some(b)) == Some(b)
       <==> if ParseInt(a).Some? && ParseInt(b).Some? then ParseInt(a).value < ParseInt(b).value else TextLess(a, b)
    ensures MaxDocument(Some(a), Some(b)) in {Some(a), Some(b)}
  {
  }

  /** The first text is kept against the second. */
  predicate Beats(a: string, b: string) {
    MaxDocument(Some(a), Some(b)) == Some(a)
  }

  /**
   Across kinds: two numbers and a code go in a circle, each beaten by the next, exactly when the
   code stands between their texts the wrong way round; and only then is none of the three a maximum.
   */
  lemma MixedKindsCycleIff(x: int, y: int, z: string)
    requires x < y && IsDoc(Num(x)) && IsDoc(Num(y)) && IsDoc(Code(z))
    ensures
      var s, t := IntText(x), IntText(y);
      && (Beats(t, s) && Beats(z, t) && Beats(s, z) <==> TextLess(t, z) && TextLess(z, s))
      && ((Beats(s, t) && Beats(s, z)) || (Beats(t, s) && Beats(t, z)) || (Beats(z, s) && Beats(z, t))
          <==> !(TextLess(t, z) && TextLess(z, s)))
  {
    hide ParseInt;
    ParseIntText(x);
    ParseIntText(y);
    TextLessTotal(IntText(x), z);
    TextLessTotal(IntText(y), z);
    if TextLess(IntText(y), z) && TextLess(z, IntText(x)) {
      TextLessTransitive(IntText(y), z, IntText(x));
    }
  }

  /** "10", "9" and "1a" are such a circle. */
  lemma MixedKindsCycle()
    ensures Beats("10", "9") && Beats("9", "1a") && Beats("1a", "10")
  {
    hide ParseInt;
    TextsParse();
    DigitTexts();
    assert "9"[0] == '9' && "1a"[0] == "10"[0] == '1';
    assert "1a"[1..] == "a" && "10"[1..] == "0";
    assert TextLess("0", "a");
    MixedKindsCycleIff(9, 10, "1a");
  }

  lemma TextsParse()
    ensures ParseInt("10") == Some(10) && ParseInt("9") == Some(9) && ParseInt("1a") == None
  {
    hide ParseInt;
    DigitTexts();
    ParseIntText(10);
    ParseIntText(9);
    LetterEndsNoInt("1a");
  }

  lemma DigitTexts()
    ensures Digits(10) == "10" && Digits(9) == "9"
  {
    assert Digits(10) == Digits(1) + [DigitChar(0)];
  }

  lemma LetterEndsNoInt(s: string)
    requires |s| == 2 && IsDigit(s[0]) && 'a' <= s[1] <= 'z'
    ensures ParseInt(s) == None
  {
    StripKeepsTrimmed(s);
  }
}
