/**
 Unpadded numbers in a text column: the checkpoint is their numeric maximum, the database compares
 their texts. Exactly when a scan delivers a staged number again, and when it misses a new one.
 */
module TextNumbers {
  import opened PyText
  import opened CanonicalJson

  /** The number its first w digits make. */
  function Lead(n: nat, w: nat): nat
    requires w > 0
  {
    if |Digits(n)| <= w then n else Lead(n / 10, w)
  }

  lemma {:induction false} LeadIsPrefix(n: nat, w: nat)
    requires 0 < w <= |Digits(n)|
    ensures Digits(Lead(n, w)) == Digits(n)[..w]
  {
    if w == |Digits(n)| {
      assert Digits(n)[..w] == Digits(n);
    } else {
      assert n >= 10;
      LeadIsPrefix(n / 10, w);
      assert Digits(n)[..w] == Digits(n / 10)[..w];
    }
  }

  lemma {:induction false} TextLessEnds(s: string, t: string, c: char, d: char)
    requires |s| == |t|
    ensures TextLess(s + [c], t + [d]) <==> TextLess(s, t) || (s == t && c < d)
  {
    if s == "" {
      assert s + [c] == [c] && t + [d] == [d];
      assert [c][1..] == "" && [d][1..] == "";
    } else {
      assert (s + [c])[1..] == s[1..] + [c] && (t + [d])[1..] == t[1..] + [d];
      TextLessEnds(s[1..], t[1..], c, d);
      assert s == [s[0]] + s[1..] && t == [t[0]] + t[1..];
    }
  }

  /** Texts of one width are ordered like their numbers. */
  lemma {:induction false} SameWidth(a: nat, b: nat)
    requires |Digits(a)| == |Digits(b)|
    ensures TextLess(Digits(a), Digits(b)) <==> a < b
  {
    if a < 10 {
      TextLessEnds("", "", DigitChar(a), DigitChar(b));
      assert "" + [DigitChar(a)] == Digits(a) && "" + [DigitChar(b)] == Digits(b);
    } else {
      SameWidth(a / 10, b / 10);
      TextLessEnds(Digits(a / 10), Digits(b / 10), DigitChar(a % 10), DigitChar(b % 10));
      NatValueOfDigits(a / 10);
      NatValueOfDigits(b / 10);
    }
  }

  /** Against a text at least as long, only the leading part counts; a proper prefix comes first. */
  lemma {:induction false} TextLessPrefix(s: string, t: string)
    requires |s| <= |t|
    ensures TextLess(s, t) <==> TextLess(s, t[..|s|]) || (s == t[..|s|] && |s| < |t|)
    ensures TextLess(t, s) <==> TextLess(t[..|s|], s)
  {
    if s != "" {
      TextLessPrefix(s[1..], t[1..]);
      assert t[..|s|][1..] == t[1..][..|s| - 1];
      assert s == [s[0]] + s[1..] && t[..|s|] == [t[0]] + t[1..][..|s| - 1];
    }
  }

  /** Digits grow with the number. */
  lemma {:induction false} WidthGrows(a: nat, b: nat)
    requires a <= b
    ensures |Digits(a)| <= |Digits(b)|
  {
    if b >= 10 && a >= 10 {
      WidthGrows(a / 10, b / 10);
    }
  }

  /** A number above the checkpoint is missed exactly when it is longer and begins below it. */
  lemma MissedIff(mark: nat, n: nat)
    requires mark < n
    ensures !TextLess(Digits(mark), Digits(n)) <==> |Digits(mark)| < |Digits(n)| && Lead(n, |Digits(mark)|) < mark
  {
    var w := |Digits(mark)|;
    WidthGrows(mark, n);
    LeadIsPrefix(n, w);
    TextLessPrefix(Digits(mark), Digits(n));
    SameWidth(mark, Lead(n, w));
    NatValueOfDigits(mark);
    NatValueOfDigits(Lead(n, w));
  }

  /** A staged number is delivered again exactly when it is shorter and the checkpoint begins below it. */
  lemma AgainIff(mark: nat, n: nat)
    requires n <= mark
    ensures TextLess(Digits(mark), Digits(n)) <==> |Digits(n)| < |Digits(mark)| && Lead(mark, |Digits(n)|) < n
  {
    var w := |Digits(n)|;
    WidthGrows(n, mark);
    LeadIsPrefix(mark, w);
    TextLessPrefix(Digits(n), Digits(mark));
    SameWidth(Lead(mark, w), n);
  }

  /** What a scan above the checkpoint delivers of these numbers. */
  function Scanned(numbers: set<nat>, mark: nat): set<nat> {
    set n | n in numbers && TextLess(Digits(mark), Digits(n))
  }

  /** No staged number begins above the checkpoint, no new one below it. */
  predicate LeadsAgree(staged: set<nat>, added: set<nat>, mark: nat) {
    && (forall n | n in staged && |Digits(n)| < |Digits(mark)| :: n <= Lead(mark, |Digits(n)|))
    && (forall n | n in added && |Digits(mark)| < |Digits(n)| :: mark <= Lead(n, |Digits(mark)|))
  }

  /**
   Over numbers that were only added above the checkpoint, a scan delivers each new one and no
   staged one exactly when the leads agree; numbers padded to one width always do.
   */
  lemma TextScanIsExactIff(staged: set<nat>, added: set<nat>, mark: nat)
    requires (forall n | n in staged :: n <= mark) && (forall n | n in added :: mark < n)
    ensures Scanned(staged + added, mark) == added <==> LeadsAgree(staged, added, mark)
    ensures (forall n | n in staged + added :: |Digits(n)| == |Digits(mark)|) ==> LeadsAgree(staged, added, mark)
  {
    hide TextLess, Lead, Digits;
    forall n | n in staged
      ensures TextLess(Digits(mark), Digits(n)) <==> |Digits(n)| < |Digits(mark)| && Lead(mark, |Digits(n)|) < n
    {
      AgainIff(mark, n);
    }
    forall n | n in added
      ensures !TextLess(Digits(mark), Digits(n)) <==> |Digits(mark)| < |Digits(n)| && Lead(n, |Digits(mark)|) < mark
    {
      MissedIff(mark, n);
    }
    var scanned := Scanned(staged + added, mark);
    if scanned == added {
      forall n | n in staged ensures !TextLess(Digits(mark), Digits(n)) {
        assert n in scanned <==> TextLess(Digits(mark), Digits(n));
      }
      forall n | n in added ensures TextLess(Digits(mark), Digits(n)) {
        assert n in scanned <==> TextLess(Digits(mark), Digits(n));
      }
    }
  }

  /** After 9 and 10 are staged, 9 comes again; after 20, 100 is never delivered. */
  lemma NineComesAgain()
    ensures Scanned({9, 10}, 10) == {9}
    ensures Scanned({20, 100}, 20) == {}
  {
    SmallTexts();
    AgainIff(10, 9);
    AgainIff(10, 10);
    AgainIff(20, 20);
    MissedIff(20, 100);
  }

  lemma SmallTexts()
    ensures |Digits(9)| == 1 && |Digits(10)| == |Digits(20)| == 2 && |Digits(100)| == 3
    ensures Lead(10, 1) == 1 && Lead(100, 2) == 10
  {
    assert 10 / 10 == 1 && 20 / 10 == 2 && 100 / 10 == 10;
    assert |Digits(1)| == 1 && |Digits(2)| == 1;
    assert Lead(1, 1) == 1;
    assert Lead(10, 2) == 10;
  }
}
