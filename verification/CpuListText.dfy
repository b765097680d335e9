/** What the CPU-list parser makes of numbers as they are written: decimal
    spellings, with or without leading zeros, and plain ranges of them. */
module CpuListText {
  import opened CTypes
  import opened CpuList

  const DIGITS: string := "0123456789"

  /** The decimal spelling of n. */
  function Text(n: nat): (t: string)
    ensures t != ""
  {
    if n < 10 then [DIGITS[n]] else Text(n / 10) + [DIGITS[n % 10]]
  }

  function Zeros(k: nat): (z: string)
    ensures |z| == k
  {
    seq(k, _ => '0')
  }

  lemma DigitOf(v: nat)
    requires v < 10
    ensures Digit(DIGITS[v]) && DigitValue(DIGITS[v]) == v
  {
  }

  lemma DigitIs(c: char)
    requires Digit(c)
    ensures c == DIGITS[DigitValue(c)]
  {
  }

  lemma {:induction false} SpellingHasValue(n: nat, k: nat)
    ensures Digits(Zeros(k) + Text(n)) && Value(Zeros(k) + Text(n)) == n
    decreases n
  {
    var d := Zeros(k) + Text(n);
    DigitOf(n % 10);
    if n < 10 {
      ZerosHaveNoValue(k);
      assert d[..|d| - 1] == Zeros(k);
    } else {
      SpellingHasValue(n / 10, k);
      assert d[..|d| - 1] == Zeros(k) + Text(n / 10);
    }
  }

  lemma {:induction false} ZerosHaveNoValue(k: nat)
    ensures Value(Zeros(k)) == 0
    decreases k
  {
    DigitOf(0);
    if k > 0 {
      ZerosHaveNoValue(k - 1);
      assert Zeros(k)[..k - 1] == Zeros(k - 1);
    }
  }

  lemma SpelledFurther(n: nat, v: nat)
    requires v < 10
    ensures Text(10 * n + v) == if n == 0 then [DIGITS[v]] else Text(n) + [DIGITS[v]]
  {
    assert (10 * n + v) / 10 == n && (10 * n + v) % 10 == v;
  }

  lemma AfterZeros(k: nat, t: string, c: char)
    ensures Zeros(k) + t + [c] == Zeros(k) + (t + [c])
    ensures Zeros(k) + "0" + [c] == Zeros(k + 1) + [c]
  {
    assert Zeros(k) + "0" == Zeros(k + 1);
  }

  /** A string of digits is the spelling of its value behind leading zeros. */
  lemma {:induction false} ValueIsSpelled(d: string) returns (k: nat)
    requires Digits(d)
    ensures d == Zeros(k) + Text(Value(d))
    decreases |d|
  {
    hide Text, Zeros, DigitValue, Digit;
    var m := |d| - 1;
    var front, c := d[..m], d[m];
    DigitIs(c);
    assert d == front + [c];
    SpelledFurther(Value(front), DigitValue(c));
    if front == "" {
      k := 0;
    } else {
      var z := ValueIsSpelled(front);
      AfterZeros(z, Text(Value(front)), c);
      SpelledFurther(0, 0);
      k := if Value(front) == 0 then z + 1 else z;
    }
  }

  /** Exact: a string of digits has the value n if and only if it is the decimal
      spelling of n behind any number of zeros. */
  lemma DecimalExact(d: string, n: nat)
    ensures Digits(d) && Value(d) == n <==> exists k :: d == Zeros(k) + Text(n)
  {
    if Digits(d) && Value(d) == n {
      var k := ValueIsSpelled(d);
    }
    if k :| d == Zeros(k) + Text(n) {
      SpellingHasValue(n, k);
    }
  }

  /** The separators are the six characters of isspace, and the digits are ten. */
  lemma CharactersExact(c: char)
    ensures Blank(c) <==> c in " \t\n\U{000B}\U{000C}\r"
    ensures Digit(c) <==> c in "0123456789"
  {
    if Digit(c) {
      DigitIs(c);
    }
  }

  lemma PlainNumber(n: nat)
    ensures Digits(Text(n)) && Value(Text(n)) == n
  {
    SpellingHasValue(n, 0);
    assert Zeros(0) + Text(n) == Text(n);
  }

  /** A plain range spells itself and nothing else. */
  lemma RangeSpelled(lo: nat, hi: nat, items: seq<Item>)
    ensures ListText(Text(lo) + "-" + Text(hi), items) <==> items == [Item(lo, hi)]
  {
    hide ListText, Value;
    var t := Text(lo) + "-" + Text(hi);
    PlainNumber(lo);
    PlainNumber(hi);
    assert RangeText(t, Item(lo, hi), "", Text(lo), "", "", Text(hi), "") by {
      assert "" + Text(lo) + "" + "-" + "" + Text(hi) + "" == t;
    }
    OneItem(t, Item(lo, hi));
    ScanListExact(t, [Item(lo, hi)]);
    ScanListExact(t, items);
  }

  lemma NumberSpelled(n: nat, items: seq<Item>)
    ensures ListText(Text(n), items) <==> items == [Item(n, n)]
  {
    PlainNumber(n);
    assert NumberText(Text(n), Item(n, n), "", Text(n), "") by {
      assert "" + Text(n) + "" == Text(n);
    }
    OneItem(Text(n), Item(n, n));
    ScanListExact(Text(n), [Item(n, n)]);
    ScanListExact(Text(n), items);
  }

  lemma OneItem(t: string, item: Item)
    requires ItemText(t, item)
    ensures ListText(t, [item])
  {
    assert t[..|t|] == t;
    assert ListSplit(t, [item], |t|);
  }

  lemma OneRangeListed(lo: nat, hi: nat, c: nat)
    ensures Listed([Item(lo, hi)], c) <==> lo <= c <= hi
  {
    assert [Item(lo, hi)][0] == Item(lo, hi);
  }

  lemma OneRangeBounded(lo: nat, hi: nat, maxIndex: nat)
    ensures AllInBounds([Item(lo, hi)], maxIndex) <==> lo <= hi <= maxIndex && hi < 1024
  {
    assert [Item(lo, hi)][0] == Item(lo, hi);
  }

  predicate InAllowed(lo: nat, hi: nat, allowed: set<nat>) {
    forall c: nat :: lo <= c <= hi ==> c in allowed
  }

  /** Exact: a plain range is accepted if and only if it is the right way round, among
      the configured CPUs, below 1024 and within the allowed set. */
  lemma PlainRangeAccepted(lo: nat, hi: nat, maxIndex: nat, allowed: Option<set<nat>>)
    ensures (exists items :: Acceptable(Text(lo) + "-" + Text(hi), items, maxIndex, allowed))
      <==> lo <= hi <= maxIndex && hi < 1024 && (allowed.Some? ==> InAllowed(lo, hi, allowed.value))
  {
    hide ListText, Listed, AllInBounds;
    var t, items := Text(lo) + "-" + Text(hi), [Item(lo, hi)];
    RangeSpelled(lo, hi, items);
    OneRangeBounded(lo, hi, maxIndex);
    forall c: nat ensures Listed(items, c) <==> lo <= c <= hi {
      OneRangeListed(lo, hi, c);
    }
    if other :| Acceptable(t, other, maxIndex, allowed) {
      RangeSpelled(lo, hi, other);
    }
    assert Acceptable(t, items, maxIndex, allowed)
      <==> lo <= hi <= maxIndex && hi < 1024 && (allowed.Some? ==> InAllowed(lo, hi, allowed.value));
  }
}
