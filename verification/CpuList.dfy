/** flac_writer_parse_affinity_cpu_list_linux of flac_writer.c: a hand-written
    recogniser of CPU lists. The number of configured CPUs and the set allowed to
    the process are parameters. */
module CpuList {
  import opened CTypes

  const CPU_SETSIZE: nat := 1024
  const INT_MAX: nat := 0x7FFF_FFFF

  predicate Blank(c: char) {
    c == ' ' || '\U{0009}' <= c <= '\U{000D}'
  }

  predicate Digit(c: char) {
    '0' <= c <= '9'
  }

  predicate Blanks(w: string) {
    forall i :: 0 <= i < |w| ==> Blank(w[i])
  }

  predicate Digits(d: string) {
    d != "" && forall i :: 0 <= i < |d| ==> Digit(d[i])
  }

  function DigitValue(c: char): (v: nat)
    requires Digit(c)
    ensures v < 10
  {
    c as int - '0' as int
  }

  function Value(d: string): nat
    requires forall i :: 0 <= i < |d| ==> Digit(d[i])
  {
    if d == "" then 0 else 10 * Value(d[..|d| - 1]) + DigitValue(d[|d| - 1])
  }

  // ----- The language -----

  /** A number, or an inclusive range of numbers. */
  datatype Item = Item(lo: nat, hi: nat)

  ghost predicate NumberText(t: string, item: Item, w1: string, d: string, w2: string) {
    && t == w1 + d + w2
    && Blanks(w1) && Digits(d) && Blanks(w2)
    && item.lo == Value(d) && item.hi == Value(d)
  }

  ghost predicate RangeText(t: string, item: Item, w1: string, d1: string, w2: string, w3: string, d2: string,
      w4: string) {
    && t == w1 + d1 + w2 + "-" + w3 + d2 + w4
    && Blanks(w1) && Digits(d1) && Blanks(w2) && Blanks(w3) && Digits(d2) && Blanks(w4)
    && item.lo == Value(d1) && item.hi == Value(d2)
  }

  /** t spells item, with white space anywhere but inside the numbers. */
  ghost predicate ItemText(t: string, item: Item) {
    || (exists w1, d, w2 :: NumberText(t, item, w1, d, w2))
    || (exists w1, d1, w2, w3, d2, w4 :: RangeText(t, item, w1, d1, w2, w3, d2, w4))
  }

  /** s spells items, one or more, separated by commas. */
  ghost predicate ListText(s: string, items: seq<Item>)
    decreases |items|
  {
    items != []
    && exists n :: 0 <= n <= |s| && ListSplit(s, items, n)
  }

  ghost predicate ListSplit(s: string, items: seq<Item>, n: nat)
    requires items != [] && n <= |s|
    decreases |items|, 0
  {
    && ItemText(s[..n], items[0])
    && if |items| == 1 then n == |s| else n < |s| && s[n] == ',' && ListText(s[n + 1..], items[1..])
  }

  /** Every range is the right way round and within the configured CPUs. */
  predicate InBounds(item: Item, maxIndex: nat) {
    item.lo <= item.hi <= maxIndex && item.hi < CPU_SETSIZE
  }

  ghost predicate AllInBounds(items: seq<Item>, maxIndex: nat) {
    forall i :: 0 <= i < |items| ==> InBounds(items[i], maxIndex)
  }

  /** The CPUs that a list denotes: the union of its ranges. */
  ghost predicate Listed(items: seq<Item>, cpu: nat) {
    exists i :: 0 <= i < |items| && items[i].lo <= cpu <= items[i].hi
  }

  // ----- The scanner as functions -----

  function BlankLen(s: string): (n: nat)
    ensures n <= |s| && Blanks(s[..n]) && (n < |s| ==> !Blank(s[n]))
  {
    if s != "" && Blank(s[0]) then
      var n := 1 + BlankLen(s[1..]);
      assert forall i :: 0 < i < n ==> s[i] == s[1..][i - 1];
      n
    else 0
  }

  function DigitLen(s: string): (n: nat)
    ensures n <= |s| && (forall i :: 0 <= i < n ==> Digit(s[i])) && (n < |s| ==> !Digit(s[n]))
  {
    if s != "" && Digit(s[0]) then
      var n := 1 + DigitLen(s[1..]);
      assert forall i :: 0 < i < n ==> s[i] == s[1..][i - 1];
      n
    else 0
  }

  function SkipBlanks(s: string): string {
    s[BlankLen(s)..]
  }

  datatype Scan = Bad | Got(item: Item, rest: string)

  /** One item and the white space behind it. */
  function ScanItem(s: string): Scan {
    var a := SkipBlanks(s);
    var m := DigitLen(a);
    if m == 0 then Bad else ScanEnd(Value(a[..m]), SkipBlanks(a[m..]))
  }

  /** What may follow the first number: the other end of a range. */
  function ScanEnd(lo: nat, b: string): Scan {
    if b == "" || b[0] != '-' then Got(Item(lo, lo), b)
    else
      var c := SkipBlanks(b[1..]);
      var k := DigitLen(c);
      if k == 0 then Bad else Got(Item(lo, Value(c[..k])), SkipBlanks(c[k..]))
  }

  lemma ScanItemShorter(s: string)
    ensures ScanItem(s).Got? ==> |ScanItem(s).rest| < |s|
  {
  }

  /** The whole list, syntax only. */
  function ScanList(s: string): Option<seq<Item>>
    decreases |s|
  {
    ScanItemShorter(s);
    match ScanItem(s)
    case Bad => None
    case Got(item, rest) =>
      if rest == "" then Some([item])
      else if rest[0] != ',' then None
      else
        match ScanList(rest[1..])
        case None => None
        case Some(items) => Some([item] + items)
  }

  // ----- Scanner and language agree -----

  lemma {:induction false} BlankLenExact(w: string, t: string)
    requires Blanks(w) && (t == "" || !Blank(t[0]))
    ensures BlankLen(w + t) == |w| && SkipBlanks(w + t) == t
  {
    if w == "" {
      assert w + t == t;
    } else {
      assert (w + t)[0] == w[0] && Blank(w[0]);
      assert (w + t)[1..] == w[1..] + t;
      BlankLenExact(w[1..], t);
    }
    assert (w + t)[|w|..] == t;
  }

  lemma {:induction false} DigitLenExact(d: string, t: string)
    requires (forall i :: 0 <= i < |d| ==> Digit(d[i])) && (t == "" || !Digit(t[0]))
    ensures DigitLen(d + t) == |d|
  {
    if d == "" {
      assert d + t == t;
    } else {
      assert (d + t)[0] == d[0] && Digit(d[0]);
      assert (d + t)[1..] == d[1..] + t;
      DigitLenExact(d[1..], t);
    }
  }

  /** Blanks and a number in front of something else. */
  lemma NumberAhead(w: string, d: string, t: string)
    requires Blanks(w) && Digits(d) && (t == "" || !Digit(t[0]))
    ensures var a := SkipBlanks(w + (d + t)); a == d + t && DigitLen(a) == |d| && a[..|d|] == d && a[|d|..] == t
  {
    BlankLenExact(w, d + t);
    DigitLenExact(d, t);
  }

  predicate Boundary(rest: string) {
    rest == "" || rest[0] == ','
  }

  /** Blanks followed by a boundary start with neither a digit nor a dash. */
  lemma HeadAfterBlanks(w: string, rest: string)
    requires Blanks(w)
    ensures w + rest == "" || (w + rest)[0] == if w == "" then rest[0] else w[0]
  {
  }

  lemma ScanNumber(item: Item, w1: string, d: string, w2: string, rest: string)
    requires NumberText(w1 + d + w2, item, w1, d, w2) && Boundary(rest)
    ensures ScanItem(w1 + d + w2 + rest) == Got(item, rest)
  {
    hide BlankLen, DigitLen, SkipBlanks;
    assert w1 + d + w2 + rest == w1 + (d + (w2 + rest));
    HeadAfterBlanks(w2, rest);
    NumberAhead(w1, d, w2 + rest);
    BlankLenExact(w2, rest);
  }

  lemma ScanEndRange(lo: nat, w3: string, d2: string, w4: string, rest: string)
    requires Blanks(w3) && Digits(d2) && Blanks(w4) && Boundary(rest)
    ensures ScanEnd(lo, "-" + (w3 + (d2 + (w4 + rest)))) == Got(Item(lo, Value(d2)), rest)
  {
    hide BlankLen, DigitLen, SkipBlanks, Value;
    var b := "-" + (w3 + (d2 + (w4 + rest)));
    assert b[1..] == w3 + (d2 + (w4 + rest));
    HeadAfterBlanks(w4, rest);
    NumberAhead(w3, d2, w4 + rest);
    BlankLenExact(w4, rest);
  }

  lemma ScanRange(item: Item, w1: string, d1: string, w2: string, w3: string, d2: string, w4: string, rest: string)
    requires RangeText(w1 + d1 + w2 + "-" + w3 + d2 + w4, item, w1, d1, w2, w3, d2, w4) && Boundary(rest)
    ensures ScanItem(w1 + d1 + w2 + "-" + w3 + d2 + w4 + rest) == Got(item, rest)
  {
    hide BlankLen, DigitLen, SkipBlanks, Value, ScanEnd;
    var b := "-" + (w3 + (d2 + (w4 + rest)));
    assert w1 + d1 + w2 + "-" + w3 + d2 + w4 + rest == w1 + (d1 + (w2 + b));
    HeadAfterBlanks(w2, b);
    NumberAhead(w1, d1, w2 + b);
    BlankLenExact(w2, b);
    ScanEndRange(Value(d1), w3, d2, w4, rest);
  }

  /** Complete: an item's text in front of a boundary is scanned as that item. */
  lemma ScanComplete(t: string, item: Item, rest: string)
    requires ItemText(t, item) && Boundary(rest)
    ensures ScanItem(t + rest) == Got(item, rest)
  {
    if w1, d, w2 :| NumberText(t, item, w1, d, w2) {
      ScanNumber(item, w1, d, w2, rest);
    } else {
      var w1, d1, w2, w3, d2, w4 :| RangeText(t, item, w1, d1, w2, w3, d2, w4);
      ScanRange(item, w1, d1, w2, w3, d2, w4, rest);
    }
  }

  lemma BlanksAhead(s: string) returns (w: string)
    ensures Blanks(w) && s == w + SkipBlanks(s)
  {
    w := s[..BlankLen(s)];
  }

  lemma DigitsAhead(s: string) returns (d: string)
    requires DigitLen(s) > 0
    ensures Digits(d) && d == s[..DigitLen(s)] && s == d + s[DigitLen(s)..]
  {
    d := s[..DigitLen(s)];
  }

  lemma ScanEndSound(lo: nat, b: string) returns (w3: string, d2: string, w4: string)
    requires ScanEnd(lo, b).Got? && b != "" && b[0] == '-'
    ensures var r := ScanEnd(lo, b);
      && b == "-" + (w3 + (d2 + (w4 + r.rest)))
      && Blanks(w3) && Digits(d2) && Blanks(w4) && r.item == Item(lo, Value(d2))
  {
    hide BlankLen, DigitLen, SkipBlanks, Value;
    assert b == "-" + b[1..];
    w3 := BlanksAhead(b[1..]);
    var c := SkipBlanks(b[1..]);
    d2 := DigitsAhead(c);
    w4 := BlanksAhead(c[DigitLen(c)..]);
  }

  /** Sound: what is scanned as an item is the text of that item. */
  lemma ScanSound(s: string) returns (t: string)
    requires ScanItem(s).Got?
    ensures s == t + ScanItem(s).rest && ItemText(t, ScanItem(s).item)
  {
    hide BlankLen, DigitLen, SkipBlanks, Value, ScanEnd;
    var w1 := BlanksAhead(s);
    var a := SkipBlanks(s);
    var d1 := DigitsAhead(a);
    var w2 := BlanksAhead(a[DigitLen(a)..]);
    var b := SkipBlanks(a[DigitLen(a)..]);
    var r := ScanItem(s);
    assert s == w1 + (d1 + (w2 + b)) && r == ScanEnd(Value(d1), b);
    if b == "" || b[0] != '-' {
      t := w1 + d1 + w2;
      ScanEndPlain(Value(d1), b);
      assert NumberText(t, r.item, w1, d1, w2);
    } else {
      var w3, d2, w4 := ScanEndSound(Value(d1), b);
      t := w1 + d1 + w2 + "-" + w3 + d2 + w4;
      JoinSeven(w1, d1, w2, w3, d2, w4, r.rest);
      assert RangeText(t, r.item, w1, d1, w2, w3, d2, w4);
    }
  }

  lemma ScanEndPlain(lo: nat, b: string)
    requires b == "" || b[0] != '-'
    ensures ScanEnd(lo, b) == Got(Item(lo, lo), b)
  {
  }

  lemma JoinSeven(a: string, b: string, c: string, d: string, e: string, f: string, rest: string)
    ensures a + (b + (c + ("-" + (d + (e + (f + rest)))))) == a + b + c + "-" + d + e + f + rest
  {
  }

  lemma {:induction false} ScanListSound(s: string)
    requires ScanList(s).Some?
    ensures ListText(s, ScanList(s).value)
    decreases |s|
  {
    hide ScanItem;
    var items := ScanList(s).value;
    var rest := ScanItem(s).rest;
    ScanItemShorter(s);
    var t := ScanSound(s);
    assert s[..|t|] == t && s[|t|..] == rest;
    if rest != "" {
      ScanListSound(rest[1..]);
      assert s[|t|] == rest[0] && s[|t| + 1..] == rest[1..];
      assert items[1..] == ScanList(rest[1..]).value;
    }
    assert ListSplit(s, items, |t|);
  }

  lemma {:induction false} ScanListComplete(s: string, items: seq<Item>)
    requires ListText(s, items)
    ensures ScanList(s) == Some(items)
    decreases |items|
  {
    hide ScanItem, ItemText;
    ScanItemShorter(s);
    var n :| 0 <= n <= |s| && ListSplit(s, items, n);
    assert s == s[..n] + s[n..];
    ScanComplete(s[..n], items[0], s[n..]);
    if |items| == 1 {
      assert items == [items[0]];
    } else {
      assert s[n..][1..] == s[n + 1..];
      ScanListComplete(s[n + 1..], items[1..]);
      assert items == [items[0]] + items[1..];
    }
  }

  /** A string spells at most one list, and the scanner finds it. */
  lemma ScanListExact(s: string, items: seq<Item>)
    ensures ScanList(s) == Some(items) <==> ListText(s, items)
  {
    if ScanList(s) == Some(items) {
      ScanListSound(s);
    }
    if ListText(s, items) {
      ScanListComplete(s, items);
    }
  }

  // ----- The parser -----

  method SkipSpace(s: string, p: nat) returns (q: nat)
    requires p <= |s|
    ensures p <= q <= |s| && s[q..] == SkipBlanks(s[p..])
  {
    q := p;
    while q < |s| && Blank(s[q])
      invariant p <= q <= |s|
      invariant SkipBlanks(s[q..]) == SkipBlanks(s[p..])
    {
      assert s[q..][1..] == s[q + 1..];
      q := q + 1;
    }
    NoBlanks(s[q..]);
  }

  lemma NoBlanks(t: string)
    requires t == "" || !Blank(t[0])
    ensures SkipBlanks(t) == t
  {
  }

  /** strtol in base 10, started at a digit; every value it cannot represent is also
      above every bound that is tested afterwards. */
  method ReadNumber(s: string, p: nat) returns (v: nat, q: nat)
    requires p < |s| && Digit(s[p])
    ensures p < q <= |s| && q == p + DigitLen(s[p..])
    ensures v == Value(s[p..][..q - p])
  {
    q := p;
    v := 0;
    while q < |s| && Digit(s[q])
      invariant p <= q <= |s|
      invariant forall i :: p <= i < q ==> Digit(s[i])
      invariant v == Value(s[p..q])
    {
      assert s[p..q + 1][..q - p] == s[p..q];
      v := 10 * v + DigitValue(s[q]);
      q := q + 1;
    }
    assert s[p..] == s[p..q] + s[q..];
    DigitLenExact(s[p..q], s[q..]);
  }

  /** The optional other end of a range. */
  method ReadEnd(s: string, p: nat, startCpu: nat) returns (ok: bool, endCpu: nat, q: nat)
    requires p <= |s| && (p < |s| ==> !Blank(s[p])) && startCpu <= INT_MAX
    ensures ok ==> q <= |s| && ScanEnd(startCpu, s[p..]) == Got(Item(startCpu, endCpu), SkipBlanks(s[q..]))
    ensures ok ==> startCpu <= endCpu <= INT_MAX
    ensures !ok ==> match ScanEnd(startCpu, s[p..])
      case Bad => true
      case Got(i, _) => i.hi < i.lo || i.hi > INT_MAX
  {
    hide DigitLen, SkipBlanks, Value;
    ghost var b := s[p..];
    q := p;
    endCpu := startCpu;
    ok := false;
    if q < |s| && s[q] == '-' {
      assert s[q + 1..] == b[1..];
      q := SkipSpace(s, q + 1);
      ghost var c := s[q..];
      if q == |s| || !Digit(s[q]) {
        NoDigits(c);
        return;
      }
      endCpu, q := ReadNumber(s, q);
      assert s[q..] == c[DigitLen(c)..];
      if endCpu > INT_MAX {
        return;
      }
      if endCpu < startCpu {
        return;
      }
    } else {
      NoBlanks(b);
    }
    ok := true;
  }

  lemma NoDigits(t: string)
    requires t == "" || !Digit(t[0])
    ensures DigitLen(t) == 0
  {
  }

  /** One number or range with its bounds tests, up to the separator. */
  method ReadItem(s: string, p: nat, maxIndex: nat) returns (ok: bool, item: Item, q: nat)
    requires p <= |s|
    ensures ok ==> q <= |s| && ScanItem(s[p..]) == Got(item, s[q..]) && InBounds(item, maxIndex)
    ensures !ok ==> match ScanItem(s[p..]) case Bad => true case Got(i, _) => !InBounds(i, maxIndex)
  {
    hide DigitLen, SkipBlanks, Value, ScanEnd;
    ok, item := false, Item(0, 0);
    q := SkipSpace(s, p);
    ghost var a := s[q..];
    if q == |s| || !Digit(s[q]) {
      NoDigits(a);
      return;
    }
    var startCpu, endCpu, good;
    startCpu, q := ReadNumber(s, q);
    assert s[q..] == a[DigitLen(a)..];
    q := SkipSpace(s, q);
    SkippedHead(a[DigitLen(a)..]);
    assert ScanItem(s[p..]) == ScanEnd(startCpu, s[q..]);
    ScanEndLow(startCpu, s[q..]);
    if startCpu > INT_MAX {
      return;
    }
    good, endCpu, q := ReadEnd(s, q, startCpu);
    if !good {
      return;
    }
    if startCpu > maxIndex || endCpu > maxIndex {
      return;
    }
    if endCpu >= CPU_SETSIZE {
      return;
    }
    item := Item(startCpu, endCpu);
    q := SkipSpace(s, q);
    ok := true;
  }

  lemma SkippedHead(t: string)
    ensures SkipBlanks(t) == "" || !Blank(SkipBlanks(t)[0])
  {
  }

  lemma ScanEndLow(lo: nat, b: string)
    ensures ScanEnd(lo, b).Got? ==> ScanEnd(lo, b).item.lo == lo
  {
  }

  lemma SkipTwice(t: string)
    ensures SkipBlanks(SkipBlanks(t)) == SkipBlanks(t)
  {
    NoBlanks(SkipBlanks(t));
  }

  function Prepend(items: seq<Item>, more: Option<seq<Item>>): Option<seq<Item>> {
    match more
    case None => None
    case Some(x) => Some(items + x)
  }

  lemma ScanListSkips(t: string)
    ensures ScanList(SkipBlanks(t)) == ScanList(t)
  {
    SkipTwice(t);
  }

  /** The string is accepted exactly when it spells a list of ranges that are all the
      right way round and in bounds, with all listed CPUs allowed where the allowed
      set is known. */
  ghost predicate Acceptable(s: string, items: seq<Item>, maxIndex: nat, allowed: Option<set<nat>>) {
    ListText(s, items) && AllInBounds(items, maxIndex)
    && (allowed.Some? ==> forall cpu :: Listed(items, cpu) ==> cpu in allowed.value)
  }

  method AddSpan(item: Item, target: set<nat>) returns (target': set<nat>)
    requires item.lo <= item.hi
    ensures forall c :: c in target' <==> c in target || item.lo <= c <= item.hi
  {
    target' := target;
    var cpu := item.lo;
    while cpu <= item.hi
      invariant item.lo <= cpu <= item.hi + 1
      invariant forall c :: c in target' <==> c in target || item.lo <= c < cpu
    {
      target' := target' + {cpu};
      cpu := cpu + 1;
    }
  }

  /** The syntax loop: all items of the string, or a refusal. */
  method ReadList(s: string, maxIndex: nat) returns (ok: bool, target: set<nat>)
    ensures ok ==> ScanList(s).Some? && AllInBounds(ScanList(s).value, maxIndex)
    ensures ok ==> forall c :: c in target <==> Listed(ScanList(s).value, c)
    ensures !ok ==> ScanList(s).None? || !AllInBounds(ScanList(s).value, maxIndex)
  {
    hide ScanItem, ScanList, Listed, AllInBounds, Prepend;
    ok, target := false, {};
    ghost var items: seq<Item> := [];
    var p := 0;
    assert s[0..] == s;
    NothingYet(ScanList(s), maxIndex);
    while true
      invariant p <= |s|
      invariant ScanList(s) == Prepend(items, ScanList(s[p..]))
      invariant AllInBounds(items, maxIndex)
      invariant forall c :: c in target <==> Listed(items, c)
      decreases |s| - p
    {
      ghost var here := s[p..];
      ScanItemShorter(here);
      var good, item, q := ReadItem(s, p, maxIndex);
      if !good {
        RefusedItem(s, items, here, maxIndex);
        return;
      }
      target := AddSpan(item, target);
      ListedSnoc(items, item);
      BoundedSnoc(items, item, maxIndex);
      if q == |s| {
        LastItem(s, items, here, item);
        ok := true;
        return;
      }
      if s[q] != ',' {
        WrongSeparator(s, items, here, s[q..]);
        return;
      }
      assert s[q..][1..] == s[q + 1..];
      NextItem(s, items, here, item, s[q..]);
      p := SkipSpace(s, q + 1);
      ScanListSkips(s[q + 1..]);
      items := items + [item];
      if p == |s| {
        NothingFollows(items);
        return;
      }
    }
  }

  lemma NothingYet(r: Option<seq<Item>>, maxIndex: nat)
    ensures Prepend([], r) == r && AllInBounds([], maxIndex) && forall c: nat :: !Listed([], c)
  {
    if r.Some? {
      assert [] + r.value == r.value;
    }
  }

  lemma NothingFollows(items: seq<Item>)
    ensures ScanList("") == None && Prepend(items, ScanList("")) == None
  {
  }

  // What the scan of the whole string is once an item was found at here.

  lemma LastItem(s: string, items: seq<Item>, here: string, item: Item)
    requires ScanList(s) == Prepend(items, ScanList(here)) && ScanItem(here) == Got(item, "")
    ensures ScanList(s) == Some(items + [item])
  {
    hide ScanItem;
  }

  lemma WrongSeparator(s: string, items: seq<Item>, here: string, rest: string)
    requires ScanList(s) == Prepend(items, ScanList(here))
    requires ScanItem(here).Got? && ScanItem(here).rest == rest && rest != "" && rest[0] != ','
    ensures ScanList(s) == None
  {
    hide ScanItem;
  }

  lemma NextItem(s: string, items: seq<Item>, here: string, item: Item, rest: string)
    requires ScanList(s) == Prepend(items, ScanList(here))
    requires ScanItem(here) == Got(item, rest) && rest != "" && rest[0] == ','
    ensures ScanList(s) == Prepend(items + [item], ScanList(rest[1..]))
  {
    hide ScanItem;
    ScanItemShorter(here);
    PrependSnoc(items, item, ScanList(rest[1..]));
  }

  lemma ScanNothing()
    ensures ScanList("") == None
  {
  }

  lemma PrependSnoc(items: seq<Item>, item: Item, r: Option<seq<Item>>)
    ensures Prepend(items + [item], r) == Prepend(items, Prepend([item], r))
  {
    if r.Some? {
      assert items + [item] + r.value == items + ([item] + r.value);
    }
  }

  lemma ListedSnoc(items: seq<Item>, item: Item)
    ensures forall c: nat :: Listed(items + [item], c) <==> Listed(items, c) || item.lo <= c <= item.hi
  {
    forall c: nat ensures Listed(items + [item], c) <==> Listed(items, c) || item.lo <= c <= item.hi {
      if Listed(items, c) {
        var i :| 0 <= i < |items| && items[i].lo <= c <= items[i].hi;
        assert (items + [item])[i] == items[i];
      }
      if item.lo <= c <= item.hi {
        assert (items + [item])[|items|] == item;
      }
    }
  }

  lemma BoundedSnoc(items: seq<Item>, item: Item, maxIndex: nat)
    requires AllInBounds(items, maxIndex) && InBounds(item, maxIndex)
    ensures AllInBounds(items + [item], maxIndex)
  {
  }

  lemma RefusedItem(s: string, items: seq<Item>, here: string, maxIndex: nat)
    requires ScanList(s) == Prepend(items, ScanList(here))
    requires match ScanItem(here) case Bad => true case Got(i, _) => !InBounds(i, maxIndex)
    ensures ScanList(s).None? || !AllInBounds(ScanList(s).value, maxIndex)
  {
    if ScanList(here).Some? {
      assert ScanList(s).value[|items|] == ScanItem(here).item;
    }
  }

  /** The whole function: the two early tests, the loop, and the allowed set. */
  method ParseAffinityCpuList(cpuList: string, cpuConf: int, allowed: Option<set<nat>>)
    returns (ok: bool, target: set<nat>)
    ensures var maxIndex := if cpuConf > 0 then cpuConf - 1 else CPU_SETSIZE - 1;
      && (ok <==> exists items :: Acceptable(cpuList, items, maxIndex, allowed))
      && (ok ==> forall items :: Acceptable(cpuList, items, maxIndex, allowed) ==>
            forall c :: c in target <==> Listed(items, c))
  {
    ok, target := false, {};
    var maxCpuIndex := if cpuConf > 0 then cpuConf - 1 else CPU_SETSIZE - 1;
    forall items ensures ScanList(cpuList) == Some(items) <==> ListText(cpuList, items) {
      ScanListExact(cpuList, items);
    }
    if cpuList == "" {
      ScanNothing();
      return;
    }
    ok, target := ReadList(cpuList, maxCpuIndex);
    if ok {
      ghost var items := ScanList(cpuList).value;
      if allowed.Some? && !(target <= allowed.value) {
        assert exists c :: Listed(items, c) && c !in allowed.value;
        ok := false;
      } else {
        assert Acceptable(cpuList, items, maxCpuIndex, allowed);
      }
    }
  }
}
