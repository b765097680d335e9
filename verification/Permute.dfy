/** exchange of getopt.c: two adjacent blocks of argv change places in place. */
module Permute {
  type Argv = array<string>

  /** The result of exchanging blocks [b, m) and [m, t). */
  function Rotated<T>(s: seq<T>, b: nat, m: nat, t: nat): (r: seq<T>)
    requires b <= m <= t <= |s|
    ensures |r| == |s|
  {
    s[..b] + s[m..t] + s[b..m] + s[t..]
  }

  /** Where element k of the exchange comes from. */
  function Source(b: nat, m: nat, t: nat, k: nat): nat
    requires b <= m <= t
  {
    if k < b || t <= k then k else if k < b + t - m then k + (m - b) else k - (t - m)
  }

  /** Two disjoint blocks of equal length swapped. */
  function Swapped<T>(s: seq<T>, i: nat, j: nat, len: nat): (r: seq<T>)
    requires i + len <= j && j + len <= |s|
    ensures |r| == |s|
  {
    s[..i] + s[j..j + len] + s[i + len..j] + s[i..i + len] + s[j + len..]
  }

  lemma RotatedAt<T>(s: seq<T>, b: nat, m: nat, t: nat, k: nat)
    requires b <= m <= t <= |s| && k < |s|
    ensures Source(b, m, t, k) < |s| && Rotated(s, b, m, t)[k] == s[Source(b, m, t, k)]
  {
  }

  lemma SwappedAt<T>(s: seq<T>, i: nat, j: nat, len: nat, k: nat)
    requires i + len <= j && j + len <= |s| && k < |s|
    ensures Swapped(s, i, j, len)[k] ==
      if i <= k < i + len then s[j - i + k] else if j <= k < j + len then s[i - j + k] else s[k]
  {
  }

  method SwapBlocks(argv: Argv, i: nat, j: nat, len: nat)
    requires i + len <= j && j + len <= argv.Length
    modifies argv
    ensures argv[..] == Swapped(old(argv[..]), i, j, len)
  {
    ghost var was := argv[..];
    var n := 0;
    while n < len
      invariant 0 <= n <= len
      invariant forall k :: i <= k < i + n ==> argv[k] == was[j - i + k]
      invariant forall k :: j <= k < j + n ==> argv[k] == was[i - j + k]
      invariant forall k :: 0 <= k < argv.Length && !(i <= k < i + n) && !(j <= k < j + n) ==> argv[k] == was[k]
    {
      var tem := argv[i + n];
      argv[i + n] := argv[j + n];
      argv[j + n] := tem;
      n := n + 1;
    }
    forall k | 0 <= k < argv.Length ensures argv[..][k] == Swapped(was, i, j, len)[k] {
      SwappedAt(was, i, j, len, k);
    }
  }

  /** Swapping the shorter bottom block with the far end of the top block leaves a
      smaller exchange with the same result. */
  lemma BottomShort<T>(s: seq<T>, b: nat, m: nat, t: nat)
    requires b < m < t <= |s| && t - m > m - b
    ensures Rotated(Swapped(s, b, t - (m - b), m - b), b, m, t - (m - b)) == Rotated(s, b, m, t)
  {
    hide Rotated, Swapped;
    var len := m - b;
    var s' := Swapped(s, b, t - len, len);
    var r, r' := Rotated(s, b, m, t), Rotated(s', b, m, t - len);
    forall k | 0 <= k < |s| ensures r'[k] == r[k] {
      RotatedAt(s, b, m, t, k);
      RotatedAt(s', b, m, t - len, k);
      SwappedAt(s, b, t - len, len, Source(b, m, t - len, k));
    }
  }

  lemma TopShort<T>(s: seq<T>, b: nat, m: nat, t: nat)
    requires b < m < t <= |s| && t - m <= m - b
    ensures Rotated(Swapped(s, b, m, t - m), b + (t - m), m, t) == Rotated(s, b, m, t)
  {
    hide Rotated, Swapped;
    var len := t - m;
    var s' := Swapped(s, b, m, len);
    var r, r' := Rotated(s, b, m, t), Rotated(s', b + len, m, t);
    forall k | 0 <= k < |s| ensures r'[k] == r[k] {
      RotatedAt(s, b, m, t, k);
      RotatedAt(s', b + len, m, t, k);
      SwappedAt(s, b, m, len, Source(b + len, m, t, k));
    }
  }

  lemma NothingLeft<T>(s: seq<T>, b: nat, m: nat, t: nat)
    requires b <= m <= t <= |s| && (b == m || m == t)
    ensures Rotated(s, b, m, t) == s
  {
  }

  /** The block-swap loop: an in-place rotation of [bottom, top) about middle. */
  method Exchange(argv: Argv, firstNonopt: nat, lastNonopt: nat, optind: nat)
    requires firstNonopt <= lastNonopt <= optind <= argv.Length
    modifies argv
    ensures argv[..] == Rotated(old(argv[..]), firstNonopt, lastNonopt, optind)
  {
    hide Rotated, Swapped;
    var bottom, middle, top := firstNonopt, lastNonopt, optind;
    while top > middle && middle > bottom
      invariant firstNonopt <= bottom <= middle <= top <= optind
      invariant Rotated(argv[..], bottom, middle, top) == Rotated(old(argv[..]), firstNonopt, lastNonopt, optind)
      decreases top - bottom
    {
      ghost var s := argv[..];
      if top - middle > middle - bottom {
        var len := middle - bottom;
        SwapBlocks(argv, bottom, top - (middle - bottom), len);
        BottomShort(s, bottom, middle, top);
        top := top - len;
      } else {
        var len := top - middle;
        SwapBlocks(argv, bottom, middle, len);
        TopShort(s, bottom, middle, top);
        bottom := bottom + len;
      }
    }
    NothingLeft(argv[..], bottom, middle, top);
  }
}
