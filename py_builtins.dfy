/** Python built-ins that the two core files lean on, with Python's semantics
    written out: sequence indexing and slicing, the truncating `int(x / d)`,
    `int(s)` on decimal strings, `format(v, '08')`, string ordering and
    `sorted`/`min` on lists of integers and names. */
module PyBuiltins {

  datatype Option<T> = None | Some(value: T)

  /** The Python exceptions the core can raise. */
  datatype PyError = IndexError | ValueError | ZeroDivisionError

  datatype Result<T> = Ok(value: T) | Err(error: PyError)

  function Max(a: int, b: int): int { if a < b then b else a }
  function Min(a: int, b: int): int { if a < b then a else b }
  function Abs(x: int): nat { if x < 0 then -x else x }

  // ---------------------------------------------------------------------------
  // Indexing and slicing

  /** The position `s[i]` denotes in a list of length `n`: a negative index
      counts from the end, anything outside [-n, n) is an IndexError (None). */
  function Normalize(n: nat, i: int): (r: Option<nat>)
    ensures r.Some? <==> -(n as int) <= i < n
    ensures r.Some? ==> r.value < n
    ensures r.Some? && 0 <= i ==> r.value == i
    ensures r.Some? && i < 0 ==> r.value == i + n
  {
    if 0 <= i < n then Some(i) else if -(n as int) <= i < 0 then Some((i + n) as nat) else None
  }

  /** Python's `s[i]`, None standing for IndexError. */
  function At<T>(s: seq<T>, i: int): (r: Option<T>)
    ensures r.Some? <==> Normalize(|s|, i).Some?
    ensures r.Some? ==> r.value == s[Normalize(|s|, i).value]
  {
    match Normalize(|s|, i)
    case Some(k) => Some(s[k])
    case None => None
  }

  /** Where a slice bound `i` lands in a list of length `n`: negative bounds
      count from the end, and the result is clipped to [0, n]. */
  function SliceBound(n: nat, i: int): (r: nat)
    ensures r <= n
    ensures 0 <= i ==> r == Min(i, n)
    ensures i < 0 ==> r == Max(i + n, 0)
  {
    if i < 0 then (if i + n < 0 then 0 else i + n) else if i > n then n else i
  }

  /** Python's `s[a:b]`: never fails, empty when the clipped bounds cross. */
  function Slice<T>(s: seq<T>, a: int, b: int): (r: seq<T>)
    ensures |r| <= |s|
    ensures SliceBound(|s|, a) < SliceBound(|s|, b) ==> r == s[SliceBound(|s|, a)..SliceBound(|s|, b)]
    ensures SliceBound(|s|, b) <= SliceBound(|s|, a) ==> r == []
  {
    var lo, hi := SliceBound(|s|, a), SliceBound(|s|, b);
    if lo < hi then s[lo..hi] else []
  }

  // ---------------------------------------------------------------------------
  // Division

  /** `int(x / d)` for a positive integer `d`: true division, then truncation
      toward zero (Dafny's own `/` is Euclidean and rounds negatives down). */
  function TruncDiv(x: int, d: int): (r: int)
    requires d > 0
    ensures 0 <= x ==> 0 <= r && r * d <= x < r * d + d
    ensures x < 0 ==> r <= 0 && r * d - d < x <= r * d
  {
    if x >= 0 then x / d else -((-x) / d)
  }

  // ---------------------------------------------------------------------------
  // Decimal strings: int(s) and format(v, '08')

  predicate IsDigit(c: char) { '0' <= c <= '9' }

  predicate AllDigits(s: string) { forall i :: 0 <= i < |s| ==> IsDigit(s[i]) }

  function DigitChar(d: nat): (c: char)
    requires d < 10
    ensures IsDigit(c) && c as int - '0' as int == d
  {
    ('0' as int + d) as char
  }

  /** The value of a string of decimal digits, most significant first. */
  function DigitsValue(s: string): nat
    requires AllDigits(s)
  {
    if s == [] then 0 else DigitsValue(s[..|s| - 1]) * 10 + (s[|s| - 1] as int - '0' as int)
  }

  /** Python's `int(s)` on a base-10 literal: one optional sign, then one or
      more ASCII digits (leading zeros allowed). None stands for ValueError. */
  function ParseInt(s: string): (r: Option<int>)
    ensures r.Some? ==> |s| > 0
    ensures r.Some? && s[0] == '-' ==> r.value <= 0
    ensures r.Some? && s[0] != '-' ==> r.value >= 0
  {
    if |s| > 0 && (s[0] == '-' || s[0] == '+') then
      var body := s[1..];
      if |body| > 0 && AllDigits(body) then
        Some(if s[0] == '-' then 0 - DigitsValue(body) else DigitsValue(body))
      else None
    else if |s| > 0 && AllDigits(s) then Some(DigitsValue(s))
    else None
  }

  /** `str(n)` for a natural number: its decimal digits without leading zeros. */
  function DecimalDigits(n: nat): (r: string)
    ensures |r| >= 1 && AllDigits(r) && DigitsValue(r) == n
    ensures r[0] == '0' ==> n == 0
    decreases n
  {
    if n < 10 then [DigitChar(n)]
    else
      var p := DecimalDigits(n / 10);
      var r := p + [DigitChar(n % 10)];
      assert r[..|r| - 1] == p;
      r
  }

  function Zeros(k: nat): (r: string)
    ensures |r| == k && AllDigits(r)
    ensures forall i :: 0 <= i < k ==> r[i] == '0'
  {
    if k == 0 then "" else Zeros(k - 1) + "0"
  }

  /** `format(v, '0' + str(width))`: a `-` for negative numbers, then zeros,
      then the digits of |v|, padded so that the whole is at least `width`
      characters (the sign counts toward the width). */
  function ZeroPadded(v: int, width: nat): (r: string)
    ensures |r| >= width && |r| >= 1
  {
    var sign := if v < 0 then "-" else "";
    var digits := DecimalDigits(Abs(v));
    sign + Zeros(Max(width - |sign| - |digits|, 0)) + digits
  }

  function Pow10(k: nat): (r: nat)
    ensures r >= 1
  {
    if k == 0 then 1 else 10 * Pow10(k - 1)
  }

  lemma {:induction false} DigitsValueLeadingZeros(k: nat, d: string)
    requires AllDigits(d)
    ensures AllDigits(Zeros(k) + d) && DigitsValue(Zeros(k) + d) == DigitsValue(d)
  {
    var s := Zeros(k) + d;
    assert AllDigits(s) by {
      forall i | 0 <= i < |s| ensures IsDigit(s[i]) {
        if i < k { assert s[i] == Zeros(k)[i]; } else { assert s[i] == d[i - k]; }
      }
    }
    if d == [] {
      assert s == Zeros(k);
      ZerosValue(k);
    } else {
      var d' := d[..|d| - 1];
      assert s[..|s| - 1] == Zeros(k) + d';
      assert s[|s| - 1] == d[|d| - 1];
      DigitsValueLeadingZeros(k, d');
    }
  }

  lemma {:induction false} ZerosValue(k: nat)
    ensures DigitsValue(Zeros(k)) == 0
  {
    if k > 0 {
      assert Zeros(k)[..k - 1] == Zeros(k - 1);
      ZerosValue(k - 1);
    }
  }

  /** format(v, '0w') parses back to v under int(): formatting loses nothing,
      for every integer and every width. */
  lemma ZeroPaddedRoundTrip(v: int, width: nat)
    ensures ParseInt(ZeroPadded(v, width)) == Some(v)
  {
    var sign := if v < 0 then "-" else "";
    var digits := DecimalDigits(Abs(v));
    var zeros := Zeros(Max(width - |sign| - |digits|, 0));
    assert ZeroPadded(v, width) == sign + zeros + digits;
    var body := zeros + digits;
    assert sign + zeros + digits == sign + body;
    DigitsValueLeadingZeros(|zeros|, digits);
    if v < 0 {
      ParseNegative(body);
    } else {
      assert sign + body == body;
      ParseUnsigned(body);
    }
  }

  /** The padded form of v is its sign, if negative, followed by one or more
      digits. */
  lemma ZeroPaddedShape(v: int, width: nat)
    ensures v >= 0 ==> |ZeroPadded(v, width)| >= 1 && AllDigits(ZeroPadded(v, width))
    ensures v < 0 ==> |ZeroPadded(v, width)| >= 2 && ZeroPadded(v, width)[0] == '-'
                      && AllDigits(ZeroPadded(v, width)[1..])
  {
    var sign := if v < 0 then "-" else "";
    var digits := DecimalDigits(Abs(v));
    var zeros := Zeros(Max(width - |sign| - |digits|, 0));
    assert ZeroPadded(v, width) == sign + zeros + digits;
    var body := zeros + digits;
    assert sign + zeros + digits == sign + body;
    DigitsValueLeadingZeros(|zeros|, digits);
    if v < 0 {
      assert (sign + body)[1..] == body;
    } else {
      assert sign + body == body;
    }
  }

  lemma ParseUnsigned(body: string)
    requires |body| > 0 && AllDigits(body)
    ensures ParseInt(body) == Some(DigitsValue(body))
  {
    assert IsDigit(body[0]);
  }

  lemma ParseNegative(body: string)
    requires |body| > 0 && AllDigits(body)
    ensures ParseInt("-" + body) == Some(0 - DigitsValue(body))
  {
    assert ("-" + body)[1..] == body;
  }

  lemma {:induction false} DecimalDigitsLength(n: nat, k: nat)
    requires 1 <= k && n < Pow10(k)
    ensures |DecimalDigits(n)| <= k
    decreases n
  {
    if n >= 10 {
      assert k >= 2;
      assert n / 10 < Pow10(k - 1);
      DecimalDigitsLength(n / 10, k - 1);
    }
  }

  /** For 0 <= v < 10^8 the 8-wide format is exactly eight digits. */
  lemma ZeroPaddedEightDigits(v: int)
    requires 0 <= v < 100000000
    ensures |ZeroPadded(v, 8)| == 8 && AllDigits(ZeroPadded(v, 8))
  {
    assert Pow10(8) == 100000000 by {
      assert Pow10(1) == 10 && Pow10(2) == 100 && Pow10(3) == 1000 && Pow10(4) == 10000;
      assert Pow10(5) == 100000 && Pow10(6) == 1000000 && Pow10(7) == 10000000;
    }
    DecimalDigitsLength(v, 8);
    DigitsValueLeadingZeros(8 - |DecimalDigits(v)|, DecimalDigits(v));
  }

  /** A digit string read from the front: its first digit weighs
      10^(n-1), the rest is read as a shorter string. */
  lemma {:induction false} DigitsValueFront(s: string)
    requires |s| > 0 && AllDigits(s)
    ensures DigitsValue(s) == (s[0] as int - '0' as int) * Pow10(|s| - 1) + DigitsValue(s[1..])
    decreases |s|
  {
    if |s| > 1 {
      var p := s[..|s| - 1];
      DigitsValueFront(p);
      assert p[1..] == s[1..][..|s| - 2];
      var d0, last := s[0] as int - '0' as int, s[|s| - 1] as int - '0' as int;
      var rest, w := DigitsValue(p[1..]), Pow10(|s| - 2);
      assert DigitsValue(s[1..]) == rest * 10 + last;
      assert DigitsValue(p) == d0 * w + rest;
      TenTimes(d0, w);
    } else {
      assert s[1..] == [] && s[..0] == [];
    }
  }

  lemma TenTimes(a: int, b: int)
    ensures a * (10 * b) == (a * b) * 10
  {
  }

  /** n digits are worth less than 10^n. */
  lemma {:induction false} DigitsValueBound(s: string)
    requires AllDigits(s)
    ensures DigitsValue(s) < Pow10(|s|)
    decreases |s|
  {
    if s != [] {
      DigitsValueBound(s[..|s| - 1]);
    }
  }

  /** For digit strings of one length, code-point order is numeric order:
      the first differing digit decides both. */
  lemma {:induction false} DigitsLexOrder(s: string, t: string)
    requires AllDigits(s) && AllDigits(t) && |s| == |t|
    ensures LexLe(s, t) <==> DigitsValue(s) <= DigitsValue(t)
    decreases |s|
  {
    if |s| > 0 {
      DigitsValueFront(s);
      DigitsValueFront(t);
      DigitsValueBound(s[1..]);
      DigitsValueBound(t[1..]);
      var p := Pow10(|s| - 1);
      var a, b := s[0] as int - '0' as int, t[0] as int - '0' as int;
      if a < b {
        LeadingDigitDecides(a, b, DigitsValue(s[1..]), DigitsValue(t[1..]), p);
      } else if a > b {
        LeadingDigitDecides(b, a, DigitsValue(t[1..]), DigitsValue(s[1..]), p);
      } else {
        DigitsLexOrder(s[1..], t[1..]);
      }
    }
  }

  /** A smaller leading digit wins whatever follows it. */
  lemma LeadingDigitDecides(a: int, b: int, x: nat, y: nat, p: nat)
    requires a < b && x < p && y < p
    ensures a * p + x < b * p + y
  {
    assert (b - a - 1) * p >= 0;
    assert b * p == a * p + p + (b - a - 1) * p;
  }

  /** A common suffix after two strings of one length does not change how
      they compare. */
  lemma {:induction false} LexLeCommonSuffix(s: string, t: string, x: string)
    requires |s| == |t|
    ensures LexLe(s + x, t + x) <==> LexLe(s, t)
    decreases |s|
  {
    if |s| == 0 {
      assert s + x == x && t + x == x;
      LexLeTotal(x, x);
    } else {
      assert (s + x)[1..] == s[1..] + x && (t + x)[1..] == t[1..] + x;
      LexLeCommonSuffix(s[1..], t[1..], x);
    }
  }

  /** The sign counts toward the width: -5 becomes "-0000005". */
  lemma ZeroPaddedNegativeExample()
    ensures ZeroPadded(-5, 8) == "-0000005"
  {
    assert DecimalDigits(5) == "5";
    assert Zeros(6) == "000000";
  }

  /** int() accepts one sign at most: "--5" is a ValueError. */
  lemma ParseIntDoubleMinus(s: string)
    requires |s| >= 2 && s[0] == '-' && s[1] == '-'
    ensures ParseInt(s) == None
  {
    assert !IsDigit(s[1..][0]);
  }

  // ---------------------------------------------------------------------------
  // Ordering of names (Python compares strings by code point, a prefix first)

  predicate LexLe(a: string, b: string)
  {
    |a| == 0 || (|b| > 0 && (a[0] < b[0] || (a[0] == b[0] && LexLe(a[1..], b[1..]))))
  }

  lemma {:induction false} LexLeTotal(a: string, b: string)
    ensures LexLe(a, b) || LexLe(b, a)
  {
    if |a| > 0 && |b| > 0 && a[0] == b[0] { LexLeTotal(a[1..], b[1..]); }
  }

  lemma {:induction false} LexLeAntisymmetric(a: string, b: string)
    requires LexLe(a, b) && LexLe(b, a)
    ensures a == b
  {
    if |a| > 0 && |b| > 0 {
      LexLeAntisymmetric(a[1..], b[1..]);
      assert a == [a[0]] + a[1..] && b == [b[0]] + b[1..];
    }
  }

  lemma {:induction false} LexLeTransitive(a: string, b: string, c: string)
    requires LexLe(a, b) && LexLe(b, c)
    ensures LexLe(a, c)
  {
    if |a| > 0 && |b| > 0 && |c| > 0 && a[0] == b[0] && b[0] == c[0] {
      LexLeTransitive(a[1..], b[1..], c[1..]);
    }
  }

  predicate IsLeast(m: string, s: set<string>)
  {
    m in s && forall y :: y in s ==> LexLe(m, y)
  }

  lemma {:induction false} LeastExists(s: set<string>)
    requires s != {}
    ensures exists m :: IsLeast(m, s)
    decreases |s|
  {
    var a :| a in s;
    if s != {a} {
      LeastExists(s - {a});
      var m :| IsLeast(m, s - {a});
      LexLeTotal(a, m);
      if LexLe(a, m) {
        forall y | y in s ensures LexLe(a, y) {
          if y != a { LexLeTransitive(a, m, y); } else { LexLeTotal(a, a); }
        }
        assert IsLeast(a, s);
      } else {
        assert IsLeast(m, s);
      }
    } else {
      LexLeTotal(a, a);
      assert IsLeast(a, s);
    }
  }

  lemma LeastUnique(s: set<string>)
    ensures forall m, m' :: IsLeast(m, s) && IsLeast(m', s) ==> m == m'
  {
    forall m, m' | IsLeast(m, s) && IsLeast(m', s) ensures m == m' {
      LexLeAntisymmetric(m, m');
    }
  }

  predicate StrictlySortedNames(r: seq<string>)
  {
    forall i, j :: 0 <= i < j < |r| ==> LexLe(r[i], r[j]) && r[i] != r[j]
  }

  /** `sorted(names)` for a set of distinct names: every name once, in
      ascending code-point order. */
  function SortedNames(s: set<string>): (r: seq<string>)
    ensures |r| == |s|
    ensures forall x :: x in s <==> x in r
    decreases |s|
  {
    if s == {} then []
    else
      LeastExists(s);
      LeastUnique(s);
      var m :| IsLeast(m, s);
      [m] + SortedNames(s - {m})
  }

  /** The listing is strictly ascending, hence free of repeats. */
  lemma {:induction false} SortedNamesSorted(s: set<string>)
    ensures StrictlySortedNames(SortedNames(s))
    decreases |s|
  {
    if s != {} {
      LeastExists(s);
      LeastUnique(s);
      var m :| IsLeast(m, s);
      var rest := SortedNames(s - {m});
      assert SortedNames(s) == [m] + rest;
      SortedNamesSorted(s - {m});
      forall i, j | 0 <= i < j < |[m] + rest|
        ensures LexLe(([m] + rest)[i], ([m] + rest)[j]) && ([m] + rest)[i] != ([m] + rest)[j]
      {
        if i == 0 {
          assert rest[j - 1] in s - {m};
        }
      }
    }
  }

  /** The sorted listing is the only strictly ascending listing of its
      names, so any such listing is the order `sorted()` gives. */
  lemma {:induction false} SortedNamesUnique(s: set<string>, r: seq<string>)
    requires StrictlySortedNames(r)
    requires forall x :: x in s <==> x in r
    ensures SortedNames(s) == r
    decreases |s|
  {
    if |r| == 0 {
      assert s == {};
    } else {
      assert r[0] in s;
      var h := AscendingHead(s, r);
      AscendingTail(s, r);
      SortedNamesUnique(s - {h}, r[1..]);
      SortedNamesFirst(s, h);
      assert r == [h] + r[1..];
    }
  }

  /** The sorted listing of a non-empty set starts with its least name. */
  lemma SortedNamesFirst(s: set<string>, h: string)
    requires IsLeast(h, s)
    ensures SortedNames(s) == [h] + SortedNames(s - {h})
  {
    LeastUnique(s);
  }

  /** The head of a strictly ascending listing of a non-empty set is its
      least name. */
  lemma AscendingHead(s: set<string>, r: seq<string>) returns (h: string)
    requires StrictlySortedNames(r)
    requires forall x :: x in s <==> x in r
    requires s != {}
    ensures |r| > 0 && h == r[0] && IsLeast(h, s)
  {
    var a :| a in s;
    assert a in r;
    h := r[0];
    forall y | y in s ensures LexLe(h, y) {
      var j :| 0 <= j < |r| && r[j] == y;
      if j == 0 { LexLeTotal(h, h); }
    }
  }

  /** Dropping the head of a strictly ascending listing lists the rest of
      the set, still strictly ascending. */
  lemma AscendingTail(s: set<string>, r: seq<string>)
    requires StrictlySortedNames(r)
    requires forall x :: x in s <==> x in r
    requires |r| > 0
    ensures StrictlySortedNames(r[1..])
    ensures forall x :: x in s - {r[0]} <==> x in r[1..]
  {
    var rest := r[1..];
    forall x ensures x in s - {r[0]} <==> x in rest {
      if x in rest {
        var j :| 0 <= j < |rest| && rest[j] == x;
        assert r[j + 1] == x;
      }
      if x in s - {r[0]} {
        var j :| 0 <= j < |r| && r[j] == x;
        assert rest[j - 1] == x;
      }
    }
    forall i, j | 0 <= i < j < |rest| ensures LexLe(rest[i], rest[j]) && rest[i] != rest[j] {
      assert rest[i] == r[i + 1] && rest[j] == r[j + 1];
    }
  }

  // ---------------------------------------------------------------------------
  // Lists of integers: sorted() and min()

  /** Ascending, stated on neighbours. */
  predicate SortedAsc(s: seq<int>) { forall i :: 0 < i < |s| ==> s[i - 1] <= s[i] }

  /** Sortedness of neighbours orders every pair. */
  lemma {:induction false} SortedAscMonotone(s: seq<int>, i: nat, j: nat)
    requires SortedAsc(s) && i <= j < |s|
    ensures s[i] <= s[j]
    decreases j - i
  {
    if i < j {
      SortedAscMonotone(s, i, j - 1);
    }
  }

  predicate StrictlyIncreasing(s: seq<int>) { forall i, j :: 0 <= i < j < |s| ==> s[i] < s[j] }

  function Insert(x: int, s: seq<int>): (r: seq<int>)
    requires SortedAsc(s)
    ensures |r| == |s| + 1 && SortedAsc(r)
    ensures multiset(r) == multiset(s) + multiset{x}
    ensures r[0] == if s == [] || x <= s[0] then x else s[0]
  {
    if s == [] || x <= s[0] then [x] + s
    else
      var tail := Insert(x, s[1..]);
      assert s == [s[0]] + s[1..];
      [s[0]] + tail
  }

  /** Python's `sorted(xs)`: an ascending permutation of `xs`. */
  function Sort(xs: seq<int>): (r: seq<int>)
    ensures SortedAsc(r) && multiset(r) == multiset(xs)
    ensures |r| == |xs|
  {
    if xs == [] then []
    else
      assert xs == [xs[0]] + xs[1..];
      Insert(xs[0], Sort(xs[1..]))
  }

  /** Python's `min(xs)` on a non-empty list. */
  function MinOf(xs: seq<int>): (m: int)
    requires |xs| > 0
    ensures m in xs
    ensures forall i :: 0 <= i < |xs| ==> m <= xs[i]
  {
    if |xs| == 1 then xs[0]
    else
      var rest := MinOf(xs[1..]);
      assert forall i :: 1 <= i < |xs| ==> xs[i] == xs[1..][i - 1];
      if xs[0] <= rest then xs[0] else rest
  }
}
