/**
 * The text side of get_usd_rate: find every capture of the rate pattern
 * in the fetched page, take the second one, turn its decimal comma into a
 * dot and convert it with float().
 */
module RateFetcher {
  import opened Wrappers

  /**
   * The literal part of the rate pattern; it holds no regex metacharacter.
   * Proof note: long string literals are costly to reason about, so this
   * one is built from short pieces, and the sample-rate lemmas below take
   * their literal as a parameter.
   */
  const Prefix: string := "<" + "div class=" + "\"col-md-2 " + "col-xs-9 " + "_right " + "mono-num\">"

  /** The page lists several rates; the USD one is the second capture. */
  const RateIndex: nat := 1

  /** An exact decimal number mantissa / 10^scale. */
  datatype Decimal = Decimal(mantissa: int, scale: nat)

  /** What get_usd_rate can raise. */
  datatype RateError =
    | FetchFailed     // requests.get raised (network failure)
    | TooFewMatches   // IndexError on curr[1]
    | NotAFloat       // ValueError from float()

  /** The outcome of requests.get(USD_SITE): the page text or a failure. */
  datatype Fetch = Fetched(text: string) | Unreachable

  function Pow10(n: nat): (p: nat)
    ensures p >= 1
  {
    if n == 0 then 1 else 10 * Pow10(n - 1)
  }

  function DecimalValue(d: Decimal): real
  {
    d.mantissa as real / Pow10(d.scale) as real
  }

  // ---------------------------------------------------------------------
  // Characters

  predicate IsDigit(c: char) { '0' <= c <= '9' }

  /** The character class [0-9,] of the capture group. */
  predicate IsRateChar(c: char) { IsDigit(c) || c == ',' }

  predicate AllRateChars(s: string)
  {
    forall k :: 0 <= k < |s| ==> IsRateChar(s[k])
  }

  predicate AllDigitsOrDots(s: string)
  {
    forall k :: 0 <= k < |s| ==> IsDigit(s[k]) || s[k] == '.'
  }

  predicate HasDigit(s: string)
  {
    exists k :: 0 <= k < |s| && IsDigit(s[k])
  }

  function Count(s: string, c: char): nat
  {
    if s == [] then 0 else (if s[0] == c then 1 else 0) + Count(s[1..], c)
  }

  /** s with every occurrence of c taken out. */
  function RemoveAll(s: string, c: char): (r: string)
    ensures forall k :: 0 <= k < |r| ==> r[k] != c && r[k] in s
  {
    if s == [] then []
    else (if s[0] == c then [] else [s[0]]) + RemoveAll(s[1..], c)
  }

  /** The number of characters after the first c in s; 0 when s has no c. */
  function LengthAfter(s: string, c: char): nat
  {
    if s == [] then 0 else if s[0] == c then |s| - 1 else LengthAfter(s[1..], c)
  }

  // ---------------------------------------------------------------------
  // re.findall

  /** The prefix occurs in s starting at position i. */
  predicate OccursAt(s: string, i: nat)
  {
    i + |Prefix| <= |s| && s[i..i + |Prefix|] == Prefix
  }

  /**
   * The end of the greedy run [0-9,]* that starts at j: the capture is
   * s[j..e], it holds only rate characters and cannot be extended.
   */
  function RunEnd(s: string, j: nat): (e: nat)
    requires j <= |s|
    ensures j <= e <= |s|
    ensures forall k :: j <= k < e ==> IsRateChar(s[k])
    ensures e == |s| || !IsRateChar(s[e])
    decreases |s| - j
  {
    if j < |s| && IsRateChar(s[j]) then RunEnd(s, j + 1) else j
  }

  /** RunEnd is the only end a maximal run of rate characters can have. */
  lemma RunEndAt(s: string, j: nat, e: nat)
    requires j <= e <= |s|
    requires forall k :: j <= k < e ==> IsRateChar(s[k])
    requires e == |s| || !IsRateChar(s[e])
    ensures RunEnd(s, j) == e
  {
  }

  /** The group captured by a match whose prefix starts at i. */
  function Capture(s: string, i: nat): (c: string)
    requires i + |Prefix| <= |s|
    ensures AllRateChars(c)
  {
    s[i + |Prefix|..RunEnd(s, i + |Prefix|)]
  }

  /**
   * re.findall from position i: try to match at i; after a match resume at
   * its end, otherwise try i + 1. Each element is the captured group.
   */
  function FindAllFrom(s: string, i: nat): (caps: seq<string>)
    ensures forall k :: 0 <= k < |caps| ==> AllRateChars(caps[k])
    decreases |s| - i
  {
    if i + |Prefix| > |s| then []
    else if OccursAt(s, i) then
      var e := RunEnd(s, i + |Prefix|);
      [Capture(s, i)] + FindAllFrom(s, e)
    else FindAllFrom(s, i + 1)
  }

  function FindAll(s: string): (caps: seq<string>)
    ensures forall k :: 0 <= k < |caps| ==> AllRateChars(caps[k])
  {
    FindAllFrom(s, 0)
  }

  /**
   * Reference definition: every position at or after i where the prefix
   * occurs, in increasing order, found by testing each position alone.
   */
  function PositionsFrom(s: string, i: nat): (ps: seq<nat>)
    ensures forall k :: 0 <= k < |ps| ==> i <= ps[k] && OccursAt(s, ps[k])
    ensures forall k, l :: 0 <= k < l < |ps| ==> ps[k] < ps[l]
    ensures forall j :: i <= j && OccursAt(s, j) ==> j in ps
    decreases |s| - i
  {
    if i + |Prefix| > |s| then []
    else (if OccursAt(s, i) then [i] else []) + PositionsFrom(s, i + 1)
  }

  /** Only the first character of the prefix is a '<'. */
  lemma PrefixOpensOnce()
    ensures Prefix[0] == '<'
    ensures forall k :: 0 < k < |Prefix| ==> Prefix[k] != '<'
  {
  }

  /** Every occurrence of the prefix starts with a '<'. */
  lemma OccurrenceStartsWithOpen(s: string, j: nat)
    ensures OccursAt(s, j) ==> s[j] == '<'
  {
    if OccursAt(s, j) {
      PrefixOpensOnce();
      assert s[j] == s[j..j + |Prefix|][0];
    }
  }

  /** A match cannot start inside the prefix or the capture of an earlier match. */
  lemma NoOccurrenceInsideMatch(s: string, i: nat, j: nat)
    requires OccursAt(s, i)
    requires i < j < RunEnd(s, i + |Prefix|)
    ensures !OccursAt(s, j)
  {
    PrefixOpensOnce();
    if j < i + |Prefix| {
      assert s[j] == s[i..i + |Prefix|][j - i] == Prefix[j - i];
    }
    assert s[j] != '<';
    OccurrenceStartsWithOpen(s, j);
  }

  /** Positions with no occurrence can be skipped. */
  lemma {:induction false} SkipPositions(s: string, a: nat, b: nat)
    requires a <= b
    requires forall j :: a <= j < b ==> !OccursAt(s, j)
    ensures PositionsFrom(s, a) == PositionsFrom(s, b)
    decreases b - a
  {
    if a < b {
      SkipPositions(s, a + 1, b);
      if a + |Prefix| <= |s| {
        assert PositionsFrom(s, a) == [] + PositionsFrom(s, a + 1);
      } else {
        assert PositionsFrom(s, a + 1) == [];
        assert PositionsFrom(s, b) == [];
      }
    }
  }

  /** After an occurrence at i the next candidates start where its capture ends. */
  lemma PositionsAfterMatch(s: string, i: nat)
    requires OccursAt(s, i)
    ensures PositionsFrom(s, i) == [i] + PositionsFrom(s, RunEnd(s, i + |Prefix|))
  {
    var e := RunEnd(s, i + |Prefix|);
    forall j | i + 1 <= j < e ensures !OccursAt(s, j) {
      NoOccurrenceInsideMatch(s, i, j);
    }
    SkipPositions(s, i + 1, e);
  }

  /** The captures that follow the given occurrences, in the same order. */
  function CapturesAt(s: string, ps: seq<nat>): (caps: seq<string>)
    requires forall k :: 0 <= k < |ps| ==> ps[k] + |Prefix| <= |s|
    ensures |caps| == |ps|
    ensures forall k :: 0 <= k < |ps| ==> caps[k] == Capture(s, ps[k])
  {
    if ps == [] then [] else [Capture(s, ps[0])] + CapturesAt(s, ps[1..])
  }

  /**
   * findall is faithful to the reference: it returns one capture for every
   * occurrence of the prefix, in order, none skipped and none invented.
   */
  lemma {:induction false} FindAllMatchesOccurrences(s: string, i: nat)
    ensures FindAllFrom(s, i) == CapturesAt(s, PositionsFrom(s, i))
    decreases |s| - i
  {
    if i + |Prefix| > |s| {
    } else if OccursAt(s, i) {
      var e := RunEnd(s, i + |Prefix|);
      FindAllMatchesOccurrences(s, e);
      PositionsAfterMatch(s, i);
      var ps := PositionsFrom(s, e);
      assert ([i] + ps)[1..] == ps;
    } else {
      FindAllMatchesOccurrences(s, i + 1);
      assert PositionsFrom(s, i) == [] + PositionsFrom(s, i + 1);
    }
  }

  // ---------------------------------------------------------------------
  // curr[1]

  function SelectRate(caps: seq<string>): Result<string, RateError>
  {
    if |caps| <= RateIndex then Err(TooFewMatches) else Ok(caps[RateIndex])
  }

  // ---------------------------------------------------------------------
  // str.replace(',', '.')

  function ReplaceCommas(t: string): (r: string)
    ensures |r| == |t|
    ensures forall k :: 0 <= k < |t| ==> r[k] == (if t[k] == ',' then '.' else t[k])
  {
    if t == [] then [] else [if t[0] == ',' then '.' else t[0]] + ReplaceCommas(t[1..])
  }

  /** Replacing turns a capture into digits and dots, one dot per comma. */
  lemma {:induction false} ReplaceCommasOfCapture(t: string)
    requires AllRateChars(t)
    ensures AllDigitsOrDots(ReplaceCommas(t))
    ensures HasDigit(ReplaceCommas(t)) <==> HasDigit(t)
    ensures Count(ReplaceCommas(t), '.') == Count(t, ',')
    ensures RemoveAll(ReplaceCommas(t), '.') == RemoveAll(t, ',')
    ensures LengthAfter(ReplaceCommas(t), '.') == LengthAfter(t, ',')
  {
    var r := ReplaceCommas(t);
    if HasDigit(t) {
      var k :| 0 <= k < |t| && IsDigit(t[k]);
      assert IsDigit(r[k]);
    }
    if HasDigit(r) {
      var k :| 0 <= k < |r| && IsDigit(r[k]);
      assert IsDigit(t[k]);
    }
    if t != [] {
      ReplaceCommasOfCapture(t[1..]);
      assert r[1..] == ReplaceCommas(t[1..]);
    }
  }

  // ---------------------------------------------------------------------
  // float() on a string of digits and dots

  function DigitValue(c: char): nat
    requires IsDigit(c)
  {
    (c as int) - ('0' as int)
  }

  /** The value of the digit string s appended to the accumulated value acc. */
  function DigitsValueFrom(acc: nat, s: string): nat
    requires forall k :: 0 <= k < |s| ==> IsDigit(s[k])
    decreases s
  {
    if s == [] then acc else DigitsValueFrom(acc * 10 + DigitValue(s[0]), s[1..])
  }

  /**
   * float() scanning t from position i: acc holds the digits read so far,
   * frac the number of digits after the dot once a dot was seen, sawDigit
   * whether a digit was read. A second dot, or no digit at all, is a
   * ValueError.
   */
  function ScanFloat(t: string, i: nat, acc: nat, frac: Option<nat>, sawDigit: bool): (r: Result<Decimal, RateError>)
    requires i <= |t|
    requires AllDigitsOrDots(t)
    ensures r.Ok? ==> r.value.mantissa >= 0
    ensures r.Err? ==> r.error == NotAFloat
    decreases |t| - i
  {
    if i == |t| then
      if sawDigit then Ok(Decimal(acc, if frac.Some? then frac.value else 0)) else Err(NotAFloat)
    else if t[i] == '.' then
      if frac.Some? then Err(NotAFloat) else ScanFloat(t, i + 1, acc, Some(0), sawDigit)
    else
      ScanFloat(t, i + 1, acc * 10 + DigitValue(t[i]), if frac.Some? then Some(frac.value + 1) else None, true)
  }

  /** The scan succeeds exactly when a digit is seen and at most one dot. */
  lemma {:induction false} ScanFloatSucceeds(t: string, i: nat, acc: nat, frac: Option<nat>, sawDigit: bool)
    requires i <= |t|
    requires AllDigitsOrDots(t)
    ensures ScanFloat(t, i, acc, frac, sawDigit).Ok? <==>
              (sawDigit || HasDigit(t[i..])) &&
              Count(t[i..], '.') + (if frac.Some? then 1 else 0) <= 1
    decreases |t| - i
  {
    if i < |t| {
      assert t[i..][1..] == t[i + 1..];
      assert HasDigit(t[i..]) <==> IsDigit(t[i]) || HasDigit(t[i + 1..]) by {
        if HasDigit(t[i + 1..]) {
          var k :| 0 <= k < |t[i + 1..]| && IsDigit(t[i + 1..][k]);
          assert t[i..][k + 1] == t[i + 1..][k];
        }
        if HasDigit(t[i..]) && !IsDigit(t[i]) {
          var k :| 0 <= k < |t[i..]| && IsDigit(t[i..][k]);
          assert k > 0 && t[i + 1..][k - 1] == t[i..][k];
        }
      }
      if t[i] == '.' {
        if frac.None? {
          ScanFloatSucceeds(t, i + 1, acc, Some(0), sawDigit);
        }
      } else {
        ScanFloatSucceeds(t, i + 1, acc * 10 + DigitValue(t[i]),
                          if frac.Some? then Some(frac.value + 1) else None, true);
      }
    }
  }

  /** Without a dot yet, s has no dot and its digits are all of it. */
  lemma {:induction false} RemoveAllAbsent(s: string, c: char)
    requires Count(s, c) == 0
    ensures RemoveAll(s, c) == s
  {
    if s != [] {
      RemoveAllAbsent(s[1..], c);
    }
  }

  /** Taking the dots out of a text of digits and dots leaves only digits. */
  lemma DigitsAfterRemoval(s: string)
    requires AllDigitsOrDots(s)
    ensures forall k :: 0 <= k < |RemoveAll(s, '.')| ==> IsDigit(RemoveAll(s, '.')[k])
  {
    forall k | 0 <= k < |RemoveAll(s, '.')| ensures IsDigit(RemoveAll(s, '.')[k]) {
      var j :| 0 <= j < |s| && s[j] == RemoveAll(s, '.')[k];
    }
  }

  /** After a leading dot, a dotless rest is both the digits and the fraction. */
  lemma DottedRest(u: string)
    requires |u| > 0 && u[0] == '.' && Count(u[1..], '.') == 0
    ensures RemoveAll(u, '.') == u[1..]
    ensures LengthAfter(u, '.') == |u[1..]|
  {
    RemoveAllAbsent(u[1..], '.');
    assert RemoveAll(u, '.') == [] + RemoveAll(u[1..], '.');
  }

  /**
   * A successful scan yields the digits read so far followed by the digits
   * still to come, with the digits after the dot as its scale.
   */
  lemma {:induction false} ScanFloatValue(t: string, i: nat, acc: nat, frac: Option<nat>, sawDigit: bool)
    requires i <= |t|
    requires AllDigitsOrDots(t)
    requires ScanFloat(t, i, acc, frac, sawDigit).Ok?
    ensures forall k :: 0 <= k < |RemoveAll(t[i..], '.')| ==> IsDigit(RemoveAll(t[i..], '.')[k])
    ensures ScanFloat(t, i, acc, frac, sawDigit).value ==
            Decimal(DigitsValueFrom(acc, RemoveAll(t[i..], '.')),
                    if frac.Some? then frac.value + |RemoveAll(t[i..], '.')| else LengthAfter(t[i..], '.'))
    decreases |t| - i
  {
    var u := t[i..];
    DigitsAfterRemoval(u);
    if i < |t| {
      assert u[1..] == t[i + 1..];
      if t[i] == '.' {
        ScanFloatValue(t, i + 1, acc, Some(0), sawDigit);
        ScanFloatSucceeds(t, i + 1, acc, Some(0), sawDigit);
        DottedRest(u);
        assert frac.None?;
        assert ScanFloat(t, i, acc, frac, sawDigit) == ScanFloat(t, i + 1, acc, Some(0), sawDigit);
        assert RemoveAll(t[i + 1..], '.') == t[i + 1..];
        assert RemoveAll(u, '.') == t[i + 1..];
        assert LengthAfter(u, '.') == |t[i + 1..]|;
      } else {
        ScanFloatValue(t, i + 1, acc * 10 + DigitValue(t[i]), AddDigits(frac, 1), true);
        var r := RemoveAll(t[i + 1..], '.');
        assert RemoveAll(u, '.') == [t[i]] + r;
        assert ([t[i]] + r)[1..] == r;
      }
    }
  }

  /**
   * Python's float() applied to a text made only of digits and dots: it
   * succeeds exactly when there is a digit and at most one dot, and then
   * the value is the digits read as one number, scaled by the digits after
   * the dot.
   */
  function ParseFloat(t: string): (r: Result<Decimal, RateError>)
    requires AllDigitsOrDots(t)
    ensures r.Ok? <==> HasDigit(t) && Count(t, '.') <= 1
    ensures forall k :: 0 <= k < |RemoveAll(t, '.')| ==> IsDigit(RemoveAll(t, '.')[k])
    ensures r.Ok? ==> r.value == Decimal(DigitsValueFrom(0, RemoveAll(t, '.')), LengthAfter(t, '.'))
  {
    assert t[0..] == t;
    ScanFloatSucceeds(t, 0, 0, None, false);
    var r := ScanFloat(t, 0, 0, None, false);
    if r.Ok? then ScanFloatValue(t, 0, 0, None, false); r else r
  }

  // ---------------------------------------------------------------------
  // The inverse of float(): printing a non-negative decimal

  function DigitChar(n: nat): (c: char)
    requires n < 10
    ensures IsDigit(c) && DigitValue(c) == n
  {
    ('0' as int + n) as char
  }

  /** The decimal digits of n, most significant first. */
  function DigitsOf(n: nat): (s: string)
    ensures |s| >= 1
    ensures forall k :: 0 <= k < |s| ==> IsDigit(s[k])
  {
    if n < 10 then [DigitChar(n)] else DigitsOf(n / 10) + [DigitChar(n % 10)]
  }

  function Zeros(k: nat): (s: string)
    ensures |s| == k && forall i :: 0 <= i < k ==> s[i] == '0'
  {
    if k == 0 then [] else ['0'] + Zeros(k - 1)
  }

  /** The digits of the mantissa, left-padded so that one digit precedes the dot. */
  function PaddedDigits(d: Decimal): (s: string)
    requires d.mantissa >= 0
    ensures |s| > d.scale
    ensures forall k :: 0 <= k < |s| ==> IsDigit(s[k])
  {
    var ds := DigitsOf(d.mantissa);
    if |ds| > d.scale then ds else Zeros(d.scale + 1 - |ds|) + ds
  }

  /** A non-negative decimal written with a dot before its last scale digits. */
  function FormatDecimal(d: Decimal): (t: string)
    requires d.mantissa >= 0
    ensures AllDigitsOrDots(t)
  {
    var p := PaddedDigits(d);
    if d.scale == 0 then p else p[..|p| - d.scale] + "." + p[|p| - d.scale..]
  }

  lemma {:induction false} DigitsValueConcat(acc: nat, a: string, b: string)
    requires forall k :: 0 <= k < |a| ==> IsDigit(a[k])
    requires forall k :: 0 <= k < |b| ==> IsDigit(b[k])
    ensures forall k :: 0 <= k < |a + b| ==> IsDigit((a + b)[k])
    ensures DigitsValueFrom(acc, a + b) == DigitsValueFrom(DigitsValueFrom(acc, a), b)
    decreases |a|
  {
    if a != [] {
      DigitsValueConcat(acc * 10 + DigitValue(a[0]), a[1..], b);
      assert (a + b)[1..] == a[1..] + b;
    } else {
      assert a + b == b;
    }
  }

  /** Leading zeros do not change the value. */
  lemma {:induction false} DigitsValueZeros(k: nat, s: string)
    requires forall i :: 0 <= i < |s| ==> IsDigit(s[i])
    ensures forall i :: 0 <= i < |Zeros(k) + s| ==> IsDigit((Zeros(k) + s)[i])
    ensures DigitsValueFrom(0, Zeros(k) + s) == DigitsValueFrom(0, s)
  {
    if k > 0 {
      DigitsValueZeros(k - 1, s);
      assert (Zeros(k) + s)[1..] == Zeros(k - 1) + s;
    } else {
      assert Zeros(k) + s == s;
    }
  }

  lemma {:induction false} DigitsOfValue(n: nat)
    ensures DigitsValueFrom(0, DigitsOf(n)) == n
  {
    if n >= 10 {
      DigitsOfValue(n / 10);
      DigitsValueConcat(0, DigitsOf(n / 10), [DigitChar(n % 10)]);
    }
  }

  function AddDigits(frac: Option<nat>, n: nat): Option<nat>
  {
    if frac.Some? then Some(frac.value + n) else None
  }

  /** Scanning a run of digits only accumulates their value. */
  lemma {:induction false} ScanFloatDigits(t: string, i: nat, j: nat, acc: nat, frac: Option<nat>, sawDigit: bool)
    requires i <= j <= |t|
    requires AllDigitsOrDots(t)
    requires forall k :: i <= k < j ==> IsDigit(t[k])
    ensures forall k :: 0 <= k < |t[i..j]| ==> IsDigit(t[i..j][k])
    ensures ScanFloat(t, i, acc, frac, sawDigit) ==
            ScanFloat(t, j, DigitsValueFrom(acc, t[i..j]), AddDigits(frac, j - i), sawDigit || i < j)
    decreases j - i
  {
    if i < j {
      ScanFloatDigits(t, i + 1, j, acc * 10 + DigitValue(t[i]), AddDigits(frac, 1), true);
      assert t[i..j][1..] == t[i + 1..j];
    }
  }

  lemma PaddedDigitsValue(d: Decimal)
    requires d.mantissa >= 0
    ensures DigitsValueFrom(0, PaddedDigits(d)) == d.mantissa
  {
    var ds := DigitsOf(d.mantissa);
    DigitsOfValue(d.mantissa);
    if |ds| <= d.scale {
      DigitsValueZeros(d.scale + 1 - |ds|, ds);
    }
  }

  /** float() reads back exactly the decimal that was printed. */
  lemma ParseFormatRoundTrip(d: Decimal)
    requires d.mantissa >= 0
    ensures ParseFloat(FormatDecimal(d)) == Ok(d)
  {
    PaddedDigitsValue(d);
    var p := PaddedDigits(d);
    if d.scale == 0 {
      ScanFloatDigits(p, 0, |p|, 0, None, false);
      assert p[0..|p|] == p;
    } else {
      var a := |p| - d.scale;
      ParseDottedRoundTrip(p[..a], p[a..]);
      assert p[..a] + p[a..] == p;
    }
  }

  /** Digits x, a dot, digits y: float() reads the digits of x + y with |y| after the dot. */
  lemma {:induction false} ParseDottedRoundTrip(x: string, y: string)
    requires |x| > 0
    requires forall k :: 0 <= k < |x| ==> IsDigit(x[k])
    requires forall k :: 0 <= k < |y| ==> IsDigit(y[k])
    ensures AllDigitsOrDots(x + "." + y)
    ensures forall k :: 0 <= k < |x + y| ==> IsDigit((x + y)[k])
    ensures ParseFloat(x + "." + y) == Ok(Decimal(DigitsValueFrom(0, x + y), |y|))
  {
    var t := x + "." + y;
    var a := |x|;
    assert t[0..a] == x;
    assert t[a] == '.';
    assert t[a + 1..|t|] == y;
    ScanFloatDigits(t, 0, a, 0, None, false);
    ScanFloatDigits(t, a + 1, |t|, DigitsValueFrom(0, x), Some(0), true);
    DigitsValueConcat(0, x, y);
  }

  // ---------------------------------------------------------------------
  // get_usd_rate

  /** The captured text, comma replaced, converted with float(). */
  function ConvertCapture(c: string): (r: Result<Decimal, RateError>)
    requires AllRateChars(c)
    ensures r.Ok? <==> HasDigit(c) && Count(c, ',') <= 1
    ensures r.Err? ==> r.error == NotAFloat
    ensures forall k :: 0 <= k < |RemoveAll(c, ',')| ==> IsDigit(RemoveAll(c, ',')[k])
    ensures r.Ok? ==> r.value == Decimal(DigitsValueFrom(0, RemoveAll(c, ',')), LengthAfter(c, ','))
  {
    ReplaceCommasOfCapture(c);
    ParseFloat(ReplaceCommas(c))
  }

  /** get_usd_rate with the fetched page, or the fetch failure, as input. */
  function GetUsdRate(page: Fetch): (r: Result<Decimal, RateError>)
    ensures r == Err(FetchFailed) <==> page.Unreachable?
    ensures r.Ok? ==> r.value.mantissa >= 0
  {
    match page
    case Unreachable => Err(FetchFailed)
    case Fetched(text) =>
      var selected := SelectRate(FindAll(text));
      if selected.Err? then Err(selected.error) else ConvertCapture(selected.value)
  }

  /**
   * The rate is read from the run of [0-9,] after the second occurrence of
   * the prefix: it fails with IndexError when the prefix occurs fewer than
   * twice, and otherwise with ValueError exactly when that run holds no
   * digit or more than one comma.
   */
  lemma GetUsdRateSpec(text: string)
    ensures var ps := PositionsFrom(text, 0);
      && (|ps| < 2 <==> GetUsdRate(Fetched(text)) == Err(TooFewMatches))
      && (|ps| >= 2 ==> GetUsdRate(Fetched(text)) == ConvertCapture(Capture(text, ps[1])))
      && (GetUsdRate(Fetched(text)).Ok? <==>
            |ps| >= 2 && HasDigit(Capture(text, ps[1])) && Count(Capture(text, ps[1]), ',') <= 1)
  {
    FindAllMatchesOccurrences(text, 0);
  }

  /** A match at i whose capture is c: findall yields c and resumes after it. */
  lemma FindAllFromMatch(s: string, i: nat, c: string)
    requires OccursAt(s, i)
    requires i + |Prefix| + |c| <= |s| && s[i + |Prefix|..i + |Prefix| + |c|] == c
    requires AllRateChars(c)
    requires i + |Prefix| + |c| == |s| || !IsRateChar(s[i + |Prefix| + |c|])
    ensures FindAllFrom(s, i) == [c] + FindAllFrom(s, i + |Prefix| + |c|)
  {
    var j := i + |Prefix|;
    assert forall k :: j <= k < j + |c| ==> s[k] == c[k - j];
    RunEndAt(s, j, j + |c|);
  }

  /** Two adjacent matches: the second capture is the one converted. */
  lemma SecondMatchConverted(s: string, a: string, b: string)
    requires AllRateChars(a) && AllRateChars(b)
    requires OccursAt(s, 0) && |Prefix| + |a| <= |s| && s[|Prefix|..|Prefix| + |a|] == a
    requires OccursAt(s, |Prefix| + |a|)
    requires 2 * |Prefix| + |a| + |b| <= |s| && s[2 * |Prefix| + |a|..2 * |Prefix| + |a| + |b|] == b
    requires 2 * |Prefix| + |a| + |b| == |s| || !IsRateChar(s[2 * |Prefix| + |a| + |b|])
    ensures GetUsdRate(Fetched(s)) == ConvertCapture(b)
  {
    var i := |Prefix| + |a|;
    OccurrenceStartsWithOpen(s, i);
    FindAllFromMatch(s, 0, a);
    FindAllFromMatch(s, i, b);
    assert FindAll(s)[1] == b;
  }

  /** The run after the first prefix is skipped; the run after the second is the rate. */
  lemma SecondOccurrenceSelected(page: string, a: string, b: string, tail: string)
    requires page == Prefix + a + Prefix + b + tail
    requires AllRateChars(a) && AllRateChars(b)
    requires tail == [] || !IsRateChar(tail[0])
    ensures GetUsdRate(Fetched(page)) == ConvertCapture(b)
  {
    var n := |Prefix|;
    assert page[0..n] == Prefix;
    assert page[n..n + |a|] == a;
    var i := n + |a|;
    assert page[i..i + n] == Prefix;
    assert page[i + n..i + n + |b|] == b;
    assert i + n + |b| < |page| ==> page[i + n + |b|] == tail[0];
    SecondMatchConverted(page, a, b);
  }

  /** A page whose second rate reads 73,3092 gives 73.3092 roubles per dollar. */
  lemma RateOfSamplePage(page: string, first: string, rate: string, tail: string)
    requires rate == "73,3092"
    requires AllRateChars(first) && (tail == [] || !IsRateChar(tail[0]))
    requires page == Prefix + first + Prefix + rate + tail
    ensures GetUsdRate(Fetched(page)) == Ok(Decimal(733092, 4))
  {
    SampleRateConverts(rate);
    SecondOccurrenceSelected(page, first, rate, tail);
  }

  lemma SampleRateConverts(c: string)
    requires c == "73,3092"
    ensures ConvertCapture(c) == Ok(Decimal(733092, 4))
  {
    var t := ReplaceCommas(c);
    assert t == "73.3092";
    var d := Decimal(733092, 4);
    assert DigitsOf(733092) == "733092" by {
      assert DigitsOf(7) == "7";
      assert DigitsOf(73) == "73";
      assert DigitsOf(733) == "733";
      assert DigitsOf(7330) == "7330";
      assert DigitsOf(73309) == "73309";
    }
    assert FormatDecimal(d) == "73.3092";
    ParseFormatRoundTrip(d);
  }

  /** The sample rate is the number 73.3092. */
  lemma SampleRateValue()
    ensures DecimalValue(Decimal(733092, 4)) == 73.3092
  {
    assert Pow10(4) == 10000;
  }
}
