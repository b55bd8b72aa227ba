/**
 * The human-readable user identifier "BW-<yy><count>" minted by the user
 * document's pre-save hook, and the per-year counter behind it.
 */
module UserIds {
  import opened Results
  import opened Schema

  predicate IsDigit(c: char) {
    '0' <= c <= '9'
  }

  predicate AllDigits(s: string) {
    forall i :: 0 <= i < |s| ==> IsDigit(s[i])
  }

  function DigitChar(d: nat): (c: char)
    requires d < 10
    ensures IsDigit(c)
  {
    ('0' as int + d) as char
  }

  function DigitValue(c: char): (d: nat)
    requires IsDigit(c)
    ensures d < 10
    ensures DigitChar(d) == c
  {
    c as int - '0' as int
  }

  /** `String(n)` for a non-negative integer: its decimal digits, most significant first. */
  function DecimalString(n: nat): (s: string)
    ensures 1 <= |s|
    ensures AllDigits(s)
    decreases n
  {
    if n < 10 then [DigitChar(n)] else DecimalString(n / 10) + [DigitChar(n % 10)]
  }

  /** Reads a run of decimal digits (leading zeros allowed); the empty run reads as 0. */
  function ParseDecimal(s: string): nat
    requires AllDigits(s)
  {
    if |s| == 0 then 0 else ParseDecimal(s[..|s| - 1]) * 10 + DigitValue(s[|s| - 1])
  }

  function Pow10(k: nat): (p: nat)
    ensures 1 <= p
  {
    if k == 0 then 1 else 10 * Pow10(k - 1)
  }

  function Zeros(k: nat): (z: string)
    ensures |z| == k
    ensures forall i :: 0 <= i < k ==> z[i] == '0'
  {
    seq(k, _ => '0')
  }

  /** `String(n).padStart(3, "0")`. */
  function Pad3(n: nat): string {
    var d := DecimalString(n);
    if |d| >= 3 then d else Zeros(3 - |d|) + d
  }

  /** `String(year).slice(-2)`: the last two characters, or the whole string when shorter. */
  function YearSuffix(year: nat): string {
    var s := DecimalString(year);
    if |s| >= 2 then s[|s| - 2..] else s
  }

  /** The counter document name for a year, `user-<yy>`. */
  function CounterName(year: nat): string {
    "user-" + YearSuffix(year)
  }

  /** The identifier the hook assigns: "BW-" ++ yy ++ zero-padded count. */
  function FormatUserId(year: nat, count: nat): string {
    "BW-" + YearSuffix(year) + Pad3(count)
  }

  /**
   * Reads an identifier written for a year of at least two digits back
   * into its year suffix and count.
   */
  function ParseUserId(id: string): (r: Option<(string, nat)>)
    ensures r.Some? ==> |r.value.0| == 2 && AllDigits(r.value.0)
  {
    if 6 <= |id| && id[..3] == "BW-" && AllDigits(id[3..]) then
      Some((id[3..5], ParseDecimal(id[5..])))
    else
      None
  }

  /**
   * The atomic increment-with-upsert on the counter store: the counter
   * named `name` grows by one (an absent counter is created holding 1),
   * and the updated count is returned alongside the new counter map.
   */
  function Increment(counters: map<string, nat>, name: string): (r: (map<string, nat>, nat))
    ensures r.0.Keys == counters.Keys + {name}
    ensures name in r.0 && r.0[name] == r.1
    ensures name in counters ==> r.1 == counters[name] + 1
    ensures name !in counters ==> r.1 == 1
    ensures forall n :: n in counters && n != name ==> r.0[n] == counters[n]
  {
    var count := (if name in counters then counters[name] else 0) + 1;
    (counters[name := count], count)
  }

  /**
   * The pre-save hook. A new document gets `userID` from the year's counter;
   * saving an existing document changes neither it nor the counters.
   * `year` is the clock's full year at the moment of saving.
   */
  function PreSave(u: User, isNew: bool, counters: map<string, nat>, year: nat): (r: (User, map<string, nat>))
    ensures !isNew ==> r == (u, counters)
    ensures isNew ==> CounterName(year) in r.1
    ensures isNew ==> r.0 == u.(userID := Some(FormatUserId(year, r.1[CounterName(year)])))
    ensures isNew ==> r.1.Keys == counters.Keys + {CounterName(year)}
    ensures isNew && CounterName(year) in counters ==>
              r.1[CounterName(year)] == counters[CounterName(year)] + 1
    ensures isNew && CounterName(year) !in counters ==> r.1[CounterName(year)] == 1
    ensures forall n :: n in counters && n != CounterName(year) ==> r.1[n] == counters[n]
  {
    if isNew then
      var (counters', count) := Increment(counters, CounterName(year));
      (u.(userID := Some(FormatUserId(year, count))), counters')
    else
      (u, counters)
  }

  // ---------------------------------------------------------------------
  // Properties of the formatter
  // ---------------------------------------------------------------------

  /** Parsing the decimal rendering of `n` gives `n` back. */
  lemma {:induction false} ParseDecimalString(n: nat)
    ensures ParseDecimal(DecimalString(n)) == n
    decreases n
  {
    var s := DecimalString(n);
    if n >= 10 {
      assert s[..|s| - 1] == DecimalString(n / 10);
      ParseDecimalString(n / 10);
    }
  }

  /** A run of zeros reads as 0. */
  lemma {:induction false} ParseZeros(k: nat)
    ensures AllDigits(Zeros(k)) && ParseDecimal(Zeros(k)) == 0
  {
    if k > 0 {
      assert Zeros(k)[..k - 1] == Zeros(k - 1);
      ParseZeros(k - 1);
    }
  }

  /** Leading zeros do not change the value read. */
  lemma {:induction false} ParseLeadingZeros(k: nat, s: string)
    requires AllDigits(s)
    ensures AllDigits(Zeros(k) + s)
    ensures ParseDecimal(Zeros(k) + s) == ParseDecimal(s)
    decreases |s|
  {
    var t := Zeros(k) + s;
    assert AllDigits(t) by {
      forall i | 0 <= i < |t| ensures IsDigit(t[i]) {
        if i < k { assert t[i] == '0'; } else { assert t[i] == s[i - k]; }
      }
    }
    if |s| == 0 {
      assert t == Zeros(k);
      ParseZeros(k);
    } else {
      assert t[..|t| - 1] == Zeros(k) + s[..|s| - 1];
      ParseLeadingZeros(k, s[..|s| - 1]);
    }
  }

  /** The decimal rendering has at most `k` digits exactly when `n < 10^k`. */
  lemma {:induction false} DecimalLength(n: nat, k: nat)
    requires 1 <= k
    ensures |DecimalString(n)| <= k <==> n < Pow10(k)
    decreases n
  {
    if n >= 10 {
      if k == 1 {
        assert |DecimalString(n)| == |DecimalString(n / 10)| + 1;
      } else {
        DecimalLength(n / 10, k - 1);
        assert n / 10 < Pow10(k - 1) <==> n < Pow10(k) by {
          assert n == 10 * (n / 10) + n % 10;
          assert Pow10(k) == 10 * Pow10(k - 1);
        }
      }
    } else {
      assert Pow10(k) == 10 * Pow10(k - 1);
    }
  }

  /**
   * The padded count is all digits, reads back as the count, is never
   * shorter than three characters, is exactly three long iff the count is
   * below 1000, and from 1000 on is the plain decimal rendering.
   */
  lemma Pad3Shape(n: nat)
    ensures AllDigits(Pad3(n))
    ensures ParseDecimal(Pad3(n)) == n
    ensures 3 <= |Pad3(n)|
    ensures |Pad3(n)| == 3 <==> n < 1000
    ensures n >= 1000 ==> Pad3(n) == DecimalString(n)
  {
    var d := DecimalString(n);
    ParseDecimalString(n);
    DecimalLength(n, 3);
    if |d| < 3 {
      ParseLeadingZeros(3 - |d|, d);
    }
  }

  /** The last decimal digit of `n` is `n % 10`. */
  lemma LastDigit(n: nat)
    ensures DecimalString(n)[|DecimalString(n)| - 1] == DigitChar(n % 10)
  {
  }

  /**
   * From year 10 on, the suffix is the tens digit followed by the units
   * digit, so years a century apart share a suffix and a counter.
   */
  lemma YearSuffixDigits(year: nat)
    requires 10 <= year
    ensures YearSuffix(year) == [DigitChar(year / 10 % 10), DigitChar(year % 10)]
    ensures YearSuffix(year) == YearSuffix(year + 100)
  {
    var s := DecimalString(year);
    assert s == DecimalString(year / 10) + [DigitChar(year % 10)];
    LastDigit(year / 10);
    var s' := DecimalString(year + 100);
    assert s' == DecimalString((year + 100) / 10) + [DigitChar((year + 100) % 10)];
    LastDigit((year + 100) / 10);
    assert (year + 100) / 10 % 10 == year / 10 % 10;
  }

  /** For one year, different counts always give different identifiers. */
  lemma FormatUserIdInjective(year: nat, c1: nat, c2: nat)
    requires FormatUserId(year, c1) == FormatUserId(year, c2)
    ensures c1 == c2
  {
    var p := "BW-" + YearSuffix(year);
    assert Pad3(c1) == FormatUserId(year, c1)[|p|..];
    assert Pad3(c2) == FormatUserId(year, c2)[|p|..];
    Pad3Shape(c1);
    Pad3Shape(c2);
  }

  /** An identifier minted in a year of two or more digits parses back to its suffix and count. */
  lemma ParseFormatUserId(year: nat, count: nat)
    requires 10 <= year
    ensures ParseUserId(FormatUserId(year, count)) == Some((YearSuffix(year), count))
  {
    var yy := YearSuffix(year);
    var id := FormatUserId(year, count);
    YearSuffixDigits(year);
    Pad3Shape(count);
    assert id[..3] == "BW-";
    assert id[3..5] == yy;
    assert id[5..] == Pad3(count);
    assert id[3..] == yy + Pad3(count);
  }
}
