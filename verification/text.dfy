/** Optional values: `None` plays JavaScript's `undefined`/`null` result of a failed lookup or match. */
module Options {
  datatype Option<+T> = None | Some(value: T)
}

/** String helpers shared by the maintenance scripts: prefix/suffix tests, ASCII digits,
    JavaScript's `String(n)` for integers, `padStart(2, '0')`, and a leftmost fixed-width
    pattern search that stands for the scripts' unanchored regular expressions. */
module Text {
  import opened Options

  predicate StartsWith(s: string, prefix: string) {
    |prefix| <= |s| && s[..|prefix|] == prefix
  }

  predicate EndsWith(s: string, suffix: string) {
    |suffix| <= |s| && s[|s| - |suffix|..] == suffix
  }

  /** A concatenation starts with its first part and ends with its last. */
  lemma Affixes(p: string, m: string, q: string)
    ensures StartsWith(p + m + q, p) && EndsWith(p + m + q, q)
  {
    assert (p + m + q)[..|p|] == p;
    assert (p + m + q)[|p + m|..] == q;
  }

  /** `s.includes(part)` */
  predicate Contains(s: string, part: string)
    decreases |s|
  {
    StartsWith(s, part) || (|s| > 0 && Contains(s[1..], part))
  }

  /** `\d` of a JavaScript regular expression without the `u` flag */
  predicate IsDigit(c: char) {
    '0' <= c <= '9'
  }

  predicate AllDigits(s: string) {
    forall i :: 0 <= i < |s| ==> IsDigit(s[i])
  }

  function DigitChar(d: nat): (c: char)
    requires d < 10
    ensures IsDigit(c) && c as int - '0' as int == d
  {
    ('0' as int + d) as char
  }

  /** The number a string of decimal digits denotes (leading zeros allowed). */
  function DecimalValue(s: string): nat
    requires AllDigits(s)
  {
    if s == [] then 0
    else DecimalValue(s[..|s| - 1]) * 10 + (s[|s| - 1] as int - '0' as int)
  }

  /** `String(n)` for a non-negative integer: its decimal digits, without leading zeros. */
  function Decimal(n: nat): (r: string)
    ensures AllDigits(r) && DecimalValue(r) == n
    ensures |r| >= 1 && (r[0] == '0' ==> n == 0)
    ensures n < 10 ==> |r| == 1
    ensures 10 <= n < 100 ==> |r| == 2
    ensures 100 <= n < 1000 ==> |r| == 3
    ensures 1000 <= n < 10000 ==> |r| == 4
  {
    if n < 10 then [DigitChar(n)]
    else
      var r := Decimal(n / 10) + [DigitChar(n % 10)];
      assert r[..|r| - 1] == Decimal(n / 10);
      r
  }

  /** `String(n)` for any integer: a minus sign before the digits of a negative number. */
  function IntString(n: int): (r: string)
    ensures n >= 0 ==> r == Decimal(n)
    ensures n < 0 ==> r == "-" + Decimal(-n)
  {
    if n < 0 then "-" + Decimal(-n) else Decimal(n)
  }

  /** `s.padStart(2, '0')` */
  function PadStart2(s: string): (r: string)
    ensures |s| >= 2 ==> r == s
    ensures |s| < 2 ==> |r| == 2 && r[2 - |s|..] == s && forall i :: 0 <= i < 2 - |s| ==> r[i] == '0'
  {
    if |s| >= 2 then s else seq(2 - |s|, _ => '0') + s
  }

  /** Padding a digit string with leading zeros keeps the number it denotes. */
  lemma PadStart2Value(s: string)
    requires AllDigits(s)
    ensures AllDigits(PadStart2(s)) && DecimalValue(PadStart2(s)) == DecimalValue(s)
  {
    var r := PadStart2(s);
    if |s| == 1 {
      assert r == ['0', s[0]];
      assert r[..1] == ['0'];
      assert DecimalValue(['0']) == 0 by {
        assert ['0'][..0] == [];
      }
      assert s[..0] == [];
    } else if |s| == 0 {
      assert r == ['0', '0'];
      assert r[..1] == ['0'];
      assert ['0'][..0] == [];
    }
  }

  /** The two-character field that `padStart(2, '0')` makes of a number below 100. */
  lemma TwoDigitField(n: nat)
    requires n < 100
    ensures |PadStart2(Decimal(n))| == 2
    ensures AllDigits(PadStart2(Decimal(n))) && DecimalValue(PadStart2(Decimal(n))) == n
  {
    PadStart2Value(Decimal(n));
  }

  /** The `w` characters of `s` starting at `q` exist and satisfy `P`. */
  predicate MatchAt(s: string, w: nat, P: string -> bool, q: nat) {
    q + w <= |s| && P(s[q..q + w])
  }

  /** The leftmost position at or after `from` where the `w` characters of `s` satisfy `P`:
      how an unanchored fixed-width regular expression finds its (first) match. That it is
      the leftmost one is FirstWindowIsLeftmost. */
  function FirstWindow(s: string, w: nat, P: string -> bool, from: nat): (r: Option<nat>)
    decreases |s| - from
    ensures r.Some? ==> from <= r.value && r.value + w <= |s|
  {
    if from + w > |s| then None
    else if P(s[from..from + w]) then Some(from)
    else FirstWindow(s, w, P, from + 1)
  }

  /** FirstWindow finds a match, the leftmost one, and finds none exactly when there is none. */
  lemma {:induction false} FirstWindowIsLeftmost(s: string, w: nat, P: string -> bool, from: nat)
    decreases |s| - from
    ensures FirstWindow(s, w, P, from).Some? ==> MatchAt(s, w, P, FirstWindow(s, w, P, from).value)
    ensures FirstWindow(s, w, P, from).Some? ==>
              forall q: nat :: from <= q < FirstWindow(s, w, P, from).value ==> !MatchAt(s, w, P, q)
    ensures FirstWindow(s, w, P, from).None? <==> forall q: nat :: from <= q ==> !MatchAt(s, w, P, q)
  {
    if from + w > |s| {
    } else if P(s[from..from + w]) {
      assert MatchAt(s, w, P, from);
    } else {
      FirstWindowIsLeftmost(s, w, P, from + 1);
      assert !MatchAt(s, w, P, from);
    }
  }
}
