/**
 * The session clock (hooks/use-session-timer.ts): the elapsed-seconds field
 * the one-second interval overwrites, and `formatTime`, which renders a
 * number of seconds as `H:MM:SS` from one hour on and as `M:SS` below.
 */
module SessionTimer {
  import opened Wrappers

  predicate IsDigit(c: char)
  {
    '0' <= c <= '9'
  }

  predicate AllDigits(s: string)
  {
    forall i :: 0 <= i < |s| ==> IsDigit(s[i])
  }

  function DigitChar(d: int): (c: char)
    requires 0 <= d < 10
    ensures IsDigit(c)
    ensures c as int == '0' as int + d
  {
    ('0' as int + d) as char
  }

  /** `n.toString()` for `n >= 0`: decimal digits, no leading zero. */
  function NatToString(n: nat): (r: string)
    ensures |r| >= 1 && AllDigits(r)
    ensures |r| == 1 <==> n < 10
  {
    if n < 10 then [DigitChar(n)] else NatToString(n / 10) + [DigitChar(n % 10)]
  }

  /** `i.toString()` for any integer. */
  function IntToString(i: int): string
  {
    if i < 0 then "-" + NatToString(-i) else NatToString(i)
  }

  /** `str.padStart(2, '0')`. */
  function PadStart2(str: string): (r: string)
    ensures |r| == if |str| < 2 then 2 else |str|
  {
    if |str| >= 2 then str else seq(2 - |str|, _ => '0') + str
  }

  /** JavaScript's `%` for a positive divisor: the remainder takes the sign of the dividend. */
  function Rem(a: int, b: int): (r: int)
    requires b > 0
    ensures a >= 0 ==> r == a % b
    ensures a < 0 ==> -b < r <= 0
    ensures (a - r) % b == 0
  {
    if a >= 0 then
      MultipleRem(a / b, b);
      a % b
    else
      NegativeRem(-a, b);
      -((-a) % b)
  }

  /** Adding back the remainder of `n` to `-n` gives a multiple of `b`. */
  lemma NegativeRem(n: int, b: int)
    requires n >= 0 && b > 0
    ensures (-n + n % b) % b == 0
  {
    var q := n / b;
    assert -n + n % b == b * -q;
    MultipleRem(-q, b);
  }

  /** A multiple of `b` leaves no remainder. */
  lemma MultipleRem(k: int, b: int)
    requires b > 0
    ensures (b * k) % b == 0
  {
    var x := k - (b * k) / b;
    assert b * x == (b * k) % b;
  }

  /**
   * `formatTime(seconds)`. `Math.floor` of a quotient by a positive divisor
   * is Dafny's `/`; the `%` of the source is `Rem`.
   */
  function FormatTime(seconds: int): string
  {
    var hrs := seconds / 3600;
    var mins := Rem(seconds, 3600) / 60;
    var secs := Rem(seconds, 60);
    if hrs > 0 then
      IntToString(hrs) + ":" + PadStart2(IntToString(mins)) + ":" + PadStart2(IntToString(secs))
    else
      IntToString(mins) + ":" + PadStart2(IntToString(secs))
  }

  /** The hours, minutes and seconds of a non-negative duration. */
  function Components(s: nat): (r: (nat, nat, nat))
    ensures r.0 * 3600 + r.1 * 60 + r.2 == s
    ensures r.1 < 60 && r.2 < 60
    ensures r.0 == 0 <==> s < 3600
  {
    var h := s / 3600;
    var rest := s % 3600;
    assert s == h * 3600 + rest;
    (h, rest / 60, rest % 60)
  }

  // ---- Reading a rendered duration back ----

  /** `s.split(':')`. */
  function SplitColon(s: string): (r: seq<string>)
    ensures |r| >= 1
  {
    if s == [] then [""]
    else
      var rest := SplitColon(s[1..]);
      if s[0] == ':' then [""] + rest else [[s[0]] + rest[0]] + rest[1..]
  }

  /** The value of a string read as decimal digits. */
  function DigitsValue(s: string): int
  {
    PrefixValue(s, |s|)
  }

  /** The value of the first `n` characters read as decimal digits. */
  function PrefixValue(s: string, n: nat): int
    requires n <= |s|
  {
    if n == 0 then 0 else 10 * PrefixValue(s, n - 1) + (s[n - 1] as int - '0' as int)
  }

  /** The value of the fields of `M:SS` or `H:MM:SS`. */
  function FieldsValue(f: seq<string>): Option<int>
  {
    if |f| == 2 then Some(DigitsValue(f[0]) * 60 + DigitsValue(f[1]))
    else if |f| == 3 then Some(DigitsValue(f[0]) * 3600 + DigitsValue(f[1]) * 60 + DigitsValue(f[2]))
    else None
  }

  /** Reads a rendered duration back into seconds. */
  function ParseTime(str: string): Option<int>
  {
    FieldsValue(SplitColon(str))
  }

  /** Appending characters does not change the value of a prefix. */
  lemma {:induction false} PrefixValueExtend(s: string, t: string, k: nat)
    requires k <= |s|
    ensures PrefixValue(s + t, k) == PrefixValue(s, k)
    decreases k
  {
    if k > 0 {
      PrefixValueExtend(s, t, k - 1);
    }
  }

  /** Reading back `n.toString()` gives `n`. */
  lemma {:induction false} DigitsValueOfNat(n: nat)
    ensures DigitsValue(NatToString(n)) == n
  {
    if n < 10 {
      var c := DigitChar(n);
      assert NatToString(n) == [c];
      assert PrefixValue([c], 1) == 10 * PrefixValue([c], 0) + (c as int - '0' as int);
    } else {
      var p := NatToString(n / 10);
      DigitsValueOfNat(n / 10);
      PrefixValueExtend(p, [DigitChar(n % 10)], |p|);
      assert NatToString(n) == p + [DigitChar(n % 10)];
    }
  }

  /** A leading zero does not change the value of a prefix. */
  lemma {:induction false} LeadingZeroShift(s: string, k: nat)
    requires k <= |s|
    ensures PrefixValue(['0'] + s, k + 1) == PrefixValue(s, k)
    decreases k
  {
    if k > 0 {
      LeadingZeroShift(s, k - 1);
    }
  }

  lemma LeadingZeroIgnored(s: string)
    ensures DigitsValue(['0'] + s) == DigitsValue(s)
  {
    LeadingZeroShift(s, |s|);
  }

  /** A two-digit field reads back as the number it renders. */
  lemma PaddedValue(n: nat)
    ensures AllDigits(PadStart2(NatToString(n)))
    ensures DigitsValue(PadStart2(NatToString(n))) == n
  {
    DigitsValueOfNat(n);
    var s := NatToString(n);
    if |s| < 2 {
      LeadingZeroIgnored(s);
      assert PadStart2(s) == ['0'] + s;
    }
  }

  lemma {:induction false} SplitNoColon(a: string)
    requires ':' !in a
    ensures SplitColon(a) == [a]
    decreases |a|
  {
    if a != [] {
      SplitNoColon(a[1..]);
      assert [a[0]] + a[1..] == a;
    }
  }

  lemma {:induction false} SplitAfterField(a: string, b: string)
    requires ':' !in a
    ensures SplitColon(a + ([':'] + b)) == [a] + SplitColon(b)
    decreases |a|
  {
    if a == [] {
      assert a + ([':'] + b) == [':'] + b;
      assert ([':'] + b)[1..] == b;
    } else {
      SplitAfterField(a[1..], b);
      assert (a + ([':'] + b))[1..] == a[1..] + ([':'] + b);
      assert [a[0]] + a[1..] == a;
    }
  }

  lemma DigitsHaveNoColon(s: string)
    requires AllDigits(s)
    ensures ':' !in s
  {
  }

  /** Under an hour: unpadded minutes, a colon, two-digit seconds. */
  lemma ShortForm(s: int)
    requires 0 <= s < 3600
    ensures FormatTime(s) == NatToString(s / 60) + ([':'] + PadStart2(NatToString(s % 60)))
  {
    assert s / 3600 == 0;
    assert Rem(s, 3600) == s;
  }

  /** From an hour on, the quantities `formatTime` computes are the components. */
  lemma LongQuantities(s: int)
    requires s >= 3600
    ensures var (h, m, sec) := Components(s);
      && s / 3600 == h && h >= 1 && Rem(s, 3600) / 60 == m && Rem(s, 60) == sec
  {
    var (h, m, sec) := Components(s);
    assert s % 60 == (s % 3600) % 60;
  }

  lemma Reassociate(a: string, b: string, c: string)
    ensures a + ":" + b + ":" + c == a + ([':'] + (b + ([':'] + c)))
  {
  }

  /** From an hour on: unpadded hours, then two-digit minutes and seconds. */
  lemma LongForm(s: int)
    requires s >= 3600
    ensures var (h, m, sec) := Components(s);
      FormatTime(s) == NatToString(h) + ([':'] + (PadStart2(NatToString(m)) + ([':'] + PadStart2(NatToString(sec)))))
  {
    var (h, m, sec) := Components(s);
    LongQuantities(s);
    var a, b, c := NatToString(h), PadStart2(NatToString(m)), PadStart2(NatToString(sec));
    assert FormatTime(s) == a + ":" + b + ":" + c;
    Reassociate(a, b, c);
  }

  /**
   * The fields of a rendered non-negative duration: under an hour, unpadded
   * minutes and two-digit seconds; from an hour on, unpadded hours and
   * two-digit minutes and seconds.
   */
  lemma FormatFields(s: int)
    requires s >= 0
    ensures var (h, m, sec) := Components(s);
      var f := SplitColon(FormatTime(s));
      && (s < 3600 ==> f == [NatToString(m), PadStart2(NatToString(sec))])
      && (s >= 3600 ==> f == [NatToString(h), PadStart2(NatToString(m)), PadStart2(NatToString(sec))])
      && |f[|f| - 1]| == 2
  {
    var (h, m, sec) := Components(s);
    var sm := PadStart2(NatToString(m));
    var ss := PadStart2(NatToString(sec));
    PaddedValue(m);
    PaddedValue(sec);
    DigitsHaveNoColon(sm);
    DigitsHaveNoColon(ss);
    SplitNoColon(ss);
    if s < 3600 {
      ShortForm(s);
      assert s / 60 == m && s % 60 == sec;
      var a := NatToString(m);
      DigitsHaveNoColon(a);
      SplitAfterField(a, ss);
    } else {
      LongForm(s);
      var a := NatToString(h);
      DigitsHaveNoColon(a);
      SplitAfterField(sm, ss);
      SplitAfterField(a, sm + ([':'] + ss));
    }
  }

  /** Two colon-free fields read back as minutes and seconds. */
  lemma ParseTwo(a: string, b: string, m: int, sec: int)
    requires ':' !in a && ':' !in b
    requires DigitsValue(a) == m && DigitsValue(b) == sec
    ensures ParseTime(a + ([':'] + b)) == Some(m * 60 + sec)
  {
    SplitNoColon(b);
    SplitAfterField(a, b);
  }

  /** Three colon-free fields read back as hours, minutes and seconds. */
  lemma ParseThree(a: string, b: string, c: string, h: int, m: int, sec: int)
    requires ':' !in a && ':' !in b && ':' !in c
    requires DigitsValue(a) == h && DigitsValue(b) == m && DigitsValue(c) == sec
    ensures ParseTime(a + ([':'] + (b + ([':'] + c)))) == Some(h * 3600 + m * 60 + sec)
  {
    SplitNoColon(c);
    SplitAfterField(b, c);
    SplitAfterField(a, b + ([':'] + c));
  }

  /** `M:SS` reads back as `M * 60 + SS`. */
  lemma ParseShort(m: nat, sec: nat)
    ensures ParseTime(NatToString(m) + ([':'] + PadStart2(NatToString(sec)))) == Some(m * 60 + sec)
  {
    var a, b := NatToString(m), PadStart2(NatToString(sec));
    DigitsValueOfNat(m);
    PaddedValue(sec);
    DigitsHaveNoColon(a);
    DigitsHaveNoColon(b);
    ParseTwo(a, b, m, sec);
  }

  /** `H:MM:SS` reads back as `H * 3600 + MM * 60 + SS`. */
  lemma ParseLong(h: nat, m: nat, sec: nat)
    ensures ParseTime(NatToString(h) + ([':'] + (PadStart2(NatToString(m)) + ([':'] + PadStart2(NatToString(sec))))))
      == Some(h * 3600 + m * 60 + sec)
  {
    var a, b, c := NatToString(h), PadStart2(NatToString(m)), PadStart2(NatToString(sec));
    DigitsValueOfNat(h);
    PaddedValue(m);
    PaddedValue(sec);
    DigitsHaveNoColon(a);
    DigitsHaveNoColon(b);
    DigitsHaveNoColon(c);
    ParseThree(a, b, c, h, m, sec);
  }

  /** Reading back a rendered non-negative duration recovers it. */
  lemma ParseFormatRoundTrip(s: int)
    requires s >= 0
    ensures ParseTime(FormatTime(s)) == Some(s)
  {
    var (h, m, sec) := Components(s);
    if s < 3600 {
      ShortForm(s);
      ParseShort(s / 60, s % 60);
    } else {
      LongForm(s);
      ParseLong(h, m, sec);
    }
  }

  /** `formatTime` is injective on non-negative durations. */
  lemma FormatInjective(a: int, b: int)
    requires a >= 0 && b >= 0
    requires FormatTime(a) == FormatTime(b)
    ensures a == b
  {
    ParseFormatRoundTrip(a);
    ParseFormatRoundTrip(b);
  }

  // ---- The elapsed-seconds field ----

  /** JavaScript truthiness of `startTime: number | null`: null and 0 are false. */
  predicate Truthy(t: Option<int>)
  {
    t.Some? && t.value != 0
  }

  /** `Math.floor((now - startTime) / 1000)`, or 0 for a falsy start. */
  function Elapsed(start: Option<int>, now: int): (r: int)
    ensures !Truthy(start) ==> r == 0
    ensures Truthy(start) ==> r * 1000 <= now - start.value < r * 1000 + 1000
  {
    if !Truthy(start) then 0 else (now - start.value) / 1000
  }

  /** The hook's state: the start it was given and the `elapsed` field. */
  class Clock {
    var startTime: Option<int>
    var elapsed: int

    /** `useState(0)`, then the mount effect. */
    constructor (start: Option<int>)
      ensures startTime == start && elapsed == 0
    {
      startTime := start;
      elapsed := 0;
    }

    /** The effect on a new `startTime`: a falsy start zeroes `elapsed`, a truthy one waits for the next tick. */
    method ChangeStart(start: Option<int>)
      modifies this
      ensures startTime == start
      ensures elapsed == if Truthy(start) then old(elapsed) else 0
    {
      startTime := start;
      if !Truthy(start) {
        elapsed := 0;
      }
    }

    /** One firing of the interval, scheduled only for a truthy start. */
    method Tick(now: int)
      modifies this
      ensures startTime == old(startTime)
      ensures elapsed == if Truthy(startTime) then Elapsed(startTime, now) else old(elapsed)
      ensures Truthy(startTime) ==> elapsed * 1000 <= now - startTime.value < elapsed * 1000 + 1000
    {
      if Truthy(startTime) {
        elapsed := (now - startTime.value) / 1000;
      }
    }
  }
}
