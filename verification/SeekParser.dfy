/** Recognising a seek packet (isSeek): a fixed prefix, then two decimal numbers read by sscanf. */
module SeekParsers {
  const SEEK_STR := "AESDCHAR_IOCSEEKTO:"

  type Int32 = i: int | -0x8000_0000 <= i < 0x8000_0000

  /** White space as section 7.4.1.10 of ISO/IEC 9899:2011 has it in the C locale. */
  predicate IsSpace(c: char) {
    c in {' ', '\t', '\n', '\r', 11 as char, 12 as char}
  }

  predicate IsDigit(c: char) { '0' <= c <= '9' }

  predicate AllSpace(s: string) { forall i :: 0 <= i < |s| ==> IsSpace(s[i]) }
  predicate AllDigits(s: string) { forall i :: 0 <= i < |s| ==> IsDigit(s[i]) }

  // ---- sscanf, section 7.21.6.2 of ISO/IEC 9899:2011 ----------------------------

  /** A white-space directive: what is left after the leading white space. */
  function SkipSpace(s: string): string {
    if s != "" && IsSpace(s[0]) then SkipSpace(s[1..]) else s
  }

  function DigitCount(s: string): (n: nat)
    ensures n <= |s|
  {
    if s != "" && IsDigit(s[0]) then 1 + DigitCount(s[1..]) else 0
  }

  /** The value of a string of decimal digits. */
  function Value(digits: string): nat
    requires AllDigits(digits)
  {
    if digits == "" then 0
    else 10 * Value(digits[..|digits| - 1]) + (digits[|digits| - 1] as int - '0' as int)
  }

  lemma {:induction false} DigitsLead(s: string)
    ensures AllDigits(s[..DigitCount(s)])
    ensures DigitCount(s) < |s| ==> !IsDigit(s[DigitCount(s)])
  {
    if s != "" && IsDigit(s[0]) {
      DigitsLead(s[1..]);
      assert s[..DigitCount(s)] == [s[0]] + s[1..][..DigitCount(s[1..])];
    }
  }

  /** A conversion's value and what is left of the input, or a matching failure. */
  datatype Scanned = NoMatch | Match(value: int, rest: string)

  /** `%d`: white space, an optional sign and the longest run of digits, at least one. */
  function ScanInt(s: string): Scanned {
    var t := SkipSpace(s);
    var signed := t != "" && t[0] in {'+', '-'};
    var u := if signed then t[1..] else t;
    var n := DigitCount(u);
    if n == 0 then NoMatch
    else
      DigitsLead(u);
      var v := Value(u[..n]);
      Match(if signed && t[0] == '-' then 0 - v else v, u[n..])
  }

  /** How many numbers `" %d , %d "` converts, and their values. */
  datatype Numbers = Zero | One(first: int) | Two(first: int, second: int)

  function ScanPair(s: string): Numbers {
    match ScanInt(SkipSpace(s))
    case NoMatch => Zero
    case Match(x, rest) =>
      var t := SkipSpace(rest);
      if t == "" || t[0] != ',' then One(x)
      else
        match ScanInt(SkipSpace(t[1..]))
        case NoMatch => One(x)
        case Match(y, _) => Two(x, y)
  }

  /** The `int` stored for a value; what happens to one that does not fit is up to `unfit`. */
  function ToInt(v: int, unfit: int -> Int32): Int32 {
    if -0x8000_0000 <= v < 0x8000_0000 then v else unfit(v)
  }

  /** What the packet is scanned to, Zero when it lacks the prefix. */
  function Request(recstr: string): Numbers {
    if SEEK_STR <= recstr then ScanPair(recstr[|SEEK_STR|..]) else Zero
  }

  /**
   Whether the packet is a seek request; `cmd` and `off` keep the caller's values where no
   number was converted.
   */
  method IsSeek(recstr: string, cmdIn: Int32, offIn: Int32, unfit: int -> Int32)
    returns (isSeek: bool, cmd: Int32, off: Int32)
    ensures isSeek <==> Request(recstr).Two?
    ensures cmd == if Request(recstr).Zero? then cmdIn else ToInt(Request(recstr).first, unfit)
    ensures off == if Request(recstr).Two? then ToInt(Request(recstr).second, unfit) else offIn
  {
    isSeek, cmd, off := false, cmdIn, offIn;
    var n := 0;
    while n < |SEEK_STR| && n < |recstr| && recstr[n] == SEEK_STR[n]
      invariant n <= |SEEK_STR| && n <= |recstr| && recstr[..n] == SEEK_STR[..n]
    {
      n := n + 1;
    }
    if n == |SEEK_STR| {
      assert SEEK_STR[..n] == SEEK_STR;
      var numbers := ScanPair(recstr[|SEEK_STR|..]);
      if !numbers.Zero? {
        cmd := ToInt(numbers.first, unfit);
      }
      if numbers.Two? {
        off := ToInt(numbers.second, unfit);
        isSeek := true;
      }
    }
  }

  // ---- the language of seek packets ---------------------------------------------

  /** `s` is a decimal numeral, possibly signed, of value `v`. */
  predicate Numeral(s: string, v: int) {
    || (s != "" && AllDigits(s) && v == Value(s))
    || (|s| > 1 && s[0] == '+' && AllDigits(s[1..]) && v == Value(s[1..]))
    || (|s| > 1 && s[0] == '-' && AllDigits(s[1..]) && v == 0 - Value(s[1..]))
  }

  /** The parts of a packet around its two numerals. */
  datatype Parts = Parts(w1: string, n1: string, w2: string, w3: string, n2: string, rest: string) {
    function Text(): string {
      SEEK_STR + (w1 + (n1 + (w2 + ("," + (w3 + (n2 + rest))))))
    }
  }

  /** A seek packet for `x`, `y`: numerals in white space around a comma, then anything but a digit. */
  predicate Spells(p: Parts, x: int, y: int) {
    && AllSpace(p.w1) && AllSpace(p.w2) && AllSpace(p.w3)
    && Numeral(p.n1, x) && Numeral(p.n2, y)
    && (p.rest == "" || !IsDigit(p.rest[0]))
  }

  lemma {:induction false} SkipSpaceSplits(s: string) returns (w: string)
    ensures AllSpace(w) && s == w + SkipSpace(s)
    ensures SkipSpace(s) == "" || !IsSpace(SkipSpace(s)[0])
  {
    if s != "" && IsSpace(s[0]) {
      w := SkipSpaceSplits(s[1..]);
      w := [s[0]] + w;
    } else {
      w := "";
    }
  }

  lemma {:induction false} SkipSpaceOver(w: string, s: string)
    requires AllSpace(w) && (s == "" || !IsSpace(s[0]))
    ensures SkipSpace(w + s) == s
  {
    if w == "" {
      assert w + s == s;
    } else {
      assert (w + s)[1..] == w[1..] + s;
      SkipSpaceOver(w[1..], s);
    }
  }

  lemma {:induction false} DigitCountOver(d: string, s: string)
    requires AllDigits(d) && (s == "" || !IsDigit(s[0]))
    ensures DigitCount(d + s) == |d|
  {
    if d == "" {
      assert d + s == s;
    } else {
      assert (d + s)[1..] == d[1..] + s;
      DigitCountOver(d[1..], s);
    }
  }

  lemma ScanIntSound(s: string) returns (w: string, n: string)
    requires ScanInt(s).Match?
    ensures AllSpace(w) && Numeral(n, ScanInt(s).value) && s == w + (n + ScanInt(s).rest)
    ensures ScanInt(s).rest == "" || !IsDigit(ScanInt(s).rest[0])
  {
    hide SkipSpace, DigitCount, Value, AllSpace;
    w := SkipSpaceSplits(s);
    var t := SkipSpace(s);
    if t[0] in {'+', '-'} {
      var k := DigitCount(t[1..]);
      DigitsLead(t[1..]);
      n := t[..k + 1];
      var u := t[1..];
      assert n[1..] == u[..k] && n[0] == t[0] && |n| > 1;
      assert t == n + u[k..];
      assert ScanInt(s) == Match(if t[0] == '-' then 0 - Value(u[..k]) else Value(u[..k]), u[k..]);
    } else {
      n := t[..DigitCount(t)];
      DigitsLead(t);
      assert t == n + t[DigitCount(t)..];
      assert ScanInt(s) == Match(Value(n), t[DigitCount(t)..]);
    }
  }

  lemma TailOfSum(n: string, rest: string)
    requires n != ""
    ensures (n + rest)[0] == n[0] && (n + rest)[1..] == n[1..] + rest
  {
  }

  lemma ScanIntComplete(w: string, n: string, v: int, rest: string)
    requires AllSpace(w) && Numeral(n, v) && (rest == "" || !IsDigit(rest[0]))
    ensures ScanInt(w + (n + rest)) == Match(v, rest)
  {
    SkipSpaceOver(w, n + rest);
    TailOfSum(n, rest);
    if n[0] in {'+', '-'} {
      DigitCountOver(n[1..], rest);
      assert (n[1..] + rest)[..|n[1..]|] == n[1..] && (n[1..] + rest)[|n[1..]|..] == rest;
    } else {
      DigitCountOver(n, rest);
      assert (n + rest)[..|n|] == n && (n + rest)[|n|..] == rest;
    }
  }

  /** Whatever is scanned to two numbers spells a seek packet for them. */
  lemma RequestSound(recstr: string) returns (p: Parts)
    requires Request(recstr).Two?
    ensures recstr == p.Text() && Spells(p, Request(recstr).first, Request(recstr).second)
  {
    hide SkipSpace, ScanInt, Numeral;
    var s := recstr[|SEEK_STR|..];
    var lead := SkipSpaceSplits(s);
    var w1, n1 := ScanIntSound(SkipSpace(s));
    var r1 := ScanInt(SkipSpace(s)).rest;
    var w2 := SkipSpaceSplits(r1);
    var t := SkipSpace(r1);
    var gap := SkipSpaceSplits(t[1..]);
    var w3, n2 := ScanIntSound(SkipSpace(t[1..]));
    var r2 := ScanInt(SkipSpace(t[1..])).rest;
    p := Parts(lead + w1, n1, w2, gap + w3, n2, r2);
    assert t == "," + t[1..];
    assert t[1..] == (gap + w3) + (n2 + r2);
    assert s == (lead + w1) + (n1 + r1);
  }

  lemma SkipMore(w: string, s: string)
    requires AllSpace(w) && s != "" && !IsSpace(s[0])
    ensures SkipSpace(SkipSpace(w + s)) == SkipSpace(w + s) == s
  {
    SkipSpaceOver(w, s);
    SkipSpaceOver("", s);
    assert "" + s == s;
  }

  lemma NumeralStart(n: string, v: int, rest: string)
    requires Numeral(n, v)
    ensures n + rest != "" && !IsSpace((n + rest)[0])
  {
  }

  /** Whatever spells a seek packet is scanned to its two numbers. */
  lemma RequestComplete(p: Parts, x: int, y: int)
    requires Spells(p, x, y)
    ensures Request(p.Text()) == Two(x, y)
  {
    var tail := AfterComma(p);
    var s := p.w1 + (p.n1 + (p.w2 + ("," + tail)));
    assert p.Text()[|SEEK_STR|..] == s;
    NumeralStart(p.n1, x, p.w2 + ("," + tail));
    SkipMore(p.w1, p.n1 + (p.w2 + ("," + tail)));
    assert "" + (p.n1 + (p.w2 + ("," + tail))) == p.n1 + (p.w2 + ("," + tail));
    assert (p.w2 + ("," + tail))[0] == if p.w2 == "" then ',' else p.w2[0];
    ScanIntComplete("", p.n1, x, p.w2 + ("," + tail));
    SkipSpaceOver(p.w2, "," + tail);
    assert ("," + tail)[1..] == tail;
    NumeralStart(p.n2, y, p.rest);
    SkipMore(p.w3, p.n2 + p.rest);
    assert "" + (p.n2 + p.rest) == p.n2 + p.rest;
    ScanIntComplete("", p.n2, y, p.rest);
  }

  function AfterComma(p: Parts): string {
    p.w3 + (p.n2 + p.rest)
  }

  /** The text is a seek packet for `x`, `y`. */
  ghost predicate IsPacketFor(text: string, x: int, y: int) {
    exists p: Parts :: p.Text() == text && Spells(p, x, y)
  }

  /** The parser accepts exactly the language: the two numbers scanned are the two spelled. */
  lemma ParserIsGrammar(text: string, x: int, y: int)
    ensures Request(text) == Two(x, y) <==> IsPacketFor(text, x, y)
  {
    if Request(text) == Two(x, y) {
      var p := RequestSound(text);
      assert p.Text() == text && Spells(p, x, y);
    }
    if IsPacketFor(text, x, y) {
      var p: Parts :| p.Text() == text && Spells(p, x, y);
      RequestComplete(p, x, y);
    }
  }

  // ---- round trip ---------------------------------------------------------------

  function Digit(d: nat): char
    requires d < 10
  {
    (d + '0' as int) as char
  }

  /** Decimal notation. */
  function Decimal(n: nat): string {
    if n < 10 then [Digit(n)] else Decimal(n / 10) + [Digit(n % 10)]
  }

  lemma {:induction false} DecimalValue(n: nat)
    ensures Decimal(n) != "" && AllDigits(Decimal(n)) && Value(Decimal(n)) == n
  {
    if n >= 10 {
      DecimalValue(n / 10);
      var s := Decimal(n);
      assert s[..|s| - 1] == Decimal(n / 10);
    } else {
      assert Decimal(n)[..0] == "";
    }
  }

  /** The wire form of a seek request. */
  function WireForm(x: nat, y: nat): string {
    SEEK_STR + Decimal(x) + "," + Decimal(y) + "\n"
  }

  /** Round trip: the wire form of any two numbers is scanned back to exactly them. */
  lemma WireRoundTrip(x: nat, y: nat)
    ensures Request(WireForm(x, y)) == Two(x, y)
  {
    var a, b := Decimal(x), Decimal(y);
    DecimalValue(x);
    DecimalValue(y);
    hide Decimal, Value, Request;
    var p := Parts("", a, "", "", b, "\n");
    RequestComplete(p, x, y);
    calc {
      p.Text();
      SEEK_STR + ("" + (a + ("" + ("," + ("" + (b + "\n"))))));
      { assert "" + (b + "\n") == b + "\n"; assert "" + ("," + (b + "\n")) == "," + (b + "\n"); }
      SEEK_STR + (a + ("," + (b + "\n")));
      WireForm(x, y);
    }
  }

  // ---- the texts themselves -----------------------------------------------------

  /** Characters of code 32, or 9 to 13. */
  predicate Blank(s: string) {
    forall i :: 0 <= i < |s| ==> s[i] as int == 32 || 9 <= s[i] as int <= 13
  }

  lemma WhiteSpace(s: string)
    ensures AllSpace(s) <==> Blank(s)
  {
    assert ' ' as int == 32 && '\t' as int == 9 && '\n' as int == 10 && '\r' as int == 13;
    if Blank(s) {
      forall i | 0 <= i < |s| ensures IsSpace(s[i]) {
        assert s[i] == s[i] as int as char;
      }
    }
  }

  function Zeros(k: nat): (z: string)
    ensures |z| == k && forall i :: 0 <= i < k ==> z[i] == '0'
  {
    seq(k, _ => '0')
  }

  /** A number written out: a sign or none, any zeros in front, and its decimal notation. */
  function Signed(sign: string, zeros: nat, m: nat): string {
    sign + (Zeros(zeros) + Decimal(m))
  }

  predicate IsSign(sign: string) { sign == "" || sign == "+" || sign == "-" }

  function SignedValue(sign: string, m: nat): int { if sign == "-" then 0 - m else m }

  lemma {:induction false} ZerosAreNothing(k: nat, digits: string)
    requires AllDigits(digits)
    ensures AllDigits(Zeros(k) + digits) && Value(Zeros(k) + digits) == Value(digits)
    decreases |digits|, k
  {
    var s := Zeros(k) + digits;
    if digits != "" {
      var j := |digits| - 1;
      assert s[..|s| - 1] == Zeros(k) + digits[..j];
      ZerosAreNothing(k, digits[..j]);
    } else if k > 0 {
      assert s[..|s| - 1] == Zeros(k - 1) + digits;
      ZerosAreNothing(k - 1, digits);
    }
  }

  /** A run of digits is the decimal notation of its value behind some zeros. */
  lemma {:induction false} DigitsAreDecimal(digits: string) returns (zeros: nat)
    requires digits != "" && AllDigits(digits)
    ensures digits == Zeros(zeros) + Decimal(Value(digits))
  {
    var k := |digits| - 1;
    var front, d := digits[..k], digits[k] as int - '0' as int;
    assert digits == front + [Digit(d)] && Value(digits) == 10 * Value(front) + d;
    if front == "" {
      zeros := 0;
      assert Zeros(0) + digits == digits;
    } else {
      zeros := DigitsAreDecimal(front);
      hide Value, AllDigits;
      DigitAfter(zeros, Value(front), d);
      zeros := if Value(front) == 0 then zeros + 1 else zeros;
    }
  }

  lemma DigitAfter(zeros: nat, m: nat, d: nat)
    requires d < 10
    ensures (Zeros(zeros) + Decimal(m)) + [Digit(d)]
         == Zeros(if m == 0 then zeros + 1 else zeros) + Decimal(10 * m + d)
  {
    if m == 0 {
      assert Zeros(zeros) + Decimal(0) == Zeros(zeros + 1);
    } else {
      assert Decimal(10 * m + d) == Decimal(m) + [Digit(d)] by {
        assert (10 * m + d) / 10 == m && (10 * m + d) % 10 == d;
      }
      hide Decimal;
    }
  }

  /** The numerals of the language are exactly the numbers written out. */
  lemma NumeralIsSigned(s: string, v: int)
    ensures Numeral(s, v)
            <==> exists sign: string, zeros: nat, m: nat ::
                   IsSign(sign) && s == Signed(sign, zeros, m) && v == SignedValue(sign, m)
  {
    if Numeral(s, v) {
      var sign := if s[0] == '+' then "+" else if s[0] == '-' then "-" else "";
      var digits := s[|sign|..];
      var zeros := DigitsAreDecimal(digits);
      assert s == Signed(sign, zeros, Value(digits)) && v == SignedValue(sign, Value(digits));
    }
    forall sign: string, zeros: nat, m: nat |
      IsSign(sign) && s == Signed(sign, zeros, m) && v == SignedValue(sign, m)
      ensures Numeral(s, v)
    {
      SignedIsNumeral(sign, zeros, m);
    }
  }

  lemma SignedIsNumeral(sign: string, zeros: nat, m: nat)
    requires IsSign(sign)
    ensures Numeral(Signed(sign, zeros, m), SignedValue(sign, m))
  {
    DecimalValue(m);
    ZerosAreNothing(zeros, Decimal(m));
    var digits := Zeros(zeros) + Decimal(m);
    hide Decimal, Value;
    assert Signed(sign, zeros, m)[|sign|..] == digits;
    assert sign == "" ==> Signed(sign, zeros, m) == digits;
  }

  /**
   Round trip over the texts themselves: whatever blanks stand before the numbers and around the
   comma, whatever signs and zeros before the digits, the two numbers are read.
   */
  lemma SpacedRoundTrip(w1: string, s1: string, z1: nat, x: nat, w2: string,
                        w3: string, s2: string, z2: nat, y: nat, rest: string)
    requires Blank(w1) && Blank(w2) && Blank(w3) && IsSign(s1) && IsSign(s2)
    requires rest == "" || !('0' <= rest[0] <= '9')
    ensures Request("AESDCHAR_IOCSEEKTO:"
                    + (w1 + (Signed(s1, z1, x) + (w2 + ("," + (w3 + (Signed(s2, z2, y) + rest)))))))
            == Two(SignedValue(s1, x), SignedValue(s2, y))
  {
    WhiteSpace(w1);
    WhiteSpace(w2);
    WhiteSpace(w3);
    SignedIsNumeral(s1, z1, x);
    SignedIsNumeral(s2, z2, y);
    hide Signed, Numeral, AllSpace, Blank, Request;
    var p := Parts(w1, Signed(s1, z1, x), w2, w3, Signed(s2, z2, y), rest);
    RequestComplete(p, SignedValue(s1, x), SignedValue(s2, y));
  }

  /** Without a comma after it, the first number is the only one read. */
  lemma OnlyOneRead(w1: string, s1: string, z1: nat, x: nat, w2: string, rest: string)
    requires Blank(w1) && Blank(w2) && IsSign(s1)
    requires rest == "" || (!Blank(rest[..1]) && rest[0] != ',' && !(w2 == "" && '0' <= rest[0] <= '9'))
    ensures Request("AESDCHAR_IOCSEEKTO:" + (w1 + (Signed(s1, z1, x) + (w2 + rest)))) == One(SignedValue(s1, x))
  {
    WhiteSpace(w1);
    WhiteSpace(w2);
    SignedIsNumeral(s1, z1, x);
    var n, s := Signed(s1, z1, x), w1 + (Signed(s1, z1, x) + (w2 + rest));
    assert (SEEK_STR + s)[|SEEK_STR|..] == s;
    assert rest == "" || !IsSpace(rest[0]) by {
      if rest != "" {
        WhiteSpace(rest[..1]);
      }
    }
    assert w2 + rest == "" || !IsDigit((w2 + rest)[0]) by {
      assert w2 == "" ==> w2 + rest == rest;
      assert w2 != "" ==> (w2 + rest)[0] == w2[0];
    }
    hide Signed, Blank, Numeral, ScanInt, Decimal;
    NumeralStart(n, SignedValue(s1, x), w2 + rest);
    SkipMore(w1, n + (w2 + rest));
    assert "" + (n + (w2 + rest)) == n + (w2 + rest);
    ScanIntComplete("", n, SignedValue(s1, x), w2 + rest);
    SkipSpaceOver(w2, rest);
  }

  /** Decimal notation goes by tens, with the digits in their usual order. */
  lemma DecimalByTens(n: nat, d: nat)
    requires d < 10
    ensures Decimal(d) == ["0123456789"[d]]
    ensures 0 < n ==> Decimal(10 * n + d) == Decimal(n) + ["0123456789"[d]]
  {
    assert forall k :: 0 <= k < 10 ==> "0123456789"[k] == Digit(k);
    assert (10 * n + d) / 10 == n && (10 * n + d) % 10 == d;
  }
}
