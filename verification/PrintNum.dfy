/** Formatting an integer (lib/print.c) and reading the text back. */
module PrintNum {

  /** The highest value of an unsigned long, plus one. */
  const ULONG: nat := 0x1_0000_0000

  function DigitChar(d: nat, upcase: bool): char
    requires d < 36
  {
    if d <= 9 then '0' + d as char else if upcase then 'A' + (d - 10) as char else 'a' + (d - 10) as char
  }

  /** What a digit character stands for; 36 for any other character. */
  function DigitValue(c: char): nat {
    if '0' <= c <= '9' then c as nat - '0' as nat
    else if 'A' <= c <= 'Z' then c as nat - 'A' as nat + 10
    else if 'a' <= c <= 'z' then c as nat - 'a' as nat + 10
    else 36
  }

  lemma DigitBack(d: nat, upcase: bool)
    requires d < 36
    ensures DigitValue(DigitChar(d, upcase)) == d
  {
  }

  predicate Base(base: nat) {
    2 <= base <= 36
  }

  datatype Split = Split(quotient: nat, digit: nat)

  /** u / base and u % base. */
  function DivMod(u: nat, base: nat): (r: Split)
    requires base >= 2
    ensures r.quotient * base + r.digit == u && r.digit < base
    ensures r.quotient * 2 <= u && (r.quotient == 0 <==> u < base)
  {
    DivModFacts(u, base);
    Split(u / base, u % base)
  }

  lemma DivModFacts(u: nat, base: nat)
    requires base >= 2
    ensures u / base * base + u % base == u && u / base * 2 <= u && (u / base == 0 <==> u < base)
  {
    var q := u / base;
    assert q * base == q * 2 + q * (base - 2);
    assert u < base ==> u / base == 0;
  }

  /** The digits of u, least significant first, as the first loop writes them. */
  function Digits(u: nat, base: nat, upcase: bool): (s: string)
    requires Base(base)
    ensures |s| > 0
    decreases u
  {
    var r := DivMod(u, base);
    [DigitChar(r.digit, upcase)] + if r.quotient == 0 then "" else Digits(r.quotient, base, upcase)
  }

  function Reversed(s: string): (r: string)
    ensures |r| == |s| && forall i :: 0 <= i < |s| ==> r[i] == s[|s| - 1 - i]
  {
    if s == "" then "" else Reversed(s[1..]) + [s[0]]
  }

  function Repeat(c: char, n: nat): (s: string)
    ensures |s| == n && forall i :: 0 <= i < n ==> s[i] == c
  {
    seq(n, _ => c)
  }

  function Max(a: nat, b: nat): nat {
    if a < b then b else a
  }

  /** The number with its sign in front. */
  function Core(u: nat, base: nat, neg: bool, upcase: bool): string
    requires Base(base)
  {
    (if neg then "-" else "") + Reversed(Digits(u, base, upcase))
  }

  /** The text for a number: left-adjusted numbers are followed by spaces; zero padding goes behind the sign. */
  function Text(u: nat, base: nat, neg: bool, length: nat, ladjust: bool, padc: char, upcase: bool): string
    requires Base(base)
  {
    var core := Core(u, base, neg, upcase);
    var pad := Max(length, |core|) - |core|;
    if ladjust then core + Repeat(' ', pad)
    else if neg && padc == '0' then "-" + Repeat('0', pad) + Reversed(Digits(u, base, upcase))
    else Repeat(padc, pad) + core
  }

  /** The longest run of digits of the base at the front of s, read onto acc. */
  function ReadDigits(s: string, base: nat, acc: nat): nat {
    if s == "" || DigitValue(s[0]) >= base then acc else ReadDigits(s[1..], base, acc * base + DigitValue(s[0]))
  }

  function SkipSpaces(s: string): string {
    if s != "" && s[0] == ' ' then SkipSpaces(s[1..]) else s
  }

  datatype Number = Number(value: nat, negative: bool)

  /** Leading spaces, an optional minus sign, digits. */
  function Parse(s: string, base: nat): Number {
    var t := SkipSpaces(s);
    if t != "" && t[0] == '-' then Number(ReadDigits(t[1..], base, 0), true) else Number(ReadDigits(t, base, 0), false)
  }

  /** What follows a text that is not taken for another digit. */
  predicate Ends(s: string, base: nat) {
    s == "" || DigitValue(s[0]) >= base
  }

  lemma {:induction false} ReadReversed(u: nat, base: nat, upcase: bool, tail: string)
    requires Base(base) && Ends(tail, base)
    ensures ReadDigits(Reversed(Digits(u, base, upcase)) + tail, base, 0) == u
  {
    ReadMore(u, base, upcase, tail);
  }

  /** Reading u's digits leaves u accumulated in front of whatever follows. */
  lemma {:induction false} ReadMore(u: nat, base: nat, upcase: bool, tail: string)
    requires Base(base)
    ensures ReadDigits(Reversed(Digits(u, base, upcase)) + tail, base, 0) == ReadDigits(tail, base, u)
    decreases u
  {
    var r := DivMod(u, base);
    var d := DigitChar(r.digit, upcase);
    DigitBack(r.digit, upcase);
    DigitsTurned(u, base, upcase);
    hide DivMod, DigitChar, DigitValue, Digits, Reversed;
    if r.quotient == 0 {
      ReadOne(d, tail, base, 0);
    } else {
      var front := Reversed(Digits(r.quotient, base, upcase));
      assert (front + [d]) + tail == front + ([d] + tail);
      ReadMore(r.quotient, base, upcase, [d] + tail);
      ReadOne(d, tail, base, r.quotient);
    }
  }

  lemma DigitsTurned(u: nat, base: nat, upcase: bool)
    requires Base(base)
    ensures var r := DivMod(u, base);
            Reversed(Digits(u, base, upcase))
            == if r.quotient == 0 then [DigitChar(r.digit, upcase)]
               else Reversed(Digits(r.quotient, base, upcase)) + [DigitChar(r.digit, upcase)]
  {
    hide DivMod, DigitChar;
    var r, digits := DivMod(u, base), Digits(u, base, upcase);
    if r.quotient == 0 {
      assert Reversed(digits[1..]) == "";
    } else {
      assert digits[1..] == Digits(r.quotient, base, upcase);
    }
  }

  lemma ReadOne(d: char, tail: string, base: nat, acc: nat)
    requires DigitValue(d) < base
    ensures ReadDigits([d] + tail, base, acc) == ReadDigits(tail, base, acc * base + DigitValue(d))
  {
    assert ([d] + tail)[1..] == tail;
  }

  lemma {:induction false} ReadZeros(n: nat, base: nat, tail: string)
    requires Base(base)
    ensures ReadDigits(Repeat('0', n) + tail, base, 0) == ReadDigits(tail, base, 0)
  {
    if n > 0 {
      assert (Repeat('0', n) + tail)[1..] == Repeat('0', n - 1) + tail;
      ReadZeros(n - 1, base, tail);
    } else {
      assert Repeat('0', 0) + tail == tail;
    }
  }

  lemma {:induction false} SkipRepeat(n: nat, tail: string)
    requires tail == "" || tail[0] != ' '
    ensures SkipSpaces(Repeat(' ', n) + tail) == tail
  {
    if n > 0 {
      assert (Repeat(' ', n) + tail)[1..] == Repeat(' ', n - 1) + tail;
      SkipRepeat(n - 1, tail);
    } else {
      assert Repeat(' ', 0) + tail == tail;
    }
  }

  lemma {:induction false} AllDigits(u: nat, base: nat, upcase: bool)
    requires Base(base)
    ensures forall i :: 0 <= i < |Digits(u, base, upcase)| ==> DigitValue(Digits(u, base, upcase)[i]) < base
    decreases u
  {
    hide DivMod, DigitChar, DigitValue;
    var r := DivMod(u, base);
    DigitBack(r.digit, upcase);
    if r.quotient != 0 {
      AllDigits(r.quotient, base, upcase);
    }
  }

  /** The text has length max(length, digits and sign), and parses back to the value and the sign. */
  lemma TextParses(u: nat, base: nat, neg: bool, length: nat, ladjust: bool, padc: char, upcase: bool)
    requires Base(base) && padc in {' ', '0'}
    ensures var text := Text(u, base, neg, length, ladjust, padc, upcase);
            && |text| == Max(length, |Digits(u, base, upcase)| + if neg then 1 else 0)
            && Parse(text, base) == Number(u, neg)
  {
    hide Parse, Digits, Reversed, SkipSpaces, Repeat;
    var text, digits := Text(u, base, neg, length, ladjust, padc, upcase), Reversed(Digits(u, base, upcase));
    var core := Core(u, base, neg, upcase);
    var pad := Max(length, |core|) - |core|;
    if ladjust {
      assert Ends(Repeat(' ', pad), base);
      CoreParses(u, base, neg, upcase, Repeat(' ', pad));
    } else if padc == '0' {
      ZerosParse(u, base, neg, upcase, pad);
      assert text == (if neg then "-" else "") + Repeat('0', pad) + digits;
    } else {
      SpacesParse(u, base, neg, upcase, pad);
    }
  }

  lemma SpacesParse(u: nat, base: nat, neg: bool, upcase: bool, pad: nat)
    requires Base(base)
    ensures Parse(Repeat(' ', pad) + Core(u, base, neg, upcase), base) == Number(u, neg)
  {
    var core := Core(u, base, neg, upcase);
    CoreStarts(u, base, neg, upcase);
    SkipRepeat(pad, core);
    CoreParses(u, base, neg, upcase, "");
    hide Core, ReadDigits, Repeat;
    assert core + "" == core;
    assert SkipSpaces(core) == core;
  }

  lemma CoreStarts(u: nat, base: nat, neg: bool, upcase: bool)
    requires Base(base)
    ensures var core := Core(u, base, neg, upcase); core[0] != ' ' && (core[0] == '-' <==> neg)
  {
    AllDigits(u, base, upcase);
    hide Digits;
    assert DigitValue(Reversed(Digits(u, base, upcase))[0]) < base;
  }

  lemma CoreParses(u: nat, base: nat, neg: bool, upcase: bool, tail: string)
    requires Base(base) && Ends(tail, base)
    ensures Parse(Core(u, base, neg, upcase) + tail, base) == Number(u, neg)
  {
    CoreStarts(u, base, neg, upcase);
    hide Digits, Reversed, ReadDigits, DigitValue;
    var digits, all := Reversed(Digits(u, base, upcase)), Core(u, base, neg, upcase) + tail;
    ReadReversed(u, base, upcase, tail);
    assert all[0] == Core(u, base, neg, upcase)[0];
    if neg {
      assert all[1..] == digits + tail;
    } else {
      assert all == digits + tail;
    }
  }

  lemma ZerosParse(u: nat, base: nat, neg: bool, upcase: bool, pad: nat)
    requires Base(base)
    ensures Parse((if neg then "-" else "") + Repeat('0', pad) + Reversed(Digits(u, base, upcase)), base) == Number(u, neg)
  {
    hide *;
    var zeros, digits := Repeat('0', pad), Reversed(Digits(u, base, upcase));
    ZerosStart(u, base, upcase, pad);
    ZerosRead(u, base, upcase, pad);
    if neg {
      assert "-" + zeros + digits == "-" + (zeros + digits);
      ParseMinus(zeros + digits, base);
    } else {
      assert "" + zeros + digits == zeros + digits;
      ParsePlain(zeros + digits, base);
    }
  }

  lemma ZerosStart(u: nat, base: nat, upcase: bool, pad: nat)
    requires Base(base)
    ensures var s := Repeat('0', pad) + Reversed(Digits(u, base, upcase)); s != "" && s[0] != ' ' && s[0] != '-'
  {
    CoreStarts(u, base, false, upcase);
    hide Digits, Reversed, Repeat;
    var zeros, digits := Repeat('0', pad), Reversed(Digits(u, base, upcase));
    assert Core(u, base, false, upcase) == digits;
    assert (zeros + digits)[0] == if pad > 0 then zeros[0] else digits[0];
  }

  lemma ZerosRead(u: nat, base: nat, upcase: bool, pad: nat)
    requires Base(base)
    ensures ReadDigits(Repeat('0', pad) + Reversed(Digits(u, base, upcase)), base, 0) == u
  {
    hide Digits, Reversed, ReadDigits, Repeat;
    var digits := Reversed(Digits(u, base, upcase));
    ReadReversed(u, base, upcase, "");
    assert digits + "" == digits;
    ReadZeros(pad, base, digits);
  }

  lemma ParsePlain(s: string, base: nat)
    requires s != "" && s[0] != ' ' && s[0] != '-'
    ensures Parse(s, base) == Number(ReadDigits(s, base, 0), false)
  {
    hide ReadDigits;
  }

  lemma ParseMinus(s: string, base: nat)
    ensures Parse("-" + s, base) == Number(ReadDigits(s, base, 0), true)
  {
    hide ReadDigits;
    assert ("-" + s)[1..] == s;
  }

  /** With any other pad character the number stands unbroken behind the padding. */
  lemma AnyPad(u: nat, base: nat, neg: bool, length: nat, padc: char, upcase: bool)
    requires Base(base) && !(neg && padc == '0')
    ensures var text, core := Text(u, base, neg, length, false, padc, upcase), Core(u, base, neg, upcase);
            var pad := Max(length, |core|) - |core|;
            |text| == pad + |core| && text[..pad] == Repeat(padc, pad) && Parse(text[pad..], base) == Number(u, neg)
  {
    CoreParses(u, base, neg, upcase, "");
    var core := Core(u, base, neg, upcase);
    hide Parse;
    assert core + "" == core;
  }

  /** A left-adjusted number comes first and is followed by spaces, whatever the pad character. */
  lemma LeftText(u: nat, base: nat, neg: bool, length: nat, padc: char, upcase: bool)
    requires Base(base)
    ensures var text, n := Text(u, base, neg, length, true, padc, upcase), |Digits(u, base, upcase)| + if neg then 1 else 0;
            && |text| == Max(length, n) && Parse(text[..n], base) == Number(u, neg) && text[0] != ' '
            && forall i :: n <= i < |text| ==> text[i] == ' '
  {
    CoreParses(u, base, neg, upcase, "");
    CoreStarts(u, base, neg, upcase);
    var core := Core(u, base, neg, upcase);
    hide Parse, Digits, Reversed;
    assert core + "" == core;
    assert Text(u, base, neg, length, true, padc, upcase)[..|core|] == core;
  }

  /** Zeros go between the sign and the digits. */
  lemma ZeroText(u: nat, base: nat, length: nat, upcase: bool)
    requires Base(base)
    ensures var text, n := Text(u, base, true, length, false, '0', upcase), |Digits(u, base, upcase)|;
            && |text| == Max(length, n + 1) && text[0] == '-' && (forall i :: 1 <= i < |text| - n ==> text[i] == '0')
            && ReadDigits(text[|text| - n..], base, 0) == u
  {
    ReadReversed(u, base, upcase, "");
    hide ReadDigits, Digits, Reversed;
    var digits := Reversed(Digits(u, base, upcase));
    assert digits + "" == digits;
    var text := Text(u, base, true, length, false, '0', upcase);
    assert text[|text| - |digits|..] == digits;
  }

  /** No digits are wasted: the number does not start with a zero unless it is one. */
  lemma {:induction false} NoLeadingZero(u: nat, base: nat, upcase: bool)
    requires Base(base)
    ensures var s := Reversed(Digits(u, base, upcase)); |s| == |Digits(u, base, upcase)| > 0 && (s[0] == '0' ==> s == "0" && u == 0)
    decreases u
  {
    var r := DivMod(u, base);
    DigitsTurned(u, base, upcase);
    if r.quotient != 0 {
      hide DigitChar, Reversed, DivMod;
      NoLeadingZero(r.quotient, base, upcase);
    }
  }

  predicate InCase(c: char, upcase: bool) {
    if upcase then !('a' <= c <= 'z') else !('A' <= c <= 'Z')
  }

  /** Digits above nine are letters of the case asked for. */
  lemma {:induction false} DigitsCase(u: nat, base: nat, upcase: bool)
    requires Base(base)
    ensures forall i :: 0 <= i < |Digits(u, base, upcase)| ==> InCase(Digits(u, base, upcase)[i], upcase)
    decreases u
  {
    var r := DivMod(u, base);
    if r.quotient != 0 {
      DigitsCase(r.quotient, base, upcase);
    }
  }

  lemma TextCase(u: nat, base: nat, neg: bool, length: nat, ladjust: bool, padc: char, upcase: bool, i: nat)
    requires Base(base) && InCase(padc, upcase) && i < |Text(u, base, neg, length, ladjust, padc, upcase)|
    ensures InCase(Text(u, base, neg, length, ladjust, padc, upcase)[i], upcase)
  {
    DigitsCase(u, base, upcase);
    hide Digits, Reversed;
  }

  /** A 32-bit number has at most 32 digits, whatever the base. */
  lemma {:induction false} FewDigits(u: nat, base: nat, upcase: bool, bits: nat)
    requires Base(base) && bits > 0 && u < Power(bits)
    ensures |Digits(u, base, upcase)| <= bits
    decreases bits
  {
    hide DivMod;
    var r := DivMod(u, base);
    if r.quotient != 0 {
      assert Power(1) == 2 * Power(0);
      FewDigits(r.quotient, base, upcase, bits - 1);
    }
  }

  function Power(bits: nat): nat {
    if bits == 0 then 1 else 2 * Power(bits - 1)
  }

  lemma Power32()
    ensures Power(32) == ULONG
  {
    assert Power(8) == 256;
    assert Power(16) == 256 * Power(8);
    assert Power(24) == 256 * Power(16);
  }

  lemma {:induction false} ReversedJoin(s: string, t: string)
    ensures Reversed(s + t) == Reversed(t) + Reversed(s)
  {
    if s == "" {
      assert s + t == t;
    } else {
      ReversedJoin(s[1..], t);
      assert (s + t)[1..] == s[1..] + t;
    }
  }

  lemma ReversedRepeat(c: char, n: nat)
    ensures Reversed(Repeat(c, n)) == Repeat(c, n)
  {
  }

  /** Digits and sign in the order the first loop writes them. */
  function Body(u: nat, base: nat, neg: bool, upcase: bool): string
    requires Base(base)
  {
    Digits(u, base, upcase) + if neg then "-" else ""
  }

  lemma BodyTurned(u: nat, base: nat, neg: bool, upcase: bool)
    requires Base(base)
    ensures Body(u, base, neg, upcase) != "" && Reversed(Body(u, base, neg, upcase)) == Core(u, base, neg, upcase)
  {
    var digits := Digits(u, base, upcase);
    hide Digits;
    assert Reversed("-") == "-" by { assert "-"[1..] == ""; }
    hide Reversed;
    ReversedJoin(digits, "-");
    assert !neg ==> Body(u, base, neg, upcase) == digits && Core(u, base, neg, upcase) == Reversed(digits);
  }

  lemma PaddedTurned(body: string, c: char, pad: nat)
    ensures Reversed(body + Repeat(c, pad)) == Repeat(c, pad) + Reversed(body)
  {
    ReversedJoin(body, Repeat(c, pad));
    ReversedRepeat(c, pad);
  }

  lemma ZerosTurned(digits: string, pad: nat)
    ensures Reversed(digits + Repeat('0', pad) + "-") == "-" + Repeat('0', pad) + Reversed(digits)
  {
    assert Reversed("-") == "-" by { assert "-"[1..] == ""; }
    PaddedTurned(digits, '0', pad);
    hide Reversed, Repeat;
    ReversedJoin(digits + Repeat('0', pad), "-");
    assert "-" + (Repeat('0', pad) + Reversed(digits)) == "-" + Repeat('0', pad) + Reversed(digits);
  }

  /** What the buffer holds before it is turned round. */
  function Filled(u: nat, base: nat, neg: bool, length: nat, ladjust: bool, padc: char, upcase: bool): string
    requires Base(base)
  {
    var body := Body(u, base, neg, upcase);
    var pad := Max(length, |body|) - |body|;
    if neg && !ladjust && padc == '0' then Digits(u, base, upcase) + Repeat('0', pad) + "-"
    else body + Repeat(if ladjust then ' ' else padc, pad)
  }

  /** Turned round, except for the padding of a left-adjusted number, it is the text. */
  lemma FilledTurned(u: nat, base: nat, neg: bool, length: nat, ladjust: bool, padc: char, upcase: bool)
    requires Base(base)
    ensures var filled, n := Filled(u, base, neg, length, ladjust, padc, upcase), |Body(u, base, neg, upcase)|;
            && 0 < n <= |filled| == Max(length, n)
            && Text(u, base, neg, length, ladjust, padc, upcase)
               == if ladjust then Reversed(filled[..n]) + filled[n..] else Reversed(filled)
  {
    BodyLength(u, base, neg, upcase);
    hide *;
    if ladjust {
      FilledLeft(u, base, neg, length, padc, upcase);
    } else if neg && padc == '0' {
      FilledZeros(u, base, length, upcase);
    } else {
      FilledRight(u, base, neg, length, padc, upcase);
    }
  }

  lemma FilledLeft(u: nat, base: nat, neg: bool, length: nat, padc: char, upcase: bool)
    requires Base(base)
    ensures var filled, n := Filled(u, base, neg, length, true, padc, upcase), |Body(u, base, neg, upcase)|;
            && n <= |filled| == Max(length, n)
            && Text(u, base, neg, length, true, padc, upcase) == Reversed(filled[..n]) + filled[n..]
  {
    BodyTurned(u, base, neg, upcase);
    BodyLength(u, base, neg, upcase);
    hide Reversed, Repeat, Core, Body, Digits;
    var body := Body(u, base, neg, upcase);
    LeftTurned(body, Max(length, |body|) - |body|);
  }

  lemma FilledZeros(u: nat, base: nat, length: nat, upcase: bool)
    requires Base(base)
    ensures var filled, n := Filled(u, base, true, length, false, '0', upcase), |Body(u, base, true, upcase)|;
            && n <= |filled| == Max(length, n)
            && Text(u, base, true, length, false, '0', upcase) == Reversed(filled)
  {
    BodyLength(u, base, true, upcase);
    hide Reversed, Repeat, Core, Body, Digits;
    var body := Body(u, base, true, upcase);
    ZerosTurned(Digits(u, base, upcase), Max(length, |body|) - |body|);
  }

  lemma FilledRight(u: nat, base: nat, neg: bool, length: nat, padc: char, upcase: bool)
    requires Base(base) && !(neg && padc == '0')
    ensures var filled, n := Filled(u, base, neg, length, false, padc, upcase), |Body(u, base, neg, upcase)|;
            && n <= |filled| == Max(length, n)
            && Text(u, base, neg, length, false, padc, upcase) == Reversed(filled)
  {
    BodyTurned(u, base, neg, upcase);
    BodyLength(u, base, neg, upcase);
    hide Reversed, Repeat, Core, Body, Digits;
    var body := Body(u, base, neg, upcase);
    PaddedTurned(body, padc, Max(length, |body|) - |body|);
  }

  lemma BodyLength(u: nat, base: nat, neg: bool, upcase: bool)
    requires Base(base)
    ensures 0 < |Body(u, base, neg, upcase)| == |Core(u, base, neg, upcase)| == |Digits(u, base, upcase)| + if neg then 1 else 0
  {
    hide Digits, Reversed;
  }

  lemma LeftTurned(body: string, pad: nat)
    ensures (body + Repeat(' ', pad))[..|body|] == body && (body + Repeat(' ', pad))[|body|..] == Repeat(' ', pad)
  {
    hide Repeat;
  }

  /** print_num: every write lies in the buffer of length + 70 characters, and the text sent out is Text. */
  method Format(u: nat, base: nat, neg: bool, length: nat, ladjust: bool, padc: char, upcase: bool) returns (text: string)
    requires u < ULONG && Base(base)
    ensures text == Text(u, base, neg, length, ladjust, padc, upcase)
  {
    var buf := new char[length + 70];
    FilledTurned(u, base, neg, length, ladjust, padc, upcase);
    hide Text, Filled, Reversed, Repeat;
    var n := WriteBody(buf, u, base, neg, upcase);
    var total := if length < n then n else length;
    PadBuffer(buf, u, base, neg, length, ladjust, padc, upcase, n, total);
    ghost var before, filled := buf[..], buf[..total];
    var end := if ladjust then n else total;
    assert buf[..end] == before[..end] && buf[end..] == before[end..] && filled == before[..total];
    Reverse(buf, end);
    TurnedFront(before, buf[..], end, total);
    text := buf[..total];
  }

  lemma TurnedFront(before: string, after: string, end: nat, total: nat)
    requires end <= total <= |before| && after == Reversed(before[..end]) + before[end..]
    ensures total <= |after| && after[..total] == Reversed(before[..total][..end]) + before[..total][end..]
    ensures end == total ==> after[..total] == Reversed(before[..total])
  {
    assert before[..total][..end] == before[..end];
    assert before[..total][..total] == before[..total];
  }

  method WriteBody(buf: array<char>, u: nat, base: nat, neg: bool, upcase: bool) returns (n: nat)
    requires u < ULONG && Base(base) && buf.Length >= 70
    modifies buf
    ensures 0 < n <= 33 && buf[..n] == Body(u, base, neg, upcase)
  {
    hide Digits;
    n := WriteDigits(buf, u, base, upcase);
    if neg {
      buf[n] := '-';
      n := n + 1;
    }
  }

  /** The padding, with the sign moved behind padding zeros. */
  method PadBuffer(buf: array<char>, ghost u: nat, ghost base: nat, neg: bool, ghost length: nat, ladjust: bool, padc: char,
                   ghost upcase: bool, n: nat, total: nat)
    requires Base(base) && 0 < n <= total == Max(length, n) && total <= buf.Length
    requires buf[..n] == Body(u, base, neg, upcase)
    modifies buf
    ensures buf[..total] == Filled(u, base, neg, length, ladjust, padc, upcase)
  {
    hide Digits, Repeat;
    var pad := if ladjust then ' ' else padc;
    if neg && !ladjust && pad == '0' {
      assert buf[..n - 1] == Digits(u, base, upcase);
      Pad(buf, n - 1, total - 1, pad);
      buf[total - 1] := '-';
      assert buf[..total] == buf[..total - 1] + "-";
    } else {
      Pad(buf, n, total, pad);
    }
  }

  lemma DigitsStep(v: nat, base: nat, upcase: bool, done: string)
    requires Base(base)
    ensures var r := DivMod(v, base);
            done + Digits(v, base, upcase)
            == (done + [DigitChar(r.digit, upcase)]) + if r.quotient == 0 then "" else Digits(r.quotient, base, upcase)
    ensures DivMod(v, base).quotient != 0 ==> |Digits(v, base, upcase)| >= 2
  {
    hide DivMod, DigitChar;
  }

  method WriteDigits(buf: array<char>, u: nat, base: nat, upcase: bool) returns (n: nat)
    requires u < ULONG && Base(base) && buf.Length >= 70
    modifies buf
    ensures 0 < n <= 32 && buf[..n] == Digits(u, base, upcase)
  {
    Power32();
    FewDigits(u, base, upcase, 32);
    hide DivMod, DigitChar, Power, Digits;
    n := 0;
    var v := u;
    while true
      invariant n < 32 && Digits(u, base, upcase) == buf[..n] + Digits(v, base, upcase)
      decreases v, 32 - n
    {
      DigitsStep(v, base, upcase, buf[..n]);
      var r := DivMod(v, base);
      buf[n] := DigitChar(r.digit, upcase);
      assert buf[..n + 1] == buf[..n] + [DigitChar(r.digit, upcase)];
      n := n + 1;
      v := r.quotient;
      if v == 0 {
        break;
      }
    }
  }

  method Pad(buf: array<char>, lo: nat, hi: nat, c: char)
    requires lo <= hi <= buf.Length
    modifies buf
    ensures buf[..hi] == old(buf[..lo]) + Repeat(c, hi - lo)
  {
    for i := lo to hi
      invariant buf[..i] == old(buf[..lo]) + Repeat(c, i - lo)
    {
      buf[i] := c;
    }
  }

  /** Turn the first n characters round. */
  method Reverse(buf: array<char>, n: nat)
    requires n <= buf.Length
    modifies buf
    ensures buf[..] == Reversed(old(buf[..n])) + old(buf[n..])
  {
    var begin, end := 0, n - 1;
    while end > begin
      invariant 0 <= begin <= n && end == n - 1 - begin
      invariant begin <= end + 1 || n == 0
      invariant forall k :: 0 <= k < begin ==> buf[k] == old(buf[n - 1 - k]) && buf[n - 1 - k] == old(buf[k])
      invariant forall k :: begin <= k < n - begin ==> buf[k] == old(buf[k])
      invariant forall k :: n <= k < buf.Length ==> buf[k] == old(buf[k])
    {
      buf[begin], buf[end] := buf[end], buf[begin];
      begin, end := begin + 1, end - 1;
    }
  }
}
