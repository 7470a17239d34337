/** What the logger's output means: digits read back as the value they were made from, and plain
    text passes through. */
module FormatTheorems {
  import opened Arithmetic
  import opened ComLogger

  // ----- Reading digits -----

  function DigitValue(c: char): nat {
    if '0' <= c <= '9' then c as nat - '0' as nat
    else if 'a' <= c <= 'f' then c as nat - 'a' as nat + 10
    else if 'A' <= c <= 'F' then c as nat - 'A' as nat + 10
    else 0
  }

  function Parse(s: string, radix: nat): nat {
    if s == "" then 0 else Parse(s[..|s| - 1], radix) * radix + DigitValue(s[|s| - 1])
  }

  function Power(radix: nat, k: nat): nat {
    if k == 0 then 1 else Power(radix, k - 1) * radix
  }

  lemma DigitReadsBack(d: nat, uppercase: bool)
    requires d < 16
    ensures DigitValue(Digit(d, uppercase)) == d && Digit(d, uppercase) != '-'
  {
  }

  lemma {:induction false} PowerPositive(radix: nat, k: nat)
    requires radix > 0
    ensures Power(radix, k) > 0
  {
    if k > 0 {
      PowerPositive(radix, k - 1);
    }
  }

  lemma {:induction false} PowerLonger(radix: nat, j: nat, k: nat)
    requires 0 < radix && j <= k
    ensures Power(radix, j) <= Power(radix, k)
    decreases k
  {
    if j < k {
      PowerLonger(radix, j, k - 1);
      MulMono(Power(radix, k - 1), Power(radix, k - 1), 1, radix);
    }
  }

  lemma {:induction false} PowerLarger(radix: nat, other: nat, k: nat)
    requires radix <= other
    ensures Power(radix, k) <= Power(other, k)
  {
    if k > 0 {
      PowerLarger(radix, other, k - 1);
      MulMono(Power(radix, k - 1), Power(other, k - 1), radix, other);
    }
  }

  /** Four to the 32 is two to the 64: with radix 4 or more, 32 digits hold every 64-bit value. */
  lemma PowerOfFour()
    ensures Power(4, 32) == TWO_64
  {
    PowerAdd(4, 16, 16);
    assert Power(4, 8) == 65536;
    PowerAdd(4, 8, 8);
  }

  lemma {:induction false} PowerAdd(radix: nat, j: nat, k: nat)
    ensures Power(radix, j + k) == Power(radix, j) * Power(radix, k)
  {
    if k > 0 {
      PowerAdd(radix, j, k - 1);
      assert Power(radix, j + k) == Power(radix, j) * Power(radix, k - 1) * radix;
    }
  }

  lemma Regroup(c: nat, p: nat, d: nat, radix: nat, x: nat)
    requires d < p && x < radix
    ensures (c * p + d) * radix + x == c * (p * radix) + (d * radix + x)
    ensures d * radix + x < p * radix
  {
    Distribute(c * p, d, radix);
    Associate(c, p, radix);
    MulMono(d + 1, p, radix, radix);
    Distribute(d, 1, radix);
  }

  /** Taking k digits of a quotient and the last digit is taking k + 1 digits. */
  lemma OneMoreDigit(a: nat, radix: nat, p: nat)
    requires radix >= 2 && p > 0
    ensures p * radix > 0 && (a / radix % p) * radix + a % radix == a % (p * radix)
  {
    var q := a / radix;
    var c, d := q / p, q % p;
    assert a == q * radix + a % radix;
    assert q == c * p + d;
    Regroup(c, p, d, radix, a % radix);
    RemainderUnique(a, p * radix, c, d * radix + a % radix);
  }

  lemma ParseStep(t: string, k: nat, radix: nat)
    requires 0 < k <= |t|
    ensures Parse(t[..k], radix) == Parse(t[..k - 1], radix) * radix + DigitValue(t[k - 1])
  {
    assert t[..k][..k - 1] == t[..k - 1];
  }

  /** The first k digits read as the value without the digits behind them. */
  lemma {:induction false} ParsePrefix(t: string, value: nat, radix: nat, uppercase: bool, k: nat)
    requires 2 <= radix <= 16 && k <= |t|
    requires forall i | 0 <= i < |t| :: t[i] == DigitAt(value, radix, uppercase, |t| - 1 - i)
    ensures Power(radix, k) > 0 && Parse(t[..k], radix) == Shifted(value, radix, |t| - k) % Power(radix, k)
  {
    PowerPositive(radix, k);
    if k > 0 {
      ParsePrefix(t, value, radix, uppercase, k - 1);
      ParseStep(t, k, radix);
      var a := Shifted(value, radix, |t| - k);
      DigitReadsBack(a % radix, uppercase);
      OneMoreDigit(a, radix, Power(radix, k - 1));
      assert Shifted(value, radix, |t| - (k - 1)) == a / radix;
    }
  }

  lemma {:induction false} ShiftedOnce(value: nat, radix: nat, k: nat)
    requires radix >= 2
    ensures Shifted(value / radix, radix, k) == Shifted(value, radix, k + 1)
  {
    if k > 0 {
      ShiftedOnce(value, radix, k - 1);
    }
  }

  /** Unless the room runs out, no digit is left over. */
  lemma {:induction false} NothingLeft(value: nat, radix: nat, room: nat)
    requires radix >= 2
    ensures DigitCount(value, radix, room) < room ==> Shifted(value, radix, DigitCount(value, radix, room)) == 0
  {
    if room > 0 && value / radix != 0 {
      NothingLeft(value / radix, radix, room - 1);
      ShiftedOnce(value, radix, DigitCount(value / radix, radix, room - 1));
    }
  }

  lemma QuotientBound(a: nat, radix: nat, p: nat)
    requires radix >= 2
    ensures (a + 1) * p <= (a / radix + 1) * (p * radix)
  {
    var q := a / radix;
    assert a == q * radix + a % radix;
    Distribute(q, 1, radix);
    MulMono(a + 1, (q + 1) * radix, p, p);
    Associate(q + 1, radix, p);
  }

  lemma {:induction false} ShiftedToZero(value: nat, radix: nat, k: nat)
    requires radix >= 2
    ensures value < (Shifted(value, radix, k) + 1) * Power(radix, k)
  {
    if k > 0 {
      ShiftedToZero(value, radix, k - 1);
      QuotientBound(Shifted(value, radix, k - 1), radix, Power(radix, k - 1));
    }
  }

  /** The digit counted last is the value's leading digit, and not zero. */
  ghost predicate Leads(value: nat, radix: nat, n: nat)
    requires radix >= 2
  {
    && (n > 1 ==> 0 < Shifted(value, radix, n - 1) < radix)
    && (n <= 1 ==> value < radix)
  }

  lemma {:induction false} LeadingDigit(value: nat, radix: nat, room: nat)
    requires radix >= 2 && value < Power(radix, room)
    ensures Leads(value, radix, DigitCount(value, radix, room))
    decreases room
  {
    if room == 0 {
      assert Power(radix, 0) == 1;
    } else if value / radix == 0 {
      SmallQuotient(value, radix);
    } else {
      QuotientFits(value, radix, room);
      LeadingDigit(value / radix, radix, room - 1);
      var n := DigitCount(value / radix, radix, room - 1);
      assert n > 0 && DigitCount(value, radix, room) == n + 1;
      LeadsOn(value, radix, n);
    }
  }

  lemma QuotientFits(value: nat, radix: nat, room: nat)
    requires radix >= 2 && room > 0 && value < Power(radix, room)
    ensures value / radix < Power(radix, room - 1)
    ensures room == 1 ==> value / radix == 0
  {
    Quotients(value, radix, Power(radix, room - 1));
    assert room == 1 ==> Power(radix, room - 1) == 1;
  }

  lemma LeadsOn(value: nat, radix: nat, n: nat)
    requires radix >= 2 && n > 0 && value / radix != 0 && Leads(value / radix, radix, n)
    ensures Leads(value, radix, n + 1)
  {
    ShiftedOnce(value, radix, n - 1);
    assert n == 1 ==> Shifted(value / radix, radix, n - 1) == value / radix;
  }

  lemma SmallQuotient(a: nat, radix: nat)
    requires radix >= 2 && a / radix == 0
    ensures a < radix
  {
  }

  lemma Quotients(a: nat, radix: nat, p: nat)
    requires radix >= 2 && a < p * radix
    ensures a / radix < p
  {
    if a / radix >= p {
      MulMono(p, a / radix, radix, radix);
    }
  }

  lemma ZeroDigit(d: nat, uppercase: bool)
    requires d < 16
    ensures Digit(d, uppercase) == '0' <==> d == 0
  {
  }

  /** The text is canonical: it has no leading zero, unless the value does not fit 32 digits. */
  lemma NoLeadingZero(value: nat, radix: nat, uppercase: bool)
    requires 2 <= radix <= 16 && value < Power(radix, 32)
    ensures var t := UnsignedText(value, radix, uppercase);
      |t| > 0 && (t[0] == '0' <==> value == 0) && (value == 0 ==> |t| == 1)
  {
    NoZeroInFront(value, radix, uppercase, DIGIT_BUFFER_SIZE, UnsignedText(value, radix, uppercase));
  }

  lemma NoZeroInFront(value: nat, radix: nat, uppercase: bool, room: nat, t: string)
    requires 2 <= radix <= 16 && room > 0 && value < Power(radix, room)
    requires |t| == DigitCount(value, radix, room)
    requires forall i | 0 <= i < |t| :: t[i] == DigitAt(value, radix, uppercase, |t| - 1 - i)
    ensures |t| > 0 && (t[0] == '0' <==> value == 0) && (value == 0 ==> |t| == 1)
  {
    LeadingDigit(value, radix, room);
    FirstDigit(value, radix, uppercase, |t|);
    assert t[0] == DigitAt(value, radix, uppercase, |t| - 1);
    ZeroIsShort(value, radix, room);
  }

  lemma ZeroIsShort(value: nat, radix: nat, room: nat)
    requires radix >= 2 && room > 0
    ensures value == 0 ==> DigitCount(value, radix, room) == 1
  {
  }

  lemma FirstDigit(value: nat, radix: nat, uppercase: bool, n: nat)
    requires 2 <= radix <= 16 && n > 0 && Leads(value, radix, n)
    ensures DigitAt(value, radix, uppercase, n - 1) == '0' <==> n == 1 && value == 0
  {
    var d := Shifted(value, radix, n - 1);
    assert n == 1 ==> d == value;
    RemainderUnique(d, radix, 0, d);
    ZeroDigit(d, uppercase);
  }

  /** Digit round trip: the text of a value, read in its radix, is the value modulo the 32 digits
      the buffer holds; for radix 4 and above that is the value itself. */
  lemma UnsignedRoundTrip(value: nat, radix: nat, uppercase: bool)
    requires 2 <= radix <= 16 && value < TWO_64
    ensures Power(radix, 32) > 0
    ensures Parse(UnsignedText(value, radix, uppercase), radix) == value % Power(radix, 32)
    ensures radix >= 4 ==> Parse(UnsignedText(value, radix, uppercase), radix) == value
  {
    var t := UnsignedText(value, radix, uppercase);
    var n := |t|;
    ParsePrefix(t, value, radix, uppercase, n);
    assert t[..n] == t;
    PowerPositive(radix, 32);
    if n < 32 {
      NothingLeft(value, radix, 32);
      ShiftedToZero(value, radix, n);
      PowerLonger(radix, n, 32);
      RemainderUnique(value, Power(radix, n), 0, value);
      RemainderUnique(value, Power(radix, 32), 0, value);
    }
    if radix >= 4 {
      PowerOfFour();
      PowerLarger(4, radix, 32);
      RemainderUnique(value, Power(radix, 32), 0, value);
    }
  }

  /** Below radix 4 the text is exact for the values of up to 32 digits and no others. */
  lemma ExactIff(value: nat, radix: nat, uppercase: bool)
    requires 2 <= radix <= 16 && value < TWO_64
    ensures Parse(UnsignedText(value, radix, uppercase), radix) == value <==> value < Power(radix, 32)
  {
    UnsignedRoundTrip(value, radix, uppercase);
    if value < Power(radix, 32) {
      RemainderUnique(value, Power(radix, 32), 0, value);
    }
  }

  function ParseSigned(s: string): int {
    if s != "" && s[0] == '-' then -(Parse(s[1..], 10) as int) else Parse(s, 10)
  }

  /** Every 64-bit signed value, the minimum included, reads back. */
  lemma SignedRoundTrip(value: Int64)
    ensures ParseSigned(SignedText(value)) == value
  {
    var magnitude := Magnitude(value);
    var t := UnsignedText(magnitude, 10, false);
    UnsignedRoundTrip(magnitude, 10, false);
    DigitReadsBack(Shifted(magnitude, 10, |t| - 1) % 10, false);
    assert SignedText(value) == if value < 0 then "-" + t else t;
    assert ("-" + t)[1..] == t;
    assert "" + t == t;
  }

  lemma PointerReadsBack(c: Conversion, arg: Arg)
    requires c.letter == 'p'
    ensures Converted(c, arg)[..2] == "0x" && Parse(Converted(c, arg)[2..], 16) == arg.bits % TWO_64
  {
    UnsignedRoundTrip(arg.bits % TWO_64, 16, false);
    var t := UnsignedText(arg.bits % TWO_64, 16, false);
    assert Converted(c, arg) == "0x" + t;
    assert Converted(c, arg)[2..] == t;
  }

  lemma Width64(bits: nat)
    ensures UnsignedValue(2, bits) == bits % 0x1_0000_0000_0000_0000
    ensures var v := SignedValue(2, bits);
      -0x1_0000_0000_0000_0000 <= 2 * v < 0x1_0000_0000_0000_0000 && (v - bits) % 0x1_0000_0000_0000_0000 == 0
  {
    var q := bits / 0x1_0000_0000_0000_0000;
    var borrowed := if SignedValue(2, bits) < 0 then 1 else 0;
    assert SignedValue(2, bits) - bits == 0x1_0000_0000_0000_0000 * (-q - borrowed);
  }

  lemma Width32(longs: nat, bits: nat)
    requires longs != 2
    ensures UnsignedValue(longs, bits) == bits % 0x1_0000_0000
    ensures var v := SignedValue(longs, bits);
      -0x1_0000_0000 <= 2 * v < 0x1_0000_0000 && (v - bits) % 0x1_0000_0000 == 0
  {
    var q := bits / 0x1_0000_0000;
    var borrowed := if SignedValue(longs, bits) < 0 then 1 else 0;
    assert SignedValue(longs, bits) - bits == 0x1_0000_0000 * (-q - borrowed);
  }

  lemma WidthOfType(longs: nat, bits: nat)
    ensures var width := if longs == 2 then 0x1_0000_0000_0000_0000 else 0x1_0000_0000;
      && UnsignedValue(longs, bits) == bits % width
      && -width <= 2 * SignedValue(longs, bits) < width
      && (SignedValue(longs, bits) - bits) % width == 0
  {
    if longs == 2 {
      Width64(bits);
    } else {
      Width32(longs, bits);
    }
  }

  /** What a numeric conversion writes reads back as the argument of its C type: 64 bits for `ll`
      and for pointers, 32 bits without, for `d` and `i` in two's complement. */
  lemma ConversionReadsBack(c: Conversion, arg: Arg)
    ensures c.letter == 'd' || c.letter == 'i' ==>
      var v, width := ParseSigned(Converted(c, arg)), if c.longs == 2 then 0x1_0000_0000_0000_0000 else 0x1_0000_0000;
      -width <= 2 * v < width && (v - arg.bits) % width == 0
    ensures c.letter == 'u' ==>
      Parse(Converted(c, arg), 10) == arg.bits % if c.longs == 2 then 0x1_0000_0000_0000_0000 else 0x1_0000_0000
    ensures c.letter == 'x' || c.letter == 'X' ==>
      Parse(Converted(c, arg), 16) == arg.bits % if c.longs == 2 then 0x1_0000_0000_0000_0000 else 0x1_0000_0000
    ensures c.letter == 'p' ==>
      && Converted(c, arg)[..2] == "0x"
      && Parse(Converted(c, arg)[2..], 16) == arg.bits % 0x1_0000_0000_0000_0000
  {
    if c.letter == 'd' || c.letter == 'i' {
      SignedReadsBack(c, arg);
    } else if c.letter == 'u' || c.letter == 'x' || c.letter == 'X' {
      UnsignedReadsBack(c, arg);
    } else if c.letter == 'p' {
      PointerReadsBack(c, arg);
    }
  }

  lemma SignedReadsBack(c: Conversion, arg: Arg)
    requires c.letter == 'd' || c.letter == 'i'
    ensures var width := if c.longs == 2 then 0x1_0000_0000_0000_0000 else 0x1_0000_0000;
      var v := ParseSigned(Converted(c, arg));
      -width <= 2 * v < width && (v - arg.bits) % width == 0
  {
    WidthOfType(c.longs, arg.bits);
    SignedRoundTrip(SignedValue(c.longs, arg.bits));
    assert Converted(c, arg) == SignedText(SignedValue(c.longs, arg.bits));
  }

  lemma UnsignedReadsBack(c: Conversion, arg: Arg)
    requires c.letter == 'u' || c.letter == 'x' || c.letter == 'X'
    ensures Parse(Converted(c, arg), if c.letter == 'u' then 10 else 16)
         == arg.bits % if c.longs == 2 then 0x1_0000_0000_0000_0000 else 0x1_0000_0000
  {
    var value, radix := UnsignedValue(c.longs, arg.bits), if c.letter == 'u' then 10 else 16;
    WidthOfType(c.longs, arg.bits);
    UnsignedRoundTrip(value, radix, c.letter == 'X');
    assert Converted(c, arg) == UnsignedText(value, radix, c.letter == 'X');
  }

  // ----- The formatter -----

  /** What the formatter writes for the character or conversion at i, where it goes on, and with
      which argument. */
  function Piece(format: string, i: nat, args: nat -> Arg, n: nat): (string, nat, nat)
    requires At(format, i) != '\0'
  {
    if format[i] != '%' then ([format[i]], i + 1, n)
    else if At(format, i + 1) == '%' then ("%", i + 2, n)
    else
      var c := ConversionAt(format, i + 1);
      (Converted(c, args(n)), c.next, if TakesArgument(c.letter) then n + 1 else n)
  }

  lemma FormattedPiece(format: string, i: nat, args: nat -> Arg, n: nat, out: string)
    requires At(format, i) != '\0'
    ensures var (text, next, m) := Piece(format, i, args, n);
      && next > i && Formatted(format, i, args, n, out) == Formatted(format, next, args, m, out + text)
      && Complete(format, i) == Complete(format, next)
  {
  }

  lemma AppendAssociates(a: string, b: string, c: string)
    ensures (a + b) + c == a + (b + c)
  {
  }

  /** The formatter only appends: what it writes from a position on does not depend on what was
      written before. */
  lemma {:induction false} FormattedAppends(format: string, i: nat, args: nat -> Arg, n: nat, out: string)
    ensures Formatted(format, i, args, n, out) == out + Formatted(format, i, args, n, "")
    decreases |format| - i
  {
    if At(format, i) != '\0' {
      var (text, next, m) := Piece(format, i, args, n);
      FormattedPiece(format, i, args, n, out);
      FormattedPiece(format, i, args, n, "");
      FormattedAppends(format, next, args, m, out + text);
      FormattedAppends(format, next, args, m, "" + text);
      assert "" + text == text;
      AppendAssociates(out, text, Formatted(format, next, args, m, ""));
    }
  }

  // ----- Terminators -----

  /** A terminated text without percent signs is its own output, whatever comes behind it. */
  lemma {:induction false} PlainText(text: string, after: string, i: nat, args: nat -> Arg, n: nat, out: string)
    requires i <= |text| && '%' !in text && '\0' !in text
    ensures var format := text + "\0" + after;
      Formatted(format, i, args, n, out) == out + text[i..] && Complete(format, i)
    decreases |text| - i
  {
    if i < |text| {
      assert (text + "\0" + after)[i] == text[i];
      PlainText(text, after, i + 1, args, n, out + [text[i]]);
      assert (out + [text[i]]) + text[i + 1..] == out + text[i..];
    }
  }

  lemma {:induction false} SkipDigitsShift(front: string, format: string, i: nat)
    ensures SkipDigits(front + format, |front| + i) == |front| + SkipDigits(format, i)
    decreases |format| - i
  {
    if i < |format| {
      SkipDigitsShift(front, format, i + 1);
    }
  }

  lemma AtShift(front: string, format: string, k: nat)
    ensures At(front + format, |front| + k) == At(format, k)
  {
  }

  lemma ConversionShift(front: string, format: string, i: nat)
    ensures var c := ConversionAt(format, i);
      ConversionAt(front + format, |front| + i) == c.(next := |front| + c.next)
  {
    var j := SkipDigits(format, i);
    SkipDigitsShift(front, format, i);
    AtShift(front, format, j);
    AtShift(front, format, j + 1);
    AtShift(front, format, j + 2);
  }

  lemma PieceShift(front: string, format: string, i: nat, args: nat -> Arg, n: nat)
    requires At(format, i) != '\0'
    ensures At(front + format, |front| + i) == At(format, i)
    ensures var (text, next, m) := Piece(format, i, args, n);
      Piece(front + format, |front| + i, args, n) == (text, |front| + next, m)
  {
    AtShift(front, format, i);
    AtShift(front, format, i + 1);
    ConversionShift(front, format, i + 1);
  }

  /** Where a format lies in memory makes no difference. */
  lemma {:induction false} FormattedShift(front: string, format: string, i: nat, args: nat -> Arg, n: nat, out: string)
    ensures Formatted(front + format, |front| + i, args, n, out) == Formatted(format, i, args, n, out)
    ensures Complete(front + format, |front| + i) == Complete(format, i)
    decreases |format| - i
  {
    if At(format, i) != '\0' {
      var (text, next, m) := Piece(format, i, args, n);
      PieceShift(front, format, i, args, n);
      FormattedPiece(format, i, args, n, out);
      FormattedPiece(front + format, |front| + i, args, n, out);
      FormattedShift(front, format, next, args, m, out + text);
    }
  }

  /** A trailing percent sign takes the terminator for its letter: the terminator becomes part of the
      message, and the memory behind the format is read as if it were the rest of the format. */
  lemma TrailingPercent(after: string, args: nat -> Arg)
    ensures Output("%\0" + after, args) == "%\0" + Output(after, args)
    ensures Complete("%\0" + after, 0) <==> Complete(after, 0)
  {
    var format := "%\0" + after;
    assert format[0] == '%' && format[1] == '\0';
    assert ConversionAt(format, 1) == Conversion(0, '\0', 2);
    assert "%" + "" + ['\0'] == "%\0";
    assert Piece(format, 0, args, 0) == ("%\0", 2, 0);
    FormattedPiece(format, 0, args, 0, "");
    assert "" + "%\0" == "%\0";
    FormattedAppends(format, 2, args, 0, "%\0");
    FormattedShift("%\0", after, 0, args, 0, "");
  }

  // ----- Where a text ends -----

  /** The scan of a text from i on ends right at its end: no conversion is cut off. */
  predicate Whole(text: string, i: nat)
    decreases |text| - i
  {
    if i >= |text| then i == |text|
    else if text[i] != '%' then Whole(text, i + 1)
    else if At(text, i + 1) == '%' then Whole(text, i + 2)
    else Whole(text, ConversionAt(text, i + 1).next)
  }

  /** The number of the next argument when the scan has reached the end of the text. */
  function Taken(text: string, i: nat, n: nat): nat
    decreases |text| - i
  {
    if i >= |text| then n
    else if text[i] != '%' then Taken(text, i + 1, n)
    else if At(text, i + 1) == '%' then Taken(text, i + 2, n)
    else
      var c := ConversionAt(text, i + 1);
      Taken(text, c.next, if TakesArgument(c.letter) then n + 1 else n)
  }

  lemma {:induction false} SkipDigitsAgree(text: string, format: string, i: nat)
    requires |text| <= |format| && format[..|text|] == text && i <= |text| && At(format, |text|) == '\0'
    ensures SkipDigits(format, i) == SkipDigits(text, i) <= |text|
    decreases |text| - i
  {
    if i < |text| {
      assert format[i] == text[i];
      SkipDigitsAgree(text, format, i + 1);
    }
  }

  /** A conversion is read alike in a text and in the memory the terminated text lies in, and ends
      with the terminator at the latest. */
  lemma ConversionAgrees(text: string, format: string, i: nat)
    requires |text| <= |format| && format[..|text|] == text && i <= |text| && At(format, |text|) == '\0'
    ensures ConversionAt(format, i) == ConversionAt(text, i)
    ensures ConversionAt(text, i).next <= |text| + 1
  {
    SkipDigitsAgree(text, format, i);
    assert forall k: nat | k <= |text| :: At(format, k) == At(text, k);
  }

  lemma PieceAgrees(text: string, format: string, i: nat, args: nat -> Arg, n: nat)
    requires |text| <= |format| && format[..|text|] == text && i < |text| && At(format, |text|) == '\0'
    requires '\0' !in text
    ensures At(format, i) == text[i] != '\0'
    ensures Piece(format, i, args, n) == Piece(text, i, args, n)
    ensures var (_, next, m) := Piece(text, i, args, n);
      i < next <= |text| + 1 && Whole(text, i) == Whole(text, next) && Taken(text, i, n) == Taken(text, next, m)
  {
    assert format[i] == text[i] && text[i] in text;
    assert At(format, i + 1) == At(text, i + 1);
    ConversionAgrees(text, format, i + 1);
  }

  /** What lies behind the terminator of a text is never read when no conversion is cut off; else
      the scan goes on there, behind what the text alone gives. */
  lemma {:induction false} BehindTerminator(
      text: string, after: string, i: nat, args: nat -> Arg, n: nat, out: string)
    requires i <= |text| && '\0' !in text
    ensures var format, alone := text + "\0" + after, Formatted(text + "\0", i, args, n, out);
      && Formatted(format, i, args, n, out)
         == (if Whole(text, i) then alone else Formatted(after, 0, args, Taken(text, i, n), alone))
      && Complete(format, i) == (Whole(text, i) || Complete(after, 0))
    decreases |text| - i
  {
    var terminated := text + "\0";
    var format := terminated + after;
    if i < |text| {
      var (piece, next, m) := Piece(text, i, args, n);
      PieceAgrees(text, terminated, i, args, n);
      PieceAgrees(text, format, i, args, n);
      FormattedPiece(terminated, i, args, n, out);
      FormattedPiece(format, i, args, n, out);
      if next <= |text| {
        BehindTerminator(text, after, next, args, m, out + piece);
      } else {
        FormattedShift(terminated, after, 0, args, m, out + piece);
      }
    }
  }

  /** The memory behind the terminator has no say in the output, and the scan never leaves the text,
      exactly when no conversion is cut off. */
  lemma TerminatorStopsIff(text: string, args: nat -> Arg)
    requires '\0' !in text
    ensures (forall after :: Output(text + "\0" + after, args) == Output(text + "\0", args)) <==> Whole(text, 0)
    ensures (forall after :: Complete(text + "\0" + after, 0)) <==> Whole(text, 0)
  {
    forall after
      ensures Whole(text, 0) ==> Output(text + "\0" + after, args) == Output(text + "\0", args)
      ensures Whole(text, 0) ==> Complete(text + "\0" + after, 0)
    {
      BehindTerminator(text, after, 0, args, 0, "");
    }
    BehindTerminator(text, "a", 0, args, 0, "");
    BehindTerminator(text, "", 0, args, 0, "");
    assert !Complete("", 0);
    OneLetter(args, Taken(text, 0, 0), Output(text + "\0", args));
    assert !Whole(text, 0) ==> Output(text + "\0" + "a", args) != Output(text + "\0", args);
    assert !Whole(text, 0) ==> !Complete(text + "\0" + "", 0);
  }

  lemma OneLetter(args: nat -> Arg, n: nat, out: string)
    ensures Formatted("a", 0, args, n, out) == out + "a"
  {
    assert Formatted("a", 1, args, n, out + "a") == out + "a";
  }

  // ----- Which texts are cut off -----

  /** The rest of a text behind a percent sign ends before the letter of its conversion. */
  predicate Unfinished(rest: string) {
    rest[SkipDigits(rest, 0)..] in {"", "l", "ll"}
  }

  /** Where the scan goes on behind the character or conversion at i. */
  function NextPiece(text: string, i: nat): (next: nat)
    requires i < |text|
    ensures next > i && Whole(text, i) == Whole(text, next)
  {
    if text[i] != '%' then i + 1 else if At(text, i + 1) == '%' then i + 2 else ConversionAt(text, i + 1).next
  }

  lemma {:induction false} WholeShift(front: string, text: string, i: nat)
    ensures Whole(front + text, |front| + i) == Whole(text, i)
    decreases |text| - i
  {
    if i < |text| {
      AtShift(front, text, i);
      AtShift(front, text, i + 1);
      ConversionShift(front, text, i + 1);
      WholeShift(front, text, NextPiece(text, i));
    }
  }

  lemma UnfinishedIff(rest: string)
    ensures Unfinished(rest) <==> ConversionAt(rest, 0).next == |rest| + 1
    ensures ConversionAt(rest, 0).next <= |rest| + 1
  {
    var j := SkipDigits(rest, 0);
    assert rest[j..] == "" <==> j == |rest|;
    assert rest[j..] == "l" <==> j + 1 == |rest| && rest[j] == 'l';
    assert rest[j..] == "ll" <==> j + 2 == |rest| && rest[j] == 'l' && rest[j + 1] == 'l';
  }

  lemma {:induction false} SkipDigitsWithin(front: string, text: string, i: nat)
    requires SkipDigits(front, i) < |front| || SkipDigits(front + text, i) < |front|
    ensures SkipDigits(front + text, i) == SkipDigits(front, i)
    decreases |front| - i
  {
    if i < |front| && '0' <= front[i] <= '9' {
      SkipDigitsWithin(front, text, i + 1);
    }
  }

  lemma NextWithin(front: string, text: string, i: nat)
    requires i < |front| && (NextPiece(front, i) <= |front| || NextPiece(front + text, i) <= |front|)
    ensures NextPiece(front + text, i) == NextPiece(front, i)
  {
    if front[i] == '%' && At(front, i + 1) != '%' {
      SkipDigitsWithin(front, text, i + 1);
    }
  }

  /** The scan goes on in what is put behind a whole text. */
  lemma {:induction false} WholePrefix(front: string, text: string, i: nat)
    requires i <= |front| && Whole(front, i)
    ensures Whole(front + text, i) == Whole(text, 0)
    decreases |front| - i
  {
    if i < |front| {
      NextWithin(front, text, i);
      WholePrefix(front, text, NextPiece(front, i));
    } else {
      WholeShift(front, text, 0);
    }
  }

  /** The text ends in a cut-off conversion behind its first k characters. */
  predicate CutOffAt(text: string, k: nat) {
    && k < |text| && Whole(text[..k], 0) && text[k] == '%'
    && At(text, k + 1) != '%' && Unfinished(text[k + 1..])
  }

  lemma CutOffNotWhole(text: string, k: nat)
    requires CutOffAt(text, k)
    ensures !Whole(text, 0)
  {
    var rest := text[k + 1..];
    assert text == text[..k] + text[k..];
    WholePrefix(text[..k], text[k..], 0);
    assert text[k..] == "%" + rest;
    AtShift("%", rest, 0);
    ConversionShift("%", rest, 0);
    UnfinishedIff(rest);
    assert NextPiece(text[k..], 0) == |text[k..]| + 1;
  }

  /** One more piece behind a whole text is whole, too. */
  lemma WholeGrows(text: string, i: nat)
    requires i < |text| && Whole(text[..i], 0) && NextPiece(text, i) <= |text|
    ensures Whole(text[..NextPiece(text, i)], 0)
  {
    var next := NextPiece(text, i);
    var front, piece := text[..i], text[i..next];
    assert text[..next] == front + piece;
    NextOfPrefix(text, i);
    WholePrefix(front, piece, 0);
    WholeShift(front, piece, 0);
  }

  lemma NextOfPrefix(text: string, i: nat)
    requires i < |text| && NextPiece(text, i) <= |text|
    ensures Whole(text[..NextPiece(text, i)], i)
  {
    var next := NextPiece(text, i);
    assert text == text[..next] + text[next..];
    NextWithin(text[..next], text[next..], i);
  }

  lemma CutOffHere(text: string, i: nat)
    requires i < |text| && Whole(text[..i], 0) && NextPiece(text, i) > |text| && !Whole(text, i)
    ensures CutOffAt(text, i)
  {
    var rest := text[i + 1..];
    assert text == text[..i + 1] + rest;
    AtShift(text[..i + 1], rest, 0);
    ConversionShift(text[..i + 1], rest, 0);
    UnfinishedIff(rest);
  }

  lemma {:induction false} FindCutOff(text: string, i: nat) returns (k: nat)
    requires i <= |text| && Whole(text[..i], 0) && !Whole(text, i)
    ensures CutOffAt(text, k)
    decreases |text| - i
  {
    if NextPiece(text, i) <= |text| {
      WholeGrows(text, i);
      k := FindCutOff(text, NextPiece(text, i));
    } else {
      CutOffHere(text, i);
      k := i;
    }
  }

  /** A text is cut off exactly when it ends in a percent sign, digits and at most two `l` behind a
      whole text. */
  lemma WholeIff(text: string)
    ensures Whole(text, 0) <==> forall k: nat :: !CutOffAt(text, k)
  {
    if !Whole(text, 0) {
      assert text[..0] == "" && Whole("", 0);
      var k := FindCutOff(text, 0);
    }
    forall k: nat | CutOffAt(text, k)
      ensures !Whole(text, 0)
    {
      CutOffNotWhole(text, k);
    }
  }
}
