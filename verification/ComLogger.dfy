/** The serial logger's formatter (ComLogger.cpp): a bounded printf that writes into the caller's
    buffer, against an unbounded formatter on values. */
module ComLogger {
  import opened Wrappers

  const MESSAGE_BUFFER_SIZE: nat := 512
  const DIGIT_BUFFER_SIZE: nat := 32
  const HEX_DIGITS: string := "0123456789abcdef"
  const TWO_64: nat := 0x1_0000_0000_0000_0000

  type Int64 = x: int | -0x8000_0000_0000_0000 <= x < 0x8000_0000_0000_0000

  // ----- The buffer -----

  /** Where the terminator stands: the last byte is kept for it. */
  function End(out: string, size: nat): nat
    requires size > 0
  {
    if |out| < size then |out| else size - 1
  }

  /** The buffer holds as much of the output as fits, and its terminator. */
  ghost predicate Holds(buffer: array<char>, size: nat, out: string)
    reads buffer
  {
    && 0 < size <= buffer.Length
    && buffer[..End(out, size)] == out[..End(out, size)]
    && buffer[End(out, size)] == '\0'
  }

  /** Where output stands: a null buffer or one of size zero takes none, any other holds it. */
  ghost predicate Writes(buffer: array?<char>, size: nat, offset: nat, out: string)
    reads buffer
  {
    buffer != null ==>
      size <= buffer.Length && (size > 0 ==> Holds(buffer, size, out) && offset == End(out, size))
  }

  ghost function Target(buffer: array?<char>): set<object> {
    if buffer == null then {} else {buffer}
  }

  method AppendChar(
      buffer: array?<char>, size: nat, offset: nat, value: char, ghost out: string)
    returns (newOffset: nat)
    requires Writes(buffer, size, offset, out)
    modifies Target(buffer)
    ensures Writes(buffer, size, newOffset, out + [value])
    ensures buffer != null ==> buffer[size..] == old(buffer[size..])
    ensures buffer == null || size == 0 ==> newOffset == offset
  {
    if buffer == null || size == 0 || offset >= size - 1 {
      assert size > 0 && |out| >= size - 1 ==> (out + [value])[..size - 1] == out[..size - 1];
      return offset;
    }
    buffer[offset] := value;
    newOffset := offset + 1;
    buffer[newOffset] := '\0';
    assert buffer[..newOffset] == out + [value];
  }

  /** How far a C string is read: up to its terminator and at most `maximum` characters. */
  function TextLength(value: string, maximum: nat): (n: nat)
    ensures n <= |value| && n <= maximum
    ensures forall j | 0 <= j < n :: value[j] != '\0'
    ensures n < |value| && n < maximum ==> value[n] == '\0'
  {
    if value == "" || maximum == 0 || value[0] == '\0' then 0 else 1 + TextLength(value[1..], maximum - 1)
  }

  /** A null pointer reads as "(null)". */
  function StringText(value: Option<string>, maximum: nat): string {
    if value.None? then "(null)" else value.value[..TextLength(value.value, maximum)]
  }

  method AppendString(
      buffer: array?<char>, size: nat, offset: nat, value: Option<string>, maximumLength: nat, ghost out: string)
    returns (newOffset: nat)
    requires Writes(buffer, size, offset, out)
    modifies Target(buffer)
    ensures Writes(buffer, size, newOffset, out + StringText(value, maximumLength))
    ensures buffer != null ==> buffer[size..] == old(buffer[size..])
    ensures buffer == null || size == 0 ==> newOffset == offset
  {
    var text, maximum := "(null)", 6;
    if value.Some? {
      text, maximum := value.value, maximumLength;
    }
    newOffset := offset;
    var index := 0;
    ghost var length := TextLength(text, maximum);
    assert out + text[..0] == out;
    while index < maximum && index < |text| && text[index] != '\0'
      invariant index <= length
      invariant Writes(buffer, size, newOffset, out + text[..index])
      invariant buffer != null ==> buffer[size..] == old(buffer[size..])
      invariant buffer == null || size == 0 ==> newOffset == offset
    {
      newOffset := AppendChar(buffer, size, newOffset, text[index], out + text[..index]);
      assert (out + text[..index]) + [text[index]] == out + text[..index + 1];
      index := index + 1;
    }
    assert value.None? ==> text[..index] == "(null)";
  }

  // ----- Digits -----

  function Digit(d: nat, uppercase: bool): char
    requires d < 16
  {
    var digit := HEX_DIGITS[d];
    if uppercase && 'a' <= digit <= 'f' then digit - 32 as char else digit
  }

  /** The value without its k lowest digits. */
  function Shifted(value: nat, radix: nat, k: nat): nat
    requires radix >= 2
  {
    if k == 0 then value else Shifted(value, radix, k - 1) / radix
  }

  /** The digits of a value, at least one, without leading zeros, but at most `room`. */
  function DigitCount(value: nat, radix: nat, room: nat): (n: nat)
    requires radix >= 2
    ensures n <= room && (room > 0 ==> n > 0)
  {
    if room == 0 then 0 else if value / radix == 0 then 1 else 1 + DigitCount(value / radix, radix, room - 1)
  }

  function DigitAt(value: nat, radix: nat, uppercase: bool, k: nat): char
    requires 2 <= radix <= 16
  {
    Digit(Shifted(value, radix, k) % radix, uppercase)
  }

  /** The digits, most significant first; the buffer for them holds 32. */
  function UnsignedText(value: nat, radix: nat, uppercase: bool): (t: string)
    ensures 2 <= radix <= 16 ==>
      && |t| == DigitCount(value, radix, DIGIT_BUFFER_SIZE)
      && forall i | 0 <= i < |t| :: t[i] == DigitAt(value, radix, uppercase, |t| - 1 - i)
  {
    if radix < 2 || radix > 16 then ""
    else
      var n := DigitCount(value, radix, DIGIT_BUFFER_SIZE);
      seq(n, i requires 0 <= i < n => DigitAt(value, radix, uppercase, n - 1 - i))
  }

  /** Fills the digit array from the least significant digit on. */
  method FillDigits(digits: array<char>, value: nat, radix: nat, uppercase: bool) returns (digitCount: nat)
    requires digits.Length == DIGIT_BUFFER_SIZE && 2 <= radix <= 16
    modifies digits
    ensures digitCount == DigitCount(value, radix, DIGIT_BUFFER_SIZE)
    ensures forall k | 0 <= k < digitCount :: digits[k] == DigitAt(value, radix, uppercase, k)
  {
    var rest: nat := value;
    digitCount := 0;
    var more := true;
    ghost var total := DigitCount(value, radix, DIGIT_BUFFER_SIZE);
    while more
      invariant digitCount <= DIGIT_BUFFER_SIZE && (more ==> digitCount < DIGIT_BUFFER_SIZE)
      invariant rest == Shifted(value, radix, digitCount)
      invariant total == digitCount + if more then DigitCount(rest, radix, DIGIT_BUFFER_SIZE - digitCount) else 0
      invariant forall k | 0 <= k < digitCount :: digits[k] == DigitAt(value, radix, uppercase, k)
      decreases more, DIGIT_BUFFER_SIZE - digitCount
    {
      var digit := rest % radix;
      assert digit < radix;
      digits[digitCount] := Digit(digit, uppercase);
      digitCount := digitCount + 1;
      rest := rest / radix;
      more := rest != 0 && digitCount < DIGIT_BUFFER_SIZE;
    }
  }

  method AppendUnsigned(
      buffer: array?<char>, size: nat, offset: nat, value: nat, radix: nat, uppercase: bool, ghost out: string)
    returns (newOffset: nat)
    requires Writes(buffer, size, offset, out) && value < TWO_64
    modifies Target(buffer)
    ensures Writes(buffer, size, newOffset, out + UnsignedText(value, radix, uppercase))
    ensures buffer != null ==> buffer[size..] == old(buffer[size..])
    ensures buffer == null || size == 0 ==> newOffset == offset
  {
    newOffset := offset;
    if radix < 2 || radix > 16 {
      assert out + "" == out;
      return;
    }
    var digits := new char[DIGIT_BUFFER_SIZE](_ => '\0');
    var digitCount := FillDigits(digits, value, radix, uppercase);
    newOffset := AppendReversed(buffer, size, offset, digits, digitCount, UnsignedText(value, radix, uppercase), out);
  }

  /** Appends the digits from the last one filled in to the first. */
  method AppendReversed(
      buffer: array?<char>, size: nat, offset: nat, digits: array<char>, count: nat,
      ghost text: string, ghost out: string)
    returns (newOffset: nat)
    requires Writes(buffer, size, offset, out) && digits != buffer
    requires |text| == count <= digits.Length
    requires forall i | 0 <= i < count :: text[i] == digits[count - 1 - i]
    modifies Target(buffer)
    ensures Writes(buffer, size, newOffset, out + text)
    ensures buffer != null ==> buffer[size..] == old(buffer[size..])
    ensures buffer == null || size == 0 ==> newOffset == offset
  {
    newOffset := offset;
    var digitCount := count;
    assert out + text[..0] == out;
    while digitCount > 0
      invariant 0 <= digitCount <= count
      invariant Writes(buffer, size, newOffset, out + text[..count - digitCount])
      invariant buffer != null ==> buffer[size..] == old(buffer[size..])
      invariant buffer == null || size == 0 ==> newOffset == offset
    {
      digitCount := digitCount - 1;
      ghost var k := count - 1 - digitCount;
      newOffset := AppendChar(buffer, size, newOffset, digits[digitCount], out + text[..k]);
      assert (out + text[..k]) + [text[k]] == out + text[..k + 1];
    }
    assert text[..count] == text;
  }

  function SignedText(value: Int64): string {
    (if value < 0 then "-" else "") + UnsignedText(Magnitude(value), 10, false)
  }

  /** The magnitude is computed in 64-bit unsigned arithmetic: `static_cast<UINT64>(value)`, and
      `0 - magnitude` when the value is negative. It is right for the minimum, too. */
  function Magnitude(value: Int64): (m: nat)
    ensures m < TWO_64 && m == if value < 0 then 0 - value else value
  {
    var magnitude := value % TWO_64;
    assert magnitude == if value < 0 then value + TWO_64 else value;
    assert value < 0 ==> (0 - magnitude) % TWO_64 == TWO_64 - magnitude;
    if value < 0 then (0 - magnitude) % TWO_64 else magnitude
  }

  method AppendSigned(
      buffer: array?<char>, size: nat, offset: nat, value: Int64, ghost out: string)
    returns (newOffset: nat)
    requires Writes(buffer, size, offset, out)
    modifies Target(buffer)
    ensures Writes(buffer, size, newOffset, out + SignedText(value))
    ensures buffer != null ==> buffer[size..] == old(buffer[size..])
    ensures buffer == null || size == 0 ==> newOffset == offset
  {
    newOffset := offset;
    ghost var sign := if value < 0 then "-" else "";
    if value < 0 {
      newOffset := AppendChar(buffer, size, newOffset, '-', out);
    }
    assert out + "" == out;
    newOffset := AppendUnsigned(buffer, size, newOffset, Magnitude(value), 10, false, out + sign);
    ghost var digits := UnsignedText(Magnitude(value), 10, false);
    assert SignedText(value) == sign + digits;
    assert (out + sign) + digits == out + (sign + digits);
  }

  // ----- The format -----

  /** One slot of the variable arguments: its 64 bits, and the text behind it when it is a string
      pointer. */
  datatype Arg = Arg(bits: nat, text: Option<string>)

  /** The format is the memory from its pointer on: its terminator, and whatever comes behind it.
      Behind what is known of that memory nothing more is read. */
  function At(format: string, i: nat): char {
    if i < |format| then format[i] else '\0'
  }

  function SkipDigits(format: string, i: nat): (j: nat)
    ensures i <= j && (i <= |format| ==> j <= |format|)
    ensures At(format, j) < '0' || At(format, j) > '9'
    decreases |format| - i
  {
    if i < |format| && '0' <= format[i] <= '9' then SkipDigits(format, i + 1) else i
  }

  /** A conversion: how many `l` it has, its letter, and where the scan goes on. */
  datatype Conversion = Conversion(longs: nat, letter: char, next: nat)

  function ConversionAt(format: string, i: nat): (c: Conversion)
    ensures c.next > i && c.longs <= 2
    ensures c.next <= |format| ==> c.letter == format[c.next - 1]
  {
    var j := SkipDigits(format, i);
    var longs := if At(format, j) != 'l' then 0 else if At(format, j + 1) != 'l' then 1 else 2;
    Conversion(longs, At(format, j + longs), j + longs + 1)
  }

  predicate TakesArgument(letter: char) {
    letter in "diuxXps"
  }

  /** int and long are 32 bits wide, long long is 64. */
  function UnsignedValue(longs: nat, bits: nat): nat {
    if longs == 2 then bits % TWO_64 else bits % 0x1_0000_0000
  }

  function SignedValue(longs: nat, bits: nat): Int64 {
    var u := UnsignedValue(longs, bits);
    if longs == 2 then if u >= TWO_64 / 2 then u - TWO_64 else u
    else if u >= 0x8000_0000 then u - 0x1_0000_0000 else u
  }

  /** What a conversion writes for an argument. */
  function Converted(c: Conversion, arg: Arg): string {
    match c.letter
    case 'd' => SignedText(SignedValue(c.longs, arg.bits))
    case 'i' => SignedText(SignedValue(c.longs, arg.bits))
    case 'u' => UnsignedText(UnsignedValue(c.longs, arg.bits), 10, false)
    case 'x' => UnsignedText(UnsignedValue(c.longs, arg.bits), 16, false)
    case 'X' => UnsignedText(UnsignedValue(c.longs, arg.bits), 16, true)
    case 'p' => "0x" + UnsignedText(arg.bits % TWO_64, 16, false)
    case 's' => StringText(arg.text, MESSAGE_BUFFER_SIZE)
    case other => "%" + (if c.longs == 0 then "" else if c.longs == 1 then "l" else "ll") + [other]
  }

  /** The unbounded formatter, from position i and argument n on, appending to `out`. It stops at the
      first terminator it meets as a character; one that cuts a conversion off is taken for the
      conversion's letter, and the scan goes on behind it. */
  function Formatted(format: string, i: nat, args: nat -> Arg, n: nat, out: string): string
    decreases |format| - i
  {
    if At(format, i) == '\0' then out
    else if format[i] != '%' then Formatted(format, i + 1, args, n, out + [format[i]])
    else if At(format, i + 1) == '%' then Formatted(format, i + 2, args, n, out + "%")
    else
      var c := ConversionAt(format, i + 1);
      Formatted(format, c.next, args, if TakesArgument(c.letter) then n + 1 else n, out + Converted(c, args(n)))
  }

  function Output(format: string, args: nat -> Arg): string {
    Formatted(format, 0, args, 0, "")
  }

  /** The scan finds a terminator to stop at within the memory given. */
  predicate Complete(format: string, i: nat)
    decreases |format| - i
  {
    if At(format, i) == '\0' then i < |format|
    else if format[i] != '%' then Complete(format, i + 1)
    else if At(format, i + 1) == '%' then Complete(format, i + 2)
    else Complete(format, ConversionAt(format, i + 1).next)
  }

  /** The scan of digits and `l`s after a percent sign. */
  method ScanConversion(format: string, start: nat) returns (index: nat, longArgument: bool, longLongArgument: bool)
    requires start <= |format|
    ensures var c := ConversionAt(format, start);
      && index == c.next - 1 <= |format| && At(format, index) == c.letter
      && c.longs == (if longLongArgument then 2 else if longArgument then 1 else 0)
    ensures longLongArgument ==> longArgument
  {
    index, longArgument, longLongArgument := start, false, false;
    while '0' <= At(format, index) <= '9'
      invariant index <= |format| && SkipDigits(format, index) == SkipDigits(format, start)
      decreases |format| - index
    {
      index := index + 1;
    }
    if At(format, index) == 'l' {
      longArgument := true;
      index := index + 1;
      if At(format, index) == 'l' {
        longLongArgument := true;
        index := index + 1;
      }
    }
  }

  /** The switch over the conversion letter. */
  method AppendConversion(
      buffer: array?<char>, size: nat, offset: nat, letter: char, longArgument: bool, longLongArgument: bool, arg: Arg,
      ghost c: Conversion, ghost out: string)
    returns (newOffset: nat)
    requires Writes(buffer, size, offset, out)
    requires c.letter == letter && (longLongArgument ==> longArgument)
    requires c.longs == (if longLongArgument then 2 else if longArgument then 1 else 0)
    modifies Target(buffer)
    ensures Writes(buffer, size, newOffset, out + Converted(c, arg))
    ensures buffer != null ==> buffer[size..] == old(buffer[size..])
    ensures buffer == null || size == 0 ==> newOffset == offset
  {
    var longs := if longLongArgument then 2 else if longArgument then 1 else 0;
    match letter {
      case 'd' => newOffset := AppendSigned(buffer, size, offset, SignedValue(longs, arg.bits), out);
      case 'i' => newOffset := AppendSigned(buffer, size, offset, SignedValue(longs, arg.bits), out);
      case 'u' => newOffset := AppendUnsigned(buffer, size, offset, UnsignedValue(longs, arg.bits), 10, false, out);
      case 'x' => newOffset := AppendUnsigned(buffer, size, offset, UnsignedValue(longs, arg.bits), 16, false, out);
      case 'X' => newOffset := AppendUnsigned(buffer, size, offset, UnsignedValue(longs, arg.bits), 16, true, out);
      case 'p' =>
        newOffset := AppendString(buffer, size, offset, Some("0x"), 2, out);
        assert StringText(Some("0x"), 2) == "0x";
        newOffset := AppendUnsigned(buffer, size, newOffset, arg.bits % TWO_64, 16, false, out + "0x");
        assert (out + "0x") + UnsignedText(arg.bits % TWO_64, 16, false) == out + Converted(c, arg);
      case 's' => newOffset := AppendString(buffer, size, offset, arg.text, MESSAGE_BUFFER_SIZE, out);
      case other =>
        newOffset := AppendUnknown(buffer, size, offset, other, longArgument, longLongArgument, out);
        assert Converted(c, arg) == "%" + (if longs == 0 then "" else if longs == 1 then "l" else "ll") + [other];
    }
  }

  /** The default case: the conversion is written out as it stands, without its digits. */
  method AppendUnknown(
      buffer: array?<char>, size: nat, offset: nat, letter: char, longArgument: bool, longLongArgument: bool,
      ghost out: string)
    returns (newOffset: nat)
    requires Writes(buffer, size, offset, out)
    modifies Target(buffer)
    ensures var longs := if !longArgument then "" else if !longLongArgument then "l" else "ll";
      var text := "%" + longs + [letter];
      Writes(buffer, size, newOffset, out + text)
    ensures buffer != null ==> buffer[size..] == old(buffer[size..])
    ensures buffer == null || size == 0 ==> newOffset == offset
  {
    newOffset := AppendChar(buffer, size, offset, '%', out);
    ghost var written := out + "%";
    if longArgument {
      newOffset := AppendChar(buffer, size, newOffset, 'l', written);
      written := written + "l";
      if longLongArgument {
        newOffset := AppendChar(buffer, size, newOffset, 'l', written);
        written := written + "l";
      }
    }
    newOffset := AppendChar(buffer, size, newOffset, letter, written);
    ghost var longs := if !longArgument then "" else if !longLongArgument then "l" else "ll";
    assert written + [letter] == out + ("%" + longs + [letter]);
  }

  /** FormatMessage: the buffer holds the first bytes of the unbounded output, terminated. `format` is
      the memory the pointer leads to; `complete` says whether the scan stayed inside it. */
  method FormatMessage(
      buffer: array?<char>, bufferSize: nat, format: Option<string>, args: nat -> Arg)
    returns (complete: bool)
    requires buffer != null ==> bufferSize <= buffer.Length
    modifies Target(buffer)
    ensures buffer != null ==> buffer[bufferSize..] == old(buffer[bufferSize..])
    ensures buffer != null && bufferSize > 0 ==>
      Holds(buffer, bufferSize, if format.None? then "null log format string" else Output(format.value, args))
    ensures buffer != null && bufferSize > 0 && format.Some? ==> (complete <==> Complete(format.value, 0))
  {
    complete := true;
    if buffer == null || bufferSize == 0 {
      return;
    }
    buffer[0] := '\0';
    if format.None? {
      AppendMessage(buffer, bufferSize, "null log format string");
      return;
    }
    complete := FormatText(buffer, bufferSize, format.value, args);
  }

  method AppendMessage(buffer: array<char>, size: nat, text: string)
    requires Holds(buffer, size, "") && '\0' !in text && |text| <= MESSAGE_BUFFER_SIZE
    modifies buffer
    ensures Holds(buffer, size, text) && buffer[size..] == old(buffer[size..])
  {
    var _ := AppendString(buffer, size, 0, Some(text), MESSAGE_BUFFER_SIZE, "");
    assert text[..|text|] == text;
    assert "" + text == text;
  }

  /** The scan of the format. */
  method FormatText(buffer: array<char>, size: nat, format: string, args: nat -> Arg) returns (complete: bool)
    requires Holds(buffer, size, "")
    modifies buffer
    ensures Holds(buffer, size, Output(format, args)) && buffer[size..] == old(buffer[size..])
    ensures complete <==> Complete(format, 0)
  {
    var index, offset, n := 0, 0, 0;
    ghost var out := "";
    ghost var whole := Output(format, args);
    while At(format, index) != '\0'
      invariant offset == End(out, size)
      invariant Holds(buffer, size, out) && buffer[size..] == old(buffer[size..])
      invariant Formatted(format, index, args, n, out) == whole
      invariant Complete(format, index) <==> Complete(format, 0)
      decreases |format| - index
    {
      index, offset, n, out := FormatOne(buffer, size, offset, format, index, args, n, out);
    }
    return index < |format|;
  }

  /** One round of the scan: a character, a doubled percent sign, or a conversion. */
  method FormatOne(
      buffer: array<char>, size: nat, offset: nat, format: string, index: nat, args: nat -> Arg, n: nat,
      ghost out: string)
    returns (next: nat, newOffset: nat, newN: nat, ghost written: string)
    requires Holds(buffer, size, out) && offset == End(out, size) && At(format, index) != '\0'
    modifies buffer
    ensures Holds(buffer, size, written) && newOffset == End(written, size)
    ensures buffer[size..] == old(buffer[size..])
    ensures next > index && Formatted(format, index, args, n, out) == Formatted(format, next, args, newN, written)
    ensures Complete(format, index) == Complete(format, next)
  {
    newN := n;
    if format[index] != '%' || At(format, index + 1) == '%' {
      written := out + [format[index]];
      newOffset := AppendChar(buffer, size, offset, format[index], out);
      next := if format[index] != '%' then index + 1 else index + 2;
    } else {
      ghost var c := ConversionAt(format, index + 1);
      written := out + Converted(c, args(n));
      var last, longArgument, longLongArgument := ScanConversion(format, index + 1);
      var letter := At(format, last);
      newOffset := AppendConversion(buffer, size, offset, letter, longArgument, longLongArgument, args(n), c, out);
      newN := if TakesArgument(letter) then n + 1 else n;
      next := last + 1;
    }
  }
}
