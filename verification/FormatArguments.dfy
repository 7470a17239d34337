/** Which argument each conversion of a format prints, and what the conversions look like. */
module FormatArguments {
  import opened ComLogger
  import opened FormatTheorems

  // ----- Formats as sequences of conversions -----

  /** Text without percent sign and terminator, then one conversion: digits that are skipped, up to
      two length letters, and the letter of the conversion. */
  datatype Directive = Directive(plain: string, digits: string, longs: nat, letter: char)

  function Longs(n: nat): string {
    if n == 0 then "" else if n == 1 then "l" else "ll"
  }

  function Spelled(d: Directive): string {
    d.plain + ("%" + d.digits + Longs(d.longs) + [d.letter])
  }

  ghost predicate IsPlain(text: string) {
    forall c | c in text :: c != '%' && c != '\0'
  }

  ghost predicate IsDigits(text: string) {
    forall c | c in text :: '0' <= c <= '9'
  }

  /** One of the conversions that print an argument. */
  ghost predicate Prints(d: Directive) {
    && IsPlain(d.plain) && IsDigits(d.digits) && d.longs <= 2
    && (|| d.letter == 'd' || d.letter == 'i' || d.letter == 'u' || d.letter == 'x'
        || d.letter == 'X' || d.letter == 'p' || d.letter == 's')
  }

  /** Any other letter, one that is not read as a digit, a length letter or a second percent sign. */
  ghost predicate PrintsNothing(d: Directive) {
    && IsPlain(d.plain) && IsDigits(d.digits) && d.longs <= 2
    && d.letter != 'd' && d.letter != 'i' && d.letter != 'u' && d.letter != 'x'
    && d.letter != 'X' && d.letter != 'p' && d.letter != 's'
    && !('0' <= d.letter <= '9') && (d.letter == 'l' ==> d.longs == 2)
    && (d.letter == '%' ==> d.digits != "" || d.longs > 0)
  }

  // ----- One conversion -----

  lemma {:induction false} PlainFront(plain: string, rest: string, args: nat -> Arg, n: nat, out: string)
    requires IsPlain(plain)
    ensures Formatted(plain + rest, 0, args, n, out) == Formatted(rest, 0, args, n, out + plain)
  {
    if plain == "" {
      assert plain + rest == rest && out + plain == out;
    } else {
      var first, tail := plain[..1], plain[1..];
      assert forall c | c in tail :: c in plain;
      assert plain + rest == first + (tail + rest);
      assert plain[0] in plain && (plain + rest)[0] == plain[0];
      FormattedPiece(plain + rest, 0, args, n, out);
      assert [plain[0]] == first;
      FormattedShift(first, tail + rest, 0, args, n, out + first);
      PlainFront(tail, rest, args, n, out + first);
      assert (out + first) + tail == out + plain;
    }
  }

  lemma {:induction false} SkipDigitsOver(digits: string, rest: string)
    requires IsDigits(digits) && rest != "" && !('0' <= rest[0] <= '9')
    ensures SkipDigits(digits + rest, 0) == |digits|
  {
    if digits == "" {
      assert digits + rest == rest;
    } else {
      var tail := digits[1..];
      assert digits[0] in digits && forall c | c in tail :: c in digits;
      assert digits + rest == digits[..1] + (tail + rest);
      SkipDigitsShift(digits[..1], tail + rest, 0);
      SkipDigitsOver(tail, rest);
    }
  }

  /** The scan behind the percent sign reads the conversion as it is spelled. */
  lemma ConversionRead(d: Directive, rest: string)
    requires Prints(d) || PrintsNothing(d)
    ensures var tail := d.digits + Longs(d.longs) + [d.letter] + rest;
      ConversionAt(tail, 0) == Conversion(d.longs, d.letter, |d.digits| + d.longs + 1)
  {
    var behind := Longs(d.longs) + [d.letter] + rest;
    assert d.digits + Longs(d.longs) + [d.letter] + rest == d.digits + behind;
    SkipDigitsOver(d.digits, behind);
    var j := |d.digits|;
    assert forall k: nat :: At(d.digits + behind, j + k) == At(behind, k);
    assert At(d.digits + behind, j + 1) == At(behind, 1) && At(d.digits + behind, j + 2) == At(behind, 2);
  }

  lemma PercentBehind(d: Directive, rest: string)
    requires Prints(d) || PrintsNothing(d)
    ensures var format := "%" + (d.digits + Longs(d.longs) + [d.letter] + rest);
      && At(format, 0) == '%' && At(format, 1) != '%'
      && ConversionAt(format, 1) == Conversion(d.longs, d.letter, |d.digits| + d.longs + 2)
  {
    var tail := d.digits + Longs(d.longs) + [d.letter] + rest;
    ConversionRead(d, rest);
    ConversionShift("%", tail, 0);
    if d.digits != "" {
      assert d.digits[0] in d.digits && tail[0] == d.digits[0];
    } else {
      assert tail[0] == if d.longs > 0 then 'l' else d.letter;
    }
  }

  /** One conversion at the front of a format: its text, and where the arguments go on. */
  lemma ConversionFront(d: Directive, rest: string, args: nat -> Arg, n: nat, out: string)
    requires Prints(d) || PrintsNothing(d)
    ensures var c := Conversion(d.longs, d.letter, 0);
      Formatted(Spelled(d) + rest, 0, args, n, out)
      == Formatted(rest, 0, args, if Prints(d) then n + 1 else n, out + d.plain + Converted(c, args(n)))
  {
    var tail := d.digits + Longs(d.longs) + [d.letter] + rest;
    assert Spelled(d) + rest == d.plain + ("%" + tail);
    PlainFront(d.plain, "%" + tail, args, n, out);
    PercentFront(d, rest, args, n, out + d.plain);
  }

  lemma SameLetters(c: Conversion, next: nat, arg: Arg)
    ensures Converted(c, arg) == Converted(c.(next := next), arg)
  {
  }

  lemma TakesIffPrints(d: Directive)
    requires Prints(d) || PrintsNothing(d)
    ensures TakesArgument(d.letter) <==> Prints(d)
  {
  }

  lemma PercentFront(d: Directive, rest: string, args: nat -> Arg, n: nat, out: string)
    requires Prints(d) || PrintsNothing(d)
    ensures var tail := d.digits + Longs(d.longs) + [d.letter] + rest;
      Formatted("%" + tail, 0, args, n, out)
      == Formatted(rest, 0, args, if Prints(d) then n + 1 else n,
                   out + Converted(Conversion(d.longs, d.letter, 0), args(n)))
  {
    var tail := d.digits + Longs(d.longs) + [d.letter] + rest;
    var front := "%" + d.digits + Longs(d.longs) + [d.letter];
    var m, text := if Prints(d) then n + 1 else n, Converted(Conversion(d.longs, d.letter, 0), args(n));
    PercentPiece(d, rest, args, n);
    FormattedPiece("%" + tail, 0, args, n, out);
    assert "%" + tail == front + rest && |front| == |d.digits| + d.longs + 2;
    FormattedShift(front, rest, 0, args, m, out + text);
  }

  lemma PercentPiece(d: Directive, rest: string, args: nat -> Arg, n: nat)
    requires Prints(d) || PrintsNothing(d)
    ensures var format := "%" + (d.digits + Longs(d.longs) + [d.letter] + rest);
      && At(format, 0) != '\0'
      && Piece(format, 0, args, n) ==
         (Converted(Conversion(d.longs, d.letter, 0), args(n)), |d.digits| + d.longs + 2,
          if Prints(d) then n + 1 else n)
  {
    var format := "%" + (d.digits + Longs(d.longs) + [d.letter] + rest);
    var c := ConversionAt(format, 1);
    PercentBehind(d, rest);
    TakesIffPrints(d);
    SameLetters(c, 0, args(n));
    assert Piece(format, 0, args, n) == (Converted(c, args(n)), c.next, if TakesArgument(c.letter) then n + 1 else n);
  }

  // ----- Arguments in order -----

  /** From argument n on one supply gives what the other gives from k on. */
  ghost predicate SameFrom(args: nat -> Arg, n: nat, other: nat -> Arg, k: nat) {
    forall j: nat | j >= n :: args(j) == other(j - n + k)
  }

  lemma {:induction false} OtherSupply(
      format: string, i: nat, args: nat -> Arg, n: nat, other: nat -> Arg, k: nat, out: string)
    requires SameFrom(args, n, other, k)
    ensures Formatted(format, i, args, n, out) == Formatted(format, i, other, k, out)
    decreases |format| - i
  {
    if At(format, i) != '\0' {
      var (text, next, m) := Piece(format, i, args, n);
      assert args(n) == other(k);
      assert Piece(format, i, other, k) == (text, next, k + (m - n));
      FormattedPiece(format, i, args, n, out);
      FormattedPiece(format, i, other, k, out);
      OtherSupply(format, next, args, m, other, k + (m - n), out + text);
    }
  }

  /** The arguments behind the first one. */
  function Others(args: nat -> Arg): nat -> Arg {
    (k: nat) => args(k + 1)
  }

  lemma OthersFollow(args: nat -> Arg)
    ensures SameFrom(args, 1, Others(args), 0)
  {
  }

  /** A printing conversion takes the first argument, and the rest of the format the others. */
  lemma FirstArgument(d: Directive, rest: string, args: nat -> Arg)
    requires Prints(d)
    ensures var text := d.plain + Converted(Conversion(d.longs, d.letter, 0), args(0));
      Output(Spelled(d) + rest, args) == text + Output(rest, Others(args))
  {
    var text := d.plain + Converted(Conversion(d.longs, d.letter, 0), args(0));
    FirstText(d, rest, args, text);
    FormattedAppends(rest, 0, args, 1, text);
    OthersFollow(args);
    OtherSupply(rest, 0, args, 1, Others(args), 0, "");
  }

  lemma FirstText(d: Directive, rest: string, args: nat -> Arg, text: string)
    requires Prints(d) && text == d.plain + Converted(Conversion(d.longs, d.letter, 0), args(0))
    ensures Output(Spelled(d) + rest, args) == Formatted(rest, 0, args, 1, text)
  {
    ConversionFront(d, rest, args, 0, "");
    assert "" + d.plain == d.plain;
  }

  /** Plain text, doubled percent signs and unknown conversions take none. */
  lemma NoArgument(d: Directive, rest: string, args: nat -> Arg)
    ensures PrintsNothing(d) ==>
      Output(Spelled(d) + rest, args) == d.plain + ("%" + Longs(d.longs) + [d.letter]) + Output(rest, args)
    ensures IsPlain(d.plain) ==> Output(d.plain + ("%%" + rest), args) == d.plain + "%" + Output(rest, args)
    ensures IsPlain(d.plain) ==> Output(d.plain + rest, args) == d.plain + Output(rest, args)
  {
    if PrintsNothing(d) {
      UnknownFront(d, rest, args);
    }
    if IsPlain(d.plain) {
      DoubledFront(d.plain, rest, args);
      PlainFront(d.plain, rest, args, 0, "");
      assert "" + d.plain == d.plain;
      FormattedAppends(rest, 0, args, 0, d.plain);
    }
  }

  lemma UnknownFront(d: Directive, rest: string, args: nat -> Arg)
    requires PrintsNothing(d)
    ensures Output(Spelled(d) + rest, args) == d.plain + ("%" + Longs(d.longs) + [d.letter]) + Output(rest, args)
  {
    var text := d.plain + ("%" + Longs(d.longs) + [d.letter]);
    ConversionFront(d, rest, args, 0, "");
    assert Converted(Conversion(d.longs, d.letter, 0), args(0)) == "%" + Longs(d.longs) + [d.letter];
    assert "" + d.plain + ("%" + Longs(d.longs) + [d.letter]) == text;
    FormattedAppends(rest, 0, args, 0, text);
  }

  lemma DoubledFront(plain: string, rest: string, args: nat -> Arg)
    requires IsPlain(plain)
    ensures Output(plain + ("%%" + rest), args) == plain + "%" + Output(rest, args)
  {
    PlainFront(plain, "%%" + rest, args, 0, "");
    assert "" + plain == plain;
    FormattedPiece("%%" + rest, 0, args, 0, plain);
    FormattedShift("%%", rest, 0, args, 0, plain + "%");
    FormattedAppends(rest, 0, args, 0, plain + "%");
  }

  function TextOf(ds: seq<Directive>): string {
    if ds == [] then "" else Spelled(ds[0]) + TextOf(ds[1..])
  }

  /** The k-th conversion of the sequence prints the k-th argument from n on. */
  function InOrder(ds: seq<Directive>, args: nat -> Arg, n: nat): string {
    if ds == [] then ""
    else
      var d := ds[0];
      d.plain + Converted(Conversion(d.longs, d.letter, 0), args(n)) + InOrder(ds[1..], args, n + 1)
  }

  /** Arguments in order: a format of k printing conversions prints arguments 0 to k - 1, each by its
      own conversion. */
  lemma {:induction false} ArgumentsInOrder(ds: seq<Directive>, args: nat -> Arg, n: nat, out: string)
    requires forall d | d in ds :: Prints(d)
    ensures Formatted(TextOf(ds), 0, args, n, out) == out + InOrder(ds, args, n)
    decreases |ds|
  {
    if ds == [] {
      assert out + "" == out;
    } else {
      var d := ds[0];
      var text := Converted(Conversion(d.longs, d.letter, 0), args(n));
      ConversionFront(d, TextOf(ds[1..]), args, n, out);
      ArgumentsInOrder(ds[1..], args, n + 1, out + d.plain + text);
      AppendAssociates(out + d.plain, text, InOrder(ds[1..], args, n + 1));
      AppendAssociates(out, d.plain, text + InOrder(ds[1..], args, n + 1));
      AppendAssociates(d.plain, text, InOrder(ds[1..], args, n + 1));
    }
  }

  // ----- What the other conversions look like -----

  /** A string is printed up to its terminator and at most 512 characters; a null pointer is "(null)". */
  lemma StringsPrinted(longs: nat, arg: Arg)
    ensures var t := Converted(Conversion(longs, 's', 0), arg);
      if arg.text.None? then t == "(null)"
      else
        var s := arg.text.value;
        && t <= s && |t| <= 512 && '\0' !in t
        && (|t| < |s| && |t| < 512 ==> s[|t|] == '\0')
  {
  }

  /** Lower-case digits for `x` and pointers, upper-case ones for `X`. */
  lemma DigitCase(longs: nat, arg: Arg)
    ensures forall c | c in Converted(Conversion(longs, 'x', 0), arg) :: '0' <= c <= '9' || 'a' <= c <= 'f'
    ensures forall c | c in Converted(Conversion(longs, 'X', 0), arg) :: '0' <= c <= '9' || 'A' <= c <= 'F'
    ensures forall c | c in Converted(Conversion(longs, 'p', 0), arg)[2..] :: '0' <= c <= '9' || 'a' <= c <= 'f'
  {
    assert forall d: nat | d < 16 :: '0' <= Digit(d, false) <= '9' || 'a' <= Digit(d, false) <= 'f';
    assert forall d: nat | d < 16 :: '0' <= Digit(d, true) <= '9' || 'A' <= Digit(d, true) <= 'F';
  }
}
