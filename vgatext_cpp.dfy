/**
 * The older `VGAText` implementation file: `out` (the same control-code
 * machine as the header's `put_char`), the string and number writers `str`,
 * `dec`, `hex` and `bin` built on it, and the translator helpers `Rotl__`,
 * `Between__` and `Lookup__`.
 *
 * The file refers to members `cols`, `rows`, `screensize`, `screen` and
 * `flag` that the header does not declare; they are taken here to be the
 * header's 32 columns, 15 rows, 480-word screen and control flag, so `out`
 * runs the `Terminal` of the header model.
 *
 * `hex` and `bin` shift and rotate the bits of an `int32_t`; their values are
 * modelled as `bv32` bit patterns, and the shift and rotation amounts and
 * digit counts as `bv6` (0..63).
 */
module VgaTextCpp {
  import opened Base
  import opened VgaText
  import Printer

  const INT32_MIN: int := -0x8000_0000
  const INT32_MAX: int := 0x7FFF_FFFF

  /** `Rotl__`: a 32-bit rotation left by `b` (0 < b < 32). */
  function Rotl(a: bv32, b: bv6): bv32
    requires 0 < b < 32
  {
    (a << b) | (a >> (32 - b))
  }

  /** A rotation left by any amount up to 32 (shifting a `bv32` by 32 gives 0). */
  function RotlN(a: bv32, m: bv6): bv32
    requires m <= 32
  {
    (a << m) | (a >> (32 - m))
  }

  /** `Between__`: `x` lies between `a` and `b`, in either order. */
  function Between(x: int, a: int, b: int): (r: bool)
    ensures r <==> (a <= x <= b || b <= x <= a)
  {
    if a <= b then a <= x <= b else b <= x <= a
  }

  /** `Lookup__`: entry `x - b` of the table, or 0 when that index (taken unsigned) is past the end. */
  function Lookup(x: int, b: int, table: seq<int>): (r: int)
    ensures 0 <= x - b < |table| ==> r == table[x - b]
    ensures !(0 <= x - b < |table|) ==> r == 0
  {
    var i := x - b;
    if 0 <= i < |table| then table[i] else 0
  }

  /** The digit table of `hex`. */
  const HEX_DIGITS: seq<SChar> := ['0' as int, '1' as int, '2' as int, '3' as int, '4' as int, '5' as int,
    '6' as int, '7' as int, '8' as int, '9' as int, 'A' as int, 'B' as int, 'C' as int, 'D' as int, 'E' as int, 'F' as int]

  // ---------------------------------------------------------------- out and str

  /** `out`: the header's `put_char`, with the result 0. */
  method Out(t: Terminal, c: SChar) returns (result: int)
    requires t.Valid() && PositionOk(t.flag, c)
    modifies t, t.screen
    ensures result == 0
    ensures t.Valid() && t.State() == PutCharOf(old(t.State()), c)
  {
    result := 0;
    t.PutChar(c);
  }

  /** `str`: every character before the terminating 0, through `out`. */
  method Str(t: Terminal, text: seq<SChar>)
    requires t.Valid() && PositionsOk(t.flag, text[..CStrLen(text)])
    modifies t, t.screen
    ensures t.Valid() && t.State() == PutsOf(old(t.State()), text[..CStrLen(text)])
  {
    var i := 0;
    while i < |text| && text[i] != 0
      invariant i <= CStrLen(text)
      invariant PositionsOk(old(t.flag), text[..i])
      invariant t.Valid() && t.State() == PutsOf(old(t.State()), text[..i])
    {
      PutsStep(old(t.State()), text, i, CStrLen(text));
      var _ := Out(t, text[i]);
      i := i + 1;
    }
  }

  // ---------------------------------------------------------------- dec

  function Pow10(n: nat): (r: nat)
    ensures r >= 1
  {
    if n == 0 then 1 else 10 * Pow10(n - 1)
  }

  /** Characters as the signed codes `out` takes. */
  function Codes(s: seq<char>): (r: seq<SChar>)
    ensures |r| == |s|
  {
    if s == [] then []
    else
      Codes(s[..|s| - 1]) + [Code(s[|s| - 1])]
  }

  /** The signed code of one character. */
  function Code(c: char): SChar
  {
    var b := ByteOf(c);
    if b < 128 then b else b - 256
  }

  lemma {:induction false} CodesAppend(a: seq<char>, b: seq<char>)
    ensures Codes(a + b) == Codes(a) + Codes(b)
    decreases |b|
  {
    if b != [] {
      var front := b[..|b| - 1];
      var last := b[|b| - 1];
      assert (a + b)[..|a + b| - 1] == a + front;
      assert (a + b)[|a + b| - 1] == last;
      CodesAppend(a, front);
      assert Codes(a + b) == Codes(a + front) + [Code(last)];
      assert Codes(b) == Codes(front) + [Code(last)];
    } else {
      assert a + b == a;
    }
  }

  /** The decimal digits of `x` as codes, most significant first. */
  function DecDigits(x: nat): (r: seq<SChar>)
    ensures forall i :: 0 <= i < |r| ==> '0' as int <= r[i] <= '9' as int
  {
    (if x < 10 then [] else DecDigits(x / 10)) + [x % 10 + '0' as int]
  }

  /** They are the digits the formatted printer produces, as codes. */
  lemma {:induction false} DecDigitsPrinted(x: nat)
    ensures DecDigits(x) == Codes(Printer.Digits(x, 10))
    decreases x
  {
    Printer.DivMod(x, 10);
    var high := if x < 10 then [] else Printer.Digits(x / 10, 10);
    assert Printer.Digits(x, 10) == high + [Printer.DigitChar(x % 10)];
    CodesAppend(high, [Printer.DigitChar(x % 10)]);
    if x >= 10 {
      DecDigitsPrinted(x / 10);
    }
    assert Codes([Printer.DigitChar(x % 10)]) == [x % 10 + '0' as int];
  }

  /** What `dec` prints: a minus sign for a negative value, then its decimal digits without leading zeros. */
  function DecText(value: int): (r: seq<SChar>)
    ensures forall i :: 0 <= i < |r| ==> r[i] >= 0
  {
    (if value < 0 then ['-' as int] else []) + DecDigits(if value < 0 then -value else value)
  }

  /** The digits `dec` prints read back as the magnitude, and start with '0' only for zero. */
  lemma DecTextValue(value: int)
    ensures var magnitude := if value < 0 then -value else value;
      var digits := Printer.Digits(magnitude, 10);
      && DecText(value) == (if value < 0 then ['-' as int] else []) + Codes(digits)
      && Printer.ValueOf(digits, 10) == magnitude
      && (digits[0] == '0' <==> value == 0)
  {
    var magnitude := if value < 0 then -value else value;
    DecDigitsPrinted(magnitude);
    Printer.DigitsValue(magnitude, 10);
    Printer.DigitsLeading(magnitude, 10);
  }

  /** A digit appended to a positive number appends its character. */
  lemma DecimalSnoc(q: nat, d: nat)
    requires 0 < q && d < 10
    ensures DecDigits(10 * q + d) == DecDigits(q) + [d + '0' as int]
  {
    var x := 10 * q + d;
    assert x / 10 == q && x % 10 == d;
  }

  /** A value below `k * i` has a quotient by `i` below `k`. */
  lemma DivBelow(x: nat, i: nat, k: nat)
    requires 0 < i && x < k * i
    ensures x / i < k
  {
    var d := x / i;
    assert (k - d) * i == k * i - d * i;
    MulSign(k - d, i);
  }

  lemma MulMonotone(a: nat, b: nat, c: nat)
    requires a <= b
    ensures a * c <= b * c
  {
  }

  /** Splitting the rest `v` at place value `i` keeps the whole: `q` tens of `i` and `v` are `10 q + v / i` of `i` and `v % i`. */
  lemma Recombine(q: nat, v: nat, i: nat)
    requires 0 < i
    ensures q * (10 * i) + v == (10 * q + v / i) * i + v % i
  {
    assert v == (v / i) * i + v % i;
    assert q * (10 * i) == (10 * q) * i;
    assert (10 * q + v / i) * i == (10 * q) * i + (v / i) * i;
  }

  /** The digits `dec` has printed while places remain, `q` being the value of the places done: none while it is 0. */
  function DecShown(q: nat): (r: seq<SChar>)
    ensures forall i :: 0 <= i < |r| ==> '0' as int <= r[i] <= '9' as int
  {
    if q == 0 then [] else DecDigits(q)
  }

  /**
   * The digits of one turn of `dec`'s loop: the digit `d` printed (or the zero printed, or nothing for a
   * leading zero) extends the digits shown, to all the digits of the value at the last place (`n = 0`).
   */
  lemma DecDigitTurn(q: nat, d: nat, n: nat)
    requires d < 10
    ensures var c := if d != 0 then [d + '0' as int] else if q != 0 || n == 0 then ['0' as int] else [];
      && (n > 0 ==> DecShown(10 * q + d) == DecShown(q) + c)
      && (n == 0 ==> DecDigits(10 * q + d) == DecShown(q) + c)
  {
    if q != 0 {
      DecimalSnoc(q, d);
    } else {
      assert 10 * q + d == d;
    }
  }

  /** One more digit printed by `dec` after the sign and the digits shown so far, a prefix of all its digits. */
  lemma DecEmit(s0: VgaState, sign: seq<SChar>, shown: seq<SChar>, rest: seq<int>, magnitude: nat, c: SChar)
    requires Good(s0) && 0 <= c && (sign == [] || sign == ['-' as int])
    requires shown + rest == DecDigits(magnitude)
    ensures PositionsOk(s0.flag, sign + shown) && PositionOk(PutsOf(s0, sign + shown).flag, c)
    ensures PositionsOk(s0.flag, sign + (shown + [c]))
    ensures PutsOf(s0, sign + (shown + [c])) == PutCharOf(PutsOf(s0, sign + shown), c)
  {
    var text := sign + shown;
    assert forall j :: 0 <= j < |shown| ==> shown[j] == DecDigits(magnitude)[j];
    assert forall j :: 0 <= j < |text| ==> text[j] >= 0;
    assert sign + (shown + [c]) == text + [c];
    PutsSnocPrintable(s0, text, c);
  }



  /**
   * What `dec`'s loop prints from the place value `10^n` down, the rest of the magnitude being `v`:
   * a digit when `v` reaches the place, else a zero once a digit was printed or at the units place.
   */
  function DecRest(v: nat, n: int, started: bool): seq<int>
    decreases n + 1
  {
    if n < 0 then []
    else
      var i := Pow10(n);
      (if v >= i then [Quot(v, i) + '0' as int] else if started || i == 1 then ['0' as int] else [])
      + DecRest(if v >= i then Rem(v, i) else v, n - 1, started || v >= i)
  }


  /** The digit of `v` at place value `10^n` and what is left of `v` below that place. */
  lemma Place(v: nat, n: nat)
    requires v < 10 * Pow10(n)
    ensures var i := Pow10(n);
      && 0 <= v / i < 10 && 0 <= v % i < i && (v >= i <==> v / i != 0) && (v < i ==> v % i == v)
      && (n > 0 ==> i == 10 * Pow10(n - 1)) && (i == 1 <==> n == 0)
  {
    var i := Pow10(n);
    PlaceDown(n);
    if v < i {
      DivUnique(v, i, 0, v);
    } else {
      DivBelow(v, i, 10);
      assert v == (v / i) * i + v % i;
    }
  }

  /** The place value below `10^n` is a tenth of it, and the units place is the last. */
  lemma PlaceDown(n: nat)
    ensures n > 0 ==> Pow10(n) == 10 * Pow10(n - 1) && Pow10(n) / 10 == Pow10(n - 1)
    ensures n == 0 <==> Pow10(n) == 1
    ensures n == 0 ==> Pow10(n) / 10 == 0
  {
  }

  /** The value of `q` shifted above the place value `10^n`, that is `q * 10^(n+1)`. */
  function Scale(q: nat, n: nat): (r: nat)
    ensures q == 0 ==> r == 0
    decreases n
  {
    if n == 0 then 10 * q else 10 * Scale(q, n - 1)
  }

  lemma {:induction false} ScaleProduct(q: nat, n: nat)
    ensures Scale(q, n) == q * (10 * Pow10(n))
    decreases n
  {
    if n > 0 {
      ScaleProduct(q, n - 1);
      assert q * (10 * Pow10(n)) == 10 * (q * (10 * Pow10(n - 1)));
    }
  }

  /**
   * The magnitude `whole`, with the places above `10^n` worth `q` and the rest `v`, is again of that form one
   * place lower once the digit at `10^n` moves into `q`; at the units place it is `q` with that digit.
   */
  lemma DecSplit(whole: nat, q: nat, v: nat, n: nat)
    requires v < 10 * Pow10(n) && whole == Scale(q, n) + v
    ensures var i := Pow10(n); var d := v / i; var nv := if v >= i then v % i else v;
      && (n > 0 ==> nv < 10 * Pow10(n - 1) && whole == Scale(10 * q + d, n - 1) + nv)
      && (n == 0 ==> whole == 10 * q + d)
  {
    var i := Pow10(n);
    Place(v, n);
    Recombine(q, v, i);
    ScaleProduct(q, n);
    if n > 0 {
      ScaleProduct(10 * q + v / i, n - 1);
    }
  }

  /** One turn of `dec`'s loop moves the digit at place `10^n` from what is left to print into what is shown. */
  lemma DecRestTurn(q: nat, v: nat, n: nat)
    requires v < 10 * Pow10(n)
    ensures v / Pow10(n) < 10 && (n > 0 ==> (if v >= Pow10(n) then v % Pow10(n) else v) < 10 * Pow10(n - 1))
    ensures var i := Pow10(n); var d := v / i; var nv := if v >= i then v % i else v;
      n > 0 ==> DecShown(q) + DecRest(v, n, q != 0) == DecShown(10 * q + d) + DecRest(nv, n - 1, 10 * q + d != 0)
    ensures n == 0 ==> DecShown(q) + DecRest(v, n, q != 0) == DecDigits(10 * q + v / Pow10(n))
  {
    var i := Pow10(n);
    Place(v, n);
    QuotRem(v, i);
    var d := v / i;
    var nv := if v >= i then v % i else v;
    DecDigitTurn(q, d, n);
    var c := if d != 0 then [d + '0' as int] else if q != 0 || n == 0 then ['0' as int] else [];
    assert c == if v >= i then [d + '0' as int] else if q != 0 || i == 1 then ['0' as int] else [];
    var rest := DecRest(nv, n - 1, 10 * q + d != 0);
    assert DecRest(v, n, q != 0) == c + rest;
    Associate(DecShown(q), c, rest);
  }

  /**
   * `dec`'s loop prints, after the digits shown for the places done (worth `q`), exactly the remaining
   * digits of the whole magnitude.
   */
  lemma {:induction false} DecRestDigits(whole: nat, q: nat, v: nat, n: nat)
    requires v < 10 * Pow10(n) && whole == Scale(q, n) + v
    ensures DecShown(q) + DecRest(v, n, q != 0) == DecDigits(whole)
    decreases n
  {
    var i := Pow10(n);
    Place(v, n);
    var d := v / i;
    var nv := if v >= i then v % i else v;
    if n > 0 {
      assert nv < 10 * Pow10(n - 1) && whole == Scale(10 * q + d, n - 1) + nv by { DecSplit(whole, q, v, n); }
      assert DecShown(q) + DecRest(v, n, q != 0) == DecShown(10 * q + d) + DecRest(nv, n - 1, 10 * q + d != 0) by {
        DecRestTurn(q, v, n);
      }
      DecRestDigits(whole, 10 * q + d, nv, n - 1);
    } else {
      DecRestLast(whole, q, v);
    }
  }

  /** At the units place the digits shown and the last digit printed are all the digits of the magnitude. */
  lemma DecRestLast(whole: nat, q: nat, v: nat)
    requires v < 10 * Pow10(0) && whole == Scale(q, 0) + v
    ensures DecShown(q) + DecRest(v, 0, q != 0) == DecDigits(whole)
  {
    DecSplit(whole, q, v, 0);
    DecRestTurn(q, v, 0);
  }

  /** Quotient of natural numbers by repeated subtraction, equal to `/` (`QuotRem`). */
  function Quot(v: nat, i: nat): (r: nat)
    requires 0 < i
    decreases v
  {
    if v < i then 0 else 1 + Quot(v - i, i)
  }

  /** Remainder of natural numbers by repeated subtraction, equal to `%` (`QuotRem`). */
  function Rem(v: nat, i: nat): (r: nat)
    requires 0 < i
    decreases v
  {
    if v < i then v else Rem(v - i, i)
  }

  /** On natural numbers, C's truncating `/` and `%` and Dafny's agree with `Quot` and `Rem`. */
  lemma {:induction false} QuotRem(v: nat, i: nat)
    requires 0 < i
    ensures Quot(v, i) == v / i && Rem(v, i) == v % i && v == Quot(v, i) * i + Rem(v, i) && Rem(v, i) < i
    decreases v
  {
    if v >= i {
      QuotRem(v - i, i);
      var q := Quot(v - i, i);
      var r := Rem(v - i, i);
      assert v == (q + 1) * i + r;
      DivUnique(v, i, q + 1, r);
    } else {
      DivUnique(v, i, 0, v);
    }
  }

  /** A non-zero multiple of `i` is at least `i` away from zero. */
  lemma MulSign(d: int, i: nat)
    ensures d >= 1 ==> d * i >= i
    ensures d <= -1 ==> d * i <= -(i as int)
  {
    if d >= 1 {
      MulMonotone(1, d, i);
    } else if d <= -1 {
      MulMonotone(1, -d, i);
      assert (-d) * i == -(d * i);
    }
  }

  /** A quotient and remainder that rebuild `v` are its quotient and remainder. */
  lemma DivUnique(v: nat, i: nat, q: nat, r: nat)
    requires 0 < i && v == q * i + r && r < i
    ensures v / i == q && v % i == r
  {
    var q' := v / i;
    var r' := v % i;
    assert (q - q') * i == q * i - q' * i == r' - r;
    MulSign(q - q', i);
  }

  /** `value / i` and `value % i` as `dec` computes them, on its non-negative rest. */
  method DivMod(v: int, i: int) returns (q: int, r: int)
    requires 0 <= v && 0 < i
    ensures q == Quot(v, i) && r == Rem(v, i)
  {
    q := v / i;
    r := v % i;
    QuotRem(v, i);
  }

  /** Where `dec`'s loop stands before the place value `i = 10^n`: the rest `v` of the magnitude is below `10 i`. */
  predicate DecPlace(v: int, i: int, n: int)
  {
    n >= -1 && 0 <= v && (n >= 0 ==> i == Pow10(n) && v < 10 * i)
  }

  /**
   * One turn of `dec`'s loop at place value `i = 10^n`: the character printed (`c`, possibly none) moves from
   * what is left to print to what is shown, and the rest `v` and the place value move one place down.
   */
  lemma DecStep(v: int, i: int, n: int, started: bool, shown: seq<SChar>, magnitude: nat)
    requires n >= 0 && DecPlace(v, i, n)
    requires shown + DecRest(v, n, started) == DecDigits(magnitude)
    ensures 0 <= Quot(v, i) < 10
    ensures v >= i ==>
      && DecPlace(Rem(v, i), i / 10, n - 1)
      && (shown + [Quot(v, i) + '0' as int]) + DecRest(Rem(v, i), n - 1, true) == DecDigits(magnitude)
    ensures v < i && (started || i == 1) ==>
      && DecPlace(v, i / 10, n - 1)
      && (shown + ['0' as int]) + DecRest(v, n - 1, started) == DecDigits(magnitude)
    ensures v < i && !(started || i == 1) ==>
      && DecPlace(v, i / 10, n - 1)
      && shown + DecRest(v, n - 1, started) == DecDigits(magnitude)
  {
    Place(v, n);
    PlaceDown(n);
    QuotRem(v, i);
    var nv := if v >= i then v % i else v;
    var c := if v >= i then [v / i + '0' as int] else if started || i == 1 then ['0' as int] else [];
    var rest := DecRest(nv, n - 1, started || v >= i);
    assert DecRest(v, n, started) == c + rest;
    Associate(shown, c, rest);
  }

  /** `out` of one digit of `dec`: the digits shown, a prefix of all the digits, grow by that digit. */
  method DecOut(t: Terminal, ch: SChar, ghost s0: VgaState, ghost sign: seq<SChar>, ghost shown: seq<SChar>,
                ghost rest: seq<int>, ghost magnitude: nat)
    requires 0 <= ch && Good(s0) && (sign == [] || sign == ['-' as int]) && shown + rest == DecDigits(magnitude)
    requires t.Valid() && PositionsOk(s0.flag, sign + shown) && t.State() == PutsOf(s0, sign + shown)
    modifies t, t.screen
    ensures t.Valid() && PositionsOk(s0.flag, sign + (shown + [ch])) && t.State() == PutsOf(s0, sign + (shown + [ch]))
  {
    DecEmit(s0, sign, shown, rest, magnitude, ch);
    var _ := Out(t, ch);
  }

  /**
   * Where `dec`'s loop stands: the rest `v` is below ten times the place value `i = 10^n`, the digits shown so far
   * and those still to print make all the digits of the magnitude, and the screen holds the sign and the
   * digits shown.
   */
  ghost predicate DecLoop(t: Terminal, s0: VgaState, sign: seq<SChar>, magnitude: nat, shown: seq<SChar>,
                          v: int, i: int, n: int, started: bool)
    reads t, t.screen, t.colors
  {
    && Good(s0) && (sign == [] || sign == ['-' as int]) && DecPlace(v, i, n)
    && shown + DecRest(v, n, started) == DecDigits(magnitude)
    && t.Valid() && PositionsOk(s0.flag, sign + shown) && t.State() == PutsOf(s0, sign + shown)
  }

  /** The first branch of `dec`'s loop body: the rest reaches the place value, so its digit there is printed. */
  method DecDigit(t: Terminal, v: int, i: int, ghost n: int, ghost started: bool, ghost s0: VgaState,
                  ghost sign: seq<SChar>, ghost shown: seq<SChar>, ghost magnitude: nat)
    returns (v': int, ghost shown': seq<SChar>)
    requires n >= 0 && v >= i && DecLoop(t, s0, sign, magnitude, shown, v, i, n, started)
    modifies t, t.screen
    ensures DecLoop(t, s0, sign, magnitude, shown', v', i / 10, n - 1, true)
  {
    DecStep(v, i, n, started, shown, magnitude);
    var digit, rest := DivMod(v, i);
    var ch: SChar := digit + '0' as int;
    DecOut(t, ch, s0, sign, shown, DecRest(v, n, started), magnitude);
    shown' := shown + [ch];
    v' := rest;
    assert DecPlace(v', i / 10, n - 1) && shown' + DecRest(v', n - 1, true) == DecDigits(magnitude);
  }

  /** The second branch of `dec`'s loop body: a zero inside the number, or the lone zero of 0 at the units place. */
  method DecZero(t: Terminal, v: int, i: int, ghost n: int, ghost started: bool, ghost s0: VgaState,
                 ghost sign: seq<SChar>, ghost shown: seq<SChar>, ghost magnitude: nat)
    returns (ghost shown': seq<SChar>)
    requires n >= 0 && v < i && (started || i == 1) && DecLoop(t, s0, sign, magnitude, shown, v, i, n, started)
    modifies t, t.screen
    ensures DecLoop(t, s0, sign, magnitude, shown', v, i / 10, n - 1, started)
  {
    DecStep(v, i, n, started, shown, magnitude);
    var ch: SChar := '0' as int;
    DecOut(t, ch, s0, sign, shown, DecRest(v, n, started), magnitude);
    shown' := shown + [ch];
  }

  /**
   * The body of `dec`'s loop: at place value `i`, print the digit of the rest `v` if it reaches `i`, or a
   * zero once printing started (`result != 0`) or at the units place, then move to the place below;
   * what is printed extends `shown`.
   */
  method DecTurn(t: Terminal, v: int, i: int, result: int, ghost n: int, ghost s0: VgaState, ghost sign: seq<SChar>,
                 ghost shown: seq<SChar>, ghost magnitude: nat)
    returns (v': int, i': int, result': int, ghost n': int, ghost shown': seq<SChar>)
    requires n >= 0 && DecLoop(t, s0, sign, magnitude, shown, v, i, n, result != 0)
    modifies t, t.screen
    ensures n' == n - 1 && DecLoop(t, s0, sign, magnitude, shown', v', i', n', result' != 0)
  {
    if v >= i {
      v', shown' := DecDigit(t, v, i, n, result != 0, s0, sign, shown, magnitude);
      result' := -1;
    } else if result != 0 || i == 1 {
      shown' := DecZero(t, v, i, n, result != 0, s0, sign, shown, magnitude);
      v', result' := v, result;
    } else {
      DecStep(v, i, n, result != 0, shown, magnitude);
      v', result', shown' := v, result, shown;
    }
    i' := i / 10;
    n' := n - 1;
  }

  /** The minus sign `dec` prints for a negative value is one `put_char` of a printable character. */
  lemma MinusSign(s0: VgaState)
    requires Good(s0)
    ensures PositionOk(s0.flag, '-' as int) && PositionsOk(s0.flag, ['-' as int] + [])
    ensures PutsOf(s0, ['-' as int] + []) == PutCharOf(s0, '-' as int)
  {
    PutsSnocPrintable(s0, [], '-' as int);
    assert [] + ['-' as int] == ['-' as int] + [];
  }

  /** Before `dec`'s loop nothing is shown and the whole magnitude is left, below `10 * 10^9`. */
  lemma DecStart(t: Terminal, s0: VgaState, sign: seq<SChar>, v: nat)
    requires Good(s0) && (sign == [] || sign == ['-' as int]) && v <= INT32_MAX
    requires t.Valid() && PositionsOk(s0.flag, sign + []) && t.State() == PutsOf(s0, sign + [])
    ensures DecLoop(t, s0, sign, v, [], v, 1000000000, 9, false)
  {
    assert Pow10(9) == 1000000000;
    DecRestDigits(v, 0, v, 9);
  }

  /** The start of `dec`: a negative `value` prints its minus sign and goes on with its magnitude. */
  method DecSign(t: Terminal, value: int) returns (v: int, ghost s0: VgaState, ghost sign: seq<SChar>, ghost magnitude: nat)
    requires t.Valid() && INT32_MIN < value <= INT32_MAX
    modifies t, t.screen
    ensures s0 == old(t.State()) && DecText(value) == sign + DecDigits(magnitude)
    ensures DecLoop(t, s0, sign, magnitude, [], v, 1000000000, 9, false)
  {
    s0 := t.State();
    if value < 0 {
      sign, magnitude, v := ['-' as int], -value, -value;
      MinusSign(s0);
      var _ := Out(t, '-' as int);
    } else {
      sign, magnitude, v := [], value, value;
      assert sign + [] == [];
    }
    DecStart(t, s0, sign, v);
  }

  /** The loop of `dec`: ten turns, from the place value `10^9` down to the units. */
  method DecPlaces(t: Terminal, v: int, ghost s0: VgaState, ghost sign: seq<SChar>, ghost magnitude: nat)
    requires DecLoop(t, s0, sign, magnitude, [], v, 1000000000, 9, false)
    modifies t, t.screen
    ensures t.Valid() && t.State() == PutsOf(s0, sign + DecDigits(magnitude))
  {
    ghost var n: int := 9;
    ghost var shown: seq<SChar> := [];
    var v := v;
    var result := 0;
    var i := 1000000000;
    var idx := 1;
    while idx <= 10
      invariant idx + n == 10 && DecLoop(t, s0, sign, magnitude, shown, v, i, n, result != 0)
    {
      v, i, result, n, shown := DecTurn(t, v, i, result, n, s0, sign, shown, magnitude);
      idx := idx + 1;
    }
    assert shown + [] == shown;
    assert shown == DecDigits(magnitude);
  }

  /** `dec`: through `out`, the decimal text of `value` (the source negates `value`, so it must not be `INT32_MIN`). */
  method Dec(t: Terminal, value: int)
    requires t.Valid() && INT32_MIN < value <= INT32_MAX
    modifies t, t.screen
    ensures t.Valid() && t.State() == PutsOf(old(t.State()), DecText(value))
  {
    var v, s0, sign, magnitude := DecSign(t, value);
    DecPlaces(t, v, s0, sign, magnitude);
  }

  // ---------------------------------------------------------------- hex and bin

  /** The digit character of a nibble. */
  function Glyph(x: bv4): (r: SChar)
    ensures r == HEX_DIGITS[x as int]
    ensures '0' as int <= r <= 'F' as int
  {
    HEX_DIGITS[x as int]
  }

  /** The `n` low hex digits of `v`, most significant first. */
  function HexText(v: bv32, n: bv6): (r: seq<SChar>)
    requires n <= 8
    ensures forall i :: 0 <= i < |r| ==> r[i] >= 0
    decreases n
  {
    if n == 0 then [] else HexText(v >> 4, n - 1) + [Glyph((v & 0xF) as bv4)]
  }

  /** The `n` low binary digits of `v`, most significant first. */
  function BinText(v: bv32, n: bv6): (r: seq<SChar>)
    requires n <= 32
    ensures forall i :: 0 <= i < |r| ==> r[i] >= 0
    decreases n
  {
    if n == 0 then [] else BinText(v >> 1, n - 1) + [Glyph((v & 1) as bv4)]
  }

  /** The value of a digit character (0 for anything else). */
  function DigitValue(c: SChar): bv32
  {
    if '0' as int <= c <= '9' as int then (c - '0' as int) as bv32
    else if 'A' as int <= c <= 'F' as int then (c - 'A' as int + 10) as bv32
    else 0
  }

  /** The number a hex text denotes (wrapping at 32 bits). */
  function HexValue(text: seq<SChar>): bv32
  {
    if text == [] then 0 else (HexValue(text[..|text| - 1]) << 4) | DigitValue(text[|text| - 1])
  }

  /** The number a binary text denotes (wrapping at 32 bits). */
  function BinValue(text: seq<SChar>): bv32
  {
    if text == [] then 0 else (BinValue(text[..|text| - 1]) << 1) | DigitValue(text[|text| - 1])
  }

  /** The `b` low bits set. */
  function LowMask(b: bv6): bv32
    requires b <= 32
  {
    (1 << b) - 1
  }

  /** A digit character reads back as its nibble. */
  lemma DigitRoundTrip(x: bv4)
    ensures DigitValue(Glyph(x)) == x as bv32
  {
  }

  /** One more hex digit shifts the value up by a nibble. */
  lemma HexValueSnoc(front: seq<SChar>, x: bv4)
    ensures HexValue(front + [Glyph(x)]) == (HexValue(front) << 4) | (x as bv32)
  {
    var text := front + [Glyph(x)];
    assert text[..|text| - 1] == front;
    DigitRoundTrip(x);
  }

  /** One more binary digit shifts the value up by a bit. */
  lemma BinValueSnoc(front: seq<SChar>, x: bv4)
    ensures BinValue(front + [Glyph(x)]) == (BinValue(front) << 1) | (x as bv32)
  {
    var text := front + [Glyph(x)];
    assert text[..|text| - 1] == front;
    DigitRoundTrip(x);
  }

  /** The hex text of `n` digits reads back as that of the `n - 1` above the low nibble, followed by the nibble. */
  lemma HexTextSnoc(v: bv32, n: bv6)
    requires 1 <= n <= 8
    ensures HexValue(HexText(v, n)) == (HexValue(HexText(v >> 4, n - 1)) << 4) | ((v & 0xF) as bv4 as bv32)
  {
    HexValueSnoc(HexText(v >> 4, n - 1), (v & 0xF) as bv4);
  }

  /** The binary text of `n` digits reads back as that of the `n - 1` above the low bit, followed by the bit. */
  lemma BinTextSnoc(v: bv32, n: bv6)
    requires 1 <= n <= 32
    ensures BinValue(BinText(v, n)) == (BinValue(BinText(v >> 1, n - 1)) << 1) | ((v & 1) as bv4 as bv32)
  {
    BinValueSnoc(BinText(v >> 1, n - 1), (v & 1) as bv4);
  }

  lemma MaskStep4(v: bv32, n: bv6)
    requires 1 <= n <= 8
    ensures (((v >> 4) & LowMask(4 * (n - 1))) << 4) | ((v & 0xF) as bv4 as bv32) == v & LowMask(4 * n)
  {
  }

  lemma MaskStep1(v: bv32, n: bv6)
    requires 1 <= n <= 32
    ensures (((v >> 1) & LowMask(n - 1)) << 1) | ((v & 1) as bv4 as bv32) == v & LowMask(n)
  {
  }

  /** The `n` hex digits of `v` read back as its low `4 n` bits. */
  predicate HexReads(v: bv32, n: bv6)
    requires n <= 8
  {
    HexValue(HexText(v, n)) == v & LowMask(4 * n)
  }

  /** The `n` binary digits of `v` read back as its low `n` bits. */
  predicate BinReads(v: bv32, n: bv6)
    requires n <= 32
  {
    BinValue(BinText(v, n)) == v & LowMask(n)
  }

  /** If the digits above the low nibble read back as their bits, so do all `n`. */
  lemma HexStep(v: bv32, n: bv6)
    requires 1 <= n <= 8 && HexReads(v >> 4, n - 1)
    ensures HexReads(v, n)
  {
    HexTextSnoc(v, n);
    MaskStep4(v, n);
  }

  /** If the digits above the low bit read back as their bits, so do all `n`. */
  lemma BinStep(v: bv32, n: bv6)
    requires 1 <= n <= 32 && BinReads(v >> 1, n - 1)
    ensures BinReads(v, n)
  {
    BinTextSnoc(v, n);
    MaskStep1(v, n);
  }

  /** The `n` hex digits printed read back as the low `4 n` bits of the value. */
  lemma {:induction false} HexRoundTrip(v: bv32, n: bv6)
    requires n <= 8
    ensures HexReads(v, n)
    decreases n
  {
    if n > 0 {
      HexRoundTrip(v >> 4, n - 1);
      HexStep(v, n);
    }
  }

  /** The `n` binary digits printed read back as the low `n` bits of the value. */
  lemma {:induction false} BinRoundTrip(v: bv32, n: bv6)
    requires n <= 32
    ensures BinReads(v, n)
    decreases n
  {
    if n > 0 {
      BinRoundTrip(v >> 1, n - 1);
      BinStep(v, n);
    }
  }

  lemma RotlStep4(a: bv32, m: bv6)
    requires m <= 28
    ensures Rotl(RotlN(a, m), 4) == RotlN(a, m + 4)
  {
  }

  lemma RotlStep1(a: bv32, m: bv6)
    requires m <= 31
    ensures Rotl(RotlN(a, m), 1) == RotlN(a, m + 1)
  {
  }

  /** `hex`'s running value after `k` rotations by four bits. */
  function Turned4(pre: bv32, k: bv6): bv32
    decreases k
  {
    if k == 0 then pre else Rotl(Turned4(pre, k - 1), 4)
  }

  /** `bin`'s running value after `k` rotations by one bit. */
  function Turned1(pre: bv32, k: bv6): bv32
    decreases k
  {
    if k == 0 then pre else Rotl(Turned1(pre, k - 1), 1)
  }

  /** What `hex`'s loop has printed after `k` turns: the low nibble after each rotation. */
  function HexPrinted(pre: bv32, k: bv6): (r: seq<SChar>)
    ensures forall i :: 0 <= i < |r| ==> r[i] >= 0
    decreases k
  {
    if k == 0 then [] else HexPrinted(pre, k - 1) + [Glyph((Turned4(pre, k) & 0xF) as bv4)]
  }

  /** What `bin`'s loop has printed after `k` turns: the low bit after each rotation. */
  function BinPrinted(pre: bv32, k: bv6): (r: seq<SChar>)
    ensures forall i :: 0 <= i < |r| ==> r[i] >= 0
    decreases k
  {
    if k == 0 then [] else BinPrinted(pre, k - 1) + [Glyph((Turned1(pre, k) & 1) as bv4)]
  }

  /** `k` rotations by four bits are one rotation by `4 k`. */
  lemma {:induction false} Turned4Rotl(pre: bv32, k: bv6)
    requires k <= 8
    ensures Turned4(pre, k) == RotlN(pre, 4 * k)
    decreases k
  {
    if k > 0 {
      Turned4Rotl(pre, k - 1);
      RotlStep4(pre, 4 * (k - 1));
      assert 4 * (k - 1) + 4 == 4 * k;
    } else {
      assert RotlN(pre, 0) == pre;
    }
  }

  /** `k` rotations by one bit are one rotation by `k`. */
  lemma {:induction false} Turned1Rotl(pre: bv32, k: bv6)
    requires k <= 32
    ensures Turned1(pre, k) == RotlN(pre, k)
    decreases k
  {
    if k > 0 {
      Turned1Rotl(pre, k - 1);
      RotlStep1(pre, k - 1);
    } else {
      assert RotlN(pre, 0) == pre;
    }
  }

  /** After `k` rotations of the pre-shifted value the low nibble is digit `k` of the `d` printed. */
  lemma DigitAt4(v: bv32, d: bv6, k: bv6)
    requires 1 <= k <= d <= 8
    ensures (RotlN(v << (32 - 4 * d), 4 * k) & 0xF) as bv4 == ((v >> (4 * (d - k))) & 0xF) as bv4
  {
  }

  /** After `k` rotations of the pre-shifted value the low bit is digit `k` of the `d` printed. */
  lemma DigitAt1(v: bv32, d: bv6, k: bv6)
    requires 1 <= k <= d <= 32
    ensures (RotlN(v << (32 - d), k) & 1) as bv4 == ((v >> (d - k)) & 1) as bv4
  {
  }

  /** Shifting the digits left of digit `k` down one more nibble leaves the first `k - 1`. */
  lemma NibbleShift(v: bv32, d: bv6, k: bv6, j: bv6)
    requires 1 <= k <= d <= 8 && j == k - 1
    ensures (v >> (4 * (d - k))) >> 4 == v >> (4 * (d - j))
  {
    NibbleShiftBy(v, d, k);
  }

  lemma NibbleShiftBy(v: bv32, d: bv6, k: bv6)
    requires 1 <= k <= d <= 8
    ensures (v >> (4 * (d - k))) >> 4 == v >> (4 * (d - (k - 1)))
  {
  }

  /** Shifting the bits left of bit `k` down one more place leaves the first `k - 1`. */
  lemma BitShift(v: bv32, d: bv6, k: bv6, j: bv6)
    requires 1 <= k <= d <= 32 && j == k - 1
    ensures (v >> (d - k)) >> 1 == v >> (d - j)
  {
    BitShiftBy(v, d, k);
  }

  lemma BitShiftBy(v: bv32, d: bv6, k: bv6)
    requires 1 <= k <= d <= 32
    ensures (v >> (d - k)) >> 1 == v >> (d - (k - 1))
  {
  }

  /** One more turn of `hex` prints the digit `x` brings down, when `x` shifted a nibble further gives what was printed. */
  lemma HexPrintedStep(pre: bv32, k: bv6, x: bv32, y: bv32)
    requires 1 <= k <= 8
    requires x >> 4 == y && HexPrinted(pre, k - 1) == HexText(y, k - 1)
    requires (Turned4(pre, k) & 0xF) as bv4 == (x & 0xF) as bv4
    ensures HexPrinted(pre, k) == HexText(x, k)
  {
  }

  /** One more turn of `bin` prints the bit `x` brings down, when `x` shifted a bit further gives what was printed. */
  lemma BinPrintedStep(pre: bv32, k: bv6, x: bv32, y: bv32)
    requires 1 <= k <= 32
    requires x >> 1 == y && BinPrinted(pre, k - 1) == BinText(y, k - 1)
    requires (Turned1(pre, k) & 1) as bv4 == (x & 1) as bv4
    ensures BinPrinted(pre, k) == BinText(x, k)
  {
  }

  /** The low nibble after `k` turns of `hex` is digit `k` of the `d` it prints. */
  lemma HexDigitTurned(v: bv32, d: bv6, k: bv6)
    requires 1 <= k <= d <= 8
    ensures (Turned4(v << (32 - 4 * d), k) & 0xF) as bv4 == ((v >> (4 * (d - k))) & 0xF) as bv4
  {
    Turned4Rotl(v << (32 - 4 * d), k);
    DigitAt4(v, d, k);
  }

  /** The low bit after `k` turns of `bin` is bit `k` of the `d` it prints. */
  lemma BinDigitTurned(v: bv32, d: bv6, k: bv6)
    requires 1 <= k <= d <= 32
    ensures (Turned1(v << (32 - d), k) & 1) as bv4 == ((v >> (d - k)) & 1) as bv4
  {
    Turned1Rotl(v << (32 - d), k);
    DigitAt1(v, d, k);
  }

  /** The first `k` of the `d` hex digits `hex` prints are the top `k` of the `d` low digits of `v`. */
  lemma {:induction false} HexPrintedPrefix(v: bv32, d: bv6, k: bv6)
    requires k <= d <= 8
    ensures HexPrinted(v << (32 - 4 * d), k) == HexText(v >> (4 * (d - k)), k)
    decreases k
  {
    if k > 0 {
      var j := k - 1;
      HexPrintedPrefix(v, d, j);
      NibbleShift(v, d, k, j);
      HexDigitTurned(v, d, k);
      HexPrintedStep(v << (32 - 4 * d), k, v >> (4 * (d - k)), v >> (4 * (d - j)));
    }
  }

  /** The first `k` of the `d` binary digits `bin` prints are the top `k` of the `d` low bits of `v`. */
  lemma {:induction false} BinPrintedPrefix(v: bv32, d: bv6, k: bv6)
    requires k <= d <= 32
    ensures BinPrinted(v << (32 - d), k) == BinText(v >> (d - k), k)
    decreases k
  {
    if k > 0 {
      var j := k - 1;
      BinPrintedPrefix(v, d, j);
      BitShift(v, d, k, j);
      BinDigitTurned(v, d, k);
      BinPrintedStep(v << (32 - d), k, v >> (d - k), v >> (d - j));
    }
  }

  /** After its `d` turns `hex` has printed the `d` low hex digits of `v`. */
  lemma HexPrintedAll(v: bv32, d: bv6)
    requires 1 <= d <= 8
    ensures HexPrinted(v << ((8 - d) << 2), d) == HexText(v, d)
  {
    PreShift(v, d);
    HexPrintedPrefix(v, d, d);
    assert v >> (4 * (d - d)) == v;
  }

  /** `hex`'s pre-shift by `(8 - d) << 2` moves the `d` digits to the top. */
  lemma PreShift(v: bv32, d: bv6)
    requires 1 <= d <= 8
    ensures v << ((8 - d) << 2) == v << (32 - 4 * d)
  {
    assert (8 - d) << 2 == 32 - 4 * d;
  }

  /** After its `d` turns `bin` has printed the `d` low bits of `v`. */
  lemma BinPrintedAll(v: bv32, d: bv6)
    requires 1 <= d <= 32
    ensures BinPrinted(v << (32 - d), d) == BinText(v, d)
  {
    BinPrintedPrefix(v, d, d);
    assert v >> (d - d) == v;
  }

  /** The character `hex` looks up for turn `k + 1` extends what it printed by one `put_char`. */
  lemma HexEmit(s0: VgaState, pre: bv32, k: bv6, c: int)
    requires Good(s0) && k < 8
    requires c == Lookup(((Rotl(Turned4(pre, k), 4) & 0xF) as bv4) as int, 0, HEX_DIGITS)
    ensures 0 <= c < 128 && PositionOk(PutsOf(s0, HexPrinted(pre, k)).flag, c)
    ensures PutsOf(s0, HexPrinted(pre, k + 1)) == PutCharOf(PutsOf(s0, HexPrinted(pre, k)), c)
    ensures Rotl(Turned4(pre, k), 4) == Turned4(pre, k + 1)
  {
    var printed := HexPrinted(pre, k);
    var x := (Rotl(Turned4(pre, k), 4) & 0xF) as bv4;
    assert c == Glyph(x);
    assert HexPrinted(pre, k + 1) == printed + [c];
    NonNegativePositions(s0.flag, printed + [c]);
    PutsSnoc(s0, printed, c);
  }

  /** The character `bin` computes for turn `k + 1` extends what it printed by one `put_char`. */
  lemma BinEmit(s0: VgaState, pre: bv32, k: bv6, c: int)
    requires Good(s0) && k < 32
    requires c == ((Rotl(Turned1(pre, k), 1) & 1) as bv4) as int + '0' as int
    ensures 0 <= c < 128 && PositionOk(PutsOf(s0, BinPrinted(pre, k)).flag, c)
    ensures PutsOf(s0, BinPrinted(pre, k + 1)) == PutCharOf(PutsOf(s0, BinPrinted(pre, k)), c)
    ensures Rotl(Turned1(pre, k), 1) == Turned1(pre, k + 1)
  {
    var printed := BinPrinted(pre, k);
    var x := (Rotl(Turned1(pre, k), 1) & 1) as bv4;
    assert c == Glyph(x);
    assert BinPrinted(pre, k + 1) == printed + [c];
    NonNegativePositions(s0.flag, printed + [c]);
    PutsSnoc(s0, printed, c);
  }

  /** `hex`: through `out`, the `digits` low hex digits of `value`, most significant first, upper case. */
  method Hex(t: Terminal, value: bv32, digits: bv6)
    requires t.Valid() && 1 <= digits <= 8
    modifies t, t.screen
    ensures t.Valid() && t.State() == PutsOf(old(t.State()), HexText(value, digits))
  {
    ghost var s0 := t.State();
    var v := value << ((8 - digits) << 2);
    ghost var pre := v;
    var idx: bv6 := 1;
    ghost var k: bv6 := 0;
    while idx <= digits
      invariant idx == k + 1 && k <= digits
      invariant v == Turned4(pre, k)
      invariant t.Valid() && t.State() == PutsOf(s0, HexPrinted(pre, k))
      decreases digits - k
    {
      v := Rotl(v, 4);
      var c := Lookup(((v & 0xF) as bv4) as int, 0, HEX_DIGITS);
      HexEmit(s0, pre, k, c);
      k := k + 1;
      var _ := Out(t, c);
      idx := idx + 1;
    }
    assert k == digits;
    HexPrintedAll(value, digits);
  }

  /** `bin`: through `out`, the `digits` low bits of `value` as '0'/'1', most significant first. */
  method Bin(t: Terminal, value: bv32, digits: bv6)
    requires t.Valid() && 1 <= digits <= 32
    modifies t, t.screen
    ensures t.Valid() && t.State() == PutsOf(old(t.State()), BinText(value, digits))
  {
    ghost var s0 := t.State();
    var v := value << (32 - digits);
    ghost var pre := v;
    var idx: bv6 := 1;
    ghost var k: bv6 := 0;
    while idx <= digits
      invariant idx == k + 1 && k <= digits
      invariant v == Turned1(pre, k)
      invariant t.Valid() && t.State() == PutsOf(s0, BinPrinted(pre, k))
      decreases digits - k
    {
      v := Rotl(v, 1);
      var c := ((v & 1) as bv4) as int + '0' as int;
      BinEmit(s0, pre, k, c);
      k := k + 1;
      var _ := Out(t, c);
      idx := idx + 1;
    }
    assert k == digits;
    BinPrintedAll(value, digits);
  }
}
