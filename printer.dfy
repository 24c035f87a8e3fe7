/**
 * PropWare's `Printer`: cooked-mode character output, radix formatting of
 * integers with a minimum width, the `Format` record and the `printf` format
 * parser. The `PrintCapable` device is represented by the characters it has
 * received (`out`).
 */
module Printer {
  import opened Base
  import Utility

  const DEFAULT_WIDTH: nat := 0
  const DEFAULT_PRECISION: nat := 6
  const DEFAULT_RADIX: nat := 10
  const DEFAULT_FILL_CHAR: char := ' '

  /** `Printer::Format`: how numbers are printed. */
  datatype Format = Format(width: nat, precision: nat, radix: nat, fillChar: char)

  const DEFAULT_FORMAT: Format := Format(DEFAULT_WIDTH, DEFAULT_PRECISION, DEFAULT_RADIX, DEFAULT_FILL_CHAR)

  /** A format `put_uint` and friends can print with: a radix of 2..255. */
  predicate Printable(f: Format)
  {
    2 <= f.radix < 256
  }

  /** What the device receives for `text`: in cooked mode every '\n' is preceded by '\r'. */
  function Cook(cooked: bool, text: seq<char>): seq<char>
  {
    if text == [] then []
    else (if cooked && text[0] == NEWLINE then [CARRIAGE_RETURN, NEWLINE] else [text[0]]) + Cook(cooked, text[1..])
  }

  lemma {:induction false} CookAppend(cooked: bool, a: seq<char>, b: seq<char>)
    ensures Cook(cooked, a + b) == Cook(cooked, a) + Cook(cooked, b)
  {
    if a == [] {
      assert a + b == b;
    } else {
      assert (a + b)[1..] == a[1..] + b;
      CookAppend(cooked, a[1..], b);
    }
  }

  /** Raw mode passes every character through unchanged. */
  lemma {:induction false} CookRaw(text: seq<char>)
    ensures Cook(false, text) == text
  {
    if text != [] {
      CookRaw(text[1..]);
    }
  }

  /** Every '\n' of `r` comes right after a '\r'. */
  predicate NewlinesAfterCr(r: seq<char>)
  {
    forall i :: 0 <= i < |r| && r[i] == NEWLINE ==> 0 < i && r[i - 1] == CARRIAGE_RETURN
  }

  /** In cooked mode every '\n' the device receives comes right after a '\r'. */
  lemma {:induction false} CookedNewlines(text: seq<char>)
    ensures NewlinesAfterCr(Cook(true, text))
  {
    if text != [] {
      CookedNewlines(text[1..]);
      var h := if text[0] == NEWLINE then [CARRIAGE_RETURN, NEWLINE] else [text[0]];
      var t := Cook(true, text[1..]);
      assert Cook(true, text) == h + t;
      assert t != [] ==> t[0] != NEWLINE;
      forall i | 0 <= i < |h + t| && (h + t)[i] == NEWLINE
        ensures 0 < i && (h + t)[i - 1] == CARRIAGE_RETURN
      {
        if i >= |h| {
          var j := i - |h|;
          assert t[j] == NEWLINE;
          assert 0 < j && t[j - 1] == CARRIAGE_RETURN;
          assert (h + t)[i - 1] == t[i - |h| - 1];
        } else if i == 0 {
          assert false;
        }
      }
    }
  }

  /** Removes the '\r' of every "\r\n" pair: what a terminal in cooked mode hands back. */
  function Uncook(r: seq<char>): seq<char>
  {
    if r == [] then []
    else if |r| >= 2 && r[0] == CARRIAGE_RETURN && r[1] == NEWLINE then [NEWLINE] + Uncook(r[2..])
    else [r[0]] + Uncook(r[1..])
  }

  /** Cooking loses nothing: the text is recovered from what the device received. */
  lemma {:induction false} UncookCook(text: seq<char>)
    ensures Uncook(Cook(true, text)) == text
  {
    if text != [] {
      var t := Cook(true, text[1..]);
      UncookCook(text[1..]);
      assert t != [] ==> t[0] != NEWLINE;
      if text[0] == NEWLINE {
        assert ([CARRIAGE_RETURN, NEWLINE] + t)[2..] == t;
      } else {
        assert ([text[0]] + t)[1..] == t;
      }
    }
  }

  /** The character `put_uint` stores for digit `d`: '0'.. for 0..9, 'A'.. above, cut to a `char`. */
  function DigitChar(d: nat): char
    requires d < 256
  {
    ((if d > 9 then d - 10 + 'A' as int else d + '0' as int) % TWO_8) as char
  }

  /** The digits of `x` in `radix`, most significant first. */
  function Digits(x: nat, radix: nat): (r: seq<char>)
    requires 2 <= radix < 256
    ensures 1 <= |r|
    decreases x
  {
    (if x < radix then [] else Digits(x / radix, radix)) + [DigitChar(x % radix)]
  }

  /** The value of a digit character; -1 for a character that is no digit. */
  function DigitValue(c: char): int
  {
    if '0' <= c <= '9' then c as int - '0' as int
    else if 'A' <= c <= 'Z' then c as int - 'A' as int + 10
    else -1
  }

  /** The number a digit string denotes in `radix`. */
  function ValueOf(s: seq<char>, radix: nat): int
  {
    if s == [] then 0 else ValueOf(s[..|s| - 1], radix) * radix + DigitValue(s[|s| - 1])
  }

  /** For radices up to 36 the digits printed denote exactly `x`. */
  lemma {:induction false} DigitsValue(x: nat, radix: nat)
    requires 2 <= radix <= 36
    ensures ValueOf(Digits(x, radix), radix) == x
    decreases x
  {
    var q, m := x / radix, x % radix;
    DivMod(x, radix);
    var p := if x < radix then [] else Digits(q, radix);
    var d := Digits(x, radix);
    assert d == p + [DigitChar(m)];
    assert d[..|d| - 1] == p && d[|d| - 1] == DigitChar(m);
    DigitCharValue(m);
    if x >= radix {
      DigitsValue(q, radix);
    }
    assert ValueOf(p, radix) == q;
    assert ValueOf(d, radix) == ValueOf(p, radix) * radix + m;
  }

  /** Euclidean division by a radix, and that it shrinks a positive value. */
  lemma {:induction false} DivMod(x: nat, radix: nat)
    requires 2 <= radix
    ensures x == (x / radix) * radix + x % radix && 0 <= x % radix < radix
    ensures x < radix <==> x / radix == 0
    ensures 0 < x ==> x / radix < x
  {
  }

  /** The digit characters of 0..35 are read back as their values. */
  lemma {:induction false} DigitCharValue(d: nat)
    requires d < 36
    ensures DigitValue(DigitChar(d)) == d
    ensures DigitChar(d) == '0' <==> d == 0
  {
    if d > 9 {
      assert DigitChar(d) as int == d + 55;
    } else {
      assert DigitChar(d) as int == d + 48;
    }
  }

  /** No leading zero: the first digit is '0' only for zero itself (radix up to 36). */
  lemma {:induction false} DigitsLeading(x: nat, radix: nat)
    requires 2 <= radix <= 36
    ensures Digits(x, radix)[0] == '0' <==> x == 0
    decreases x
  {
    DivMod(x, radix);
    if x >= radix {
      DigitsLeading(x / radix, radix);
      var p := Digits(x / radix, radix);
      assert Digits(x, radix) == p + [DigitChar(x % radix)];
      assert Digits(x, radix)[0] == p[0];
    } else {
      assert Digits(x, radix) == [DigitChar(x)];
      DigitCharValue(x);
    }
  }

  /** A value below 2^k has at most k digits, so the 32- and 64-character buffers suffice. */
  lemma {:induction false} DigitsLength(x: nat, radix: nat, k: nat)
    requires 2 <= radix < 256 && 1 <= k && x < Pow2(k)
    ensures |Digits(x, radix)| <= k
    decreases k
  {
    if x >= radix {
      QuotBound(x, radix, k);
      DigitsLength(x / radix, radix, k - 1);
    }
  }

  /** Dividing by a radix of at least 2 at least halves a number, so it loses a bit. */
  lemma QuotBound(x: nat, radix: nat, k: nat)
    requires 2 <= radix <= x && 1 <= k && x < Pow2(k)
    ensures 1 < k && x / radix < Pow2(k - 1)
  {
    DivMod(x, radix);
    var q := x / radix;
    assert 2 * q <= q * radix;
  }

  /** One step of `put_uint`'s digit loop: the lowest digit moves from the value to the written tail. */
  lemma {:induction false} DigitStep(v: nat, radix: nat, suffix: seq<char>)
    requires 2 <= radix < 256
    ensures Digits(v, radix) + suffix
         == (if v / radix == 0 then [] else Digits(v / radix, radix)) + ([DigitChar(v % radix)] + suffix)
    ensures 0 < v ==> v / radix < v
  {
    DivMod(v, radix);
    var high := if v < radix then [] else Digits(v / radix, radix);
    assert Digits(v, radix) == high + [DigitChar(v % radix)];
  }

  function Repeat(c: char, n: nat): (r: seq<char>)
    ensures |r| == n && forall i :: 0 <= i < n ==> r[i] == c
  {
    if n == 0 then [] else Repeat(c, n - 1) + [c]
  }

  /** `put_uint` output: `fillChar` up to `width` characters, then the digits, never truncated. */
  function Padded(x: nat, radix: nat, width: nat, fill: char): (r: seq<char>)
    requires 2 <= radix < 256
    ensures |r| == if width > |Digits(x, radix)| then width else |Digits(x, radix)|
    ensures r[|r| - |Digits(x, radix)|..] == Digits(x, radix)
    ensures forall i :: 0 <= i < |r| - |Digits(x, radix)| ==> r[i] == fill
  {
    var d := Digits(x, radix);
    (if width > |d| then Repeat(fill, width - |d|) else []) + d
  }

  function Abs(x: int): nat
  {
    if x < 0 then -x else x
  }

  /** `put_int` output: a '-' for a negative value, ahead of the padding, then the magnitude. */
  function SignedText(x: int, radix: nat, width: nat, fill: char): (r: seq<char>)
    requires 2 <= radix < 256
    ensures x < 0 ==> r == ['-'] + Padded(-x, radix, width, fill)
    ensures x >= 0 ==> r == Padded(x, radix, width, fill)
  {
    (if x < 0 then ['-'] else []) + Padded(Abs(x), radix, width, fill)
  }

  /**
   * A `printf` argument: its C++ type decides how it prints. `Str` carries the
   * pointer value, which is what a numeric conversion of it prints.
   */
  datatype Arg = Int(i: int) | UInt(u: nat) | Char(c: char) | Str(s: seq<char>, address: nat) | Bool(b: bool)

  /** The argument fits its 32-bit C++ type. */
  predicate ArgFits(a: Arg)
  {
    match a
    case Int(i) => -0x8000_0000 <= i < 0x8000_0000
    case UInt(u) => u < TWO_32
    case Char(c) => (c as int) < TWO_8
    case Str(_, address) => address < TWO_32
    case Bool(_) => true
  }

  /** All arguments fit their types. */
  predicate AllFit(args: seq<Arg>)
  {
    args == [] || (ArgFits(args[0]) && AllFit(args[1..]))
  }

  /** The 32 bits of the argument, read unsigned (a `char` by its code, a string by its address). */
  function Bits(a: Arg): (r: nat)
    ensures r < TWO_32
  {
    match a
    case Int(i) => i % TWO_32
    case UInt(u) => u % TWO_32
    case Char(c) => (c as int) % TWO_32
    case Str(_, address) => address % TWO_32
    case Bool(b) => if b then 1 else 0
  }

  /** `(long int) first`: the argument's 32 bits read as a two's-complement value. */
  function AsLong(a: Arg): (r: int)
    ensures -0x8000_0000 <= r < 0x8000_0000
    ensures r % TWO_32 == Bits(a)
  {
    if Bits(a) >= 0x8000_0000 then Bits(a) - TWO_32 else Bits(a)
  }

  /** `(long unsigned int) first`: the argument's 32 bits read unsigned. */
  function AsULong(a: Arg): (r: nat)
    ensures r < TWO_32 && r % TWO_32 == AsLong(a) % TWO_32
  {
    Bits(a)
  }

  /** For arguments that fit, the casts keep signed values signed and unsigned values unsigned. */
  lemma {:induction false} CastsKeepValues(a: Arg)
    requires ArgFits(a)
    ensures a.Int? ==> AsLong(a) == a.i
    ensures a.UInt? ==> AsULong(a) == a.u
    ensures a.Char? ==> AsLong(a) == AsULong(a) == a.c as int
    ensures a.Bool? ==> AsLong(a) == (if a.b then 1 else 0)
  {
  }

  /** `print(first, format)`: the overload chosen by the argument's type. */
  function Printed(a: Arg, f: Format): seq<char>
    requires Printable(f)
  {
    match a
    case Int(i) => SignedText(i, f.radix, f.width, f.fillChar)
    case UInt(u) => Padded(u, f.radix, f.width, f.fillChar)
    case Char(c) => [c]
    case Str(s, _) => s[..StrLen(s)]
    case Bool(b) => Utility.ToString(b)
  }

  /** The format character at `k`; the terminating NUL past the end. */
  function At(fmt: seq<char>, k: nat): char
  {
    if k < |fmt| then fmt[k] else NUL
  }

  predicate IsDigit(c: char)
  {
    '0' <= c <= '9'
  }

  /** A decimal field of the format from `k` on, accumulated into a `uint16_t`: its value and where it ends. */
  function ParseNum(fmt: seq<char>, k: nat, acc: nat): (r: (nat, nat))
    requires acc < TWO_16
    ensures r.0 < TWO_16 && k <= r.1
    ensures !IsDigit(At(fmt, r.1))
    decreases |fmt| - k
  {
    if IsDigit(At(fmt, k)) then ParseNum(fmt, k + 1, (10 * acc + (At(fmt, k) as int - '0' as int)) % TWO_16)
    else (acc, k)
  }

  /** A conversion spec: fill, width, precision and conversion letter. */
  datatype Spec = Spec(fill: char, width: nat, precision: nat, conv: char)

  /** Parses the spec that starts at `k`, just after its '%': the spec and the index after its letter. */
  function ParseSpec(fmt: seq<char>, k: nat): (r: (Spec, nat))
    ensures r.0.width < TWO_16 && k < r.1
    ensures r.0.fill == (if At(fmt, k) == '0' then '0' else DEFAULT_FILL_CHAR)
  {
    var fill := if At(fmt, k) == '0' then '0' else DEFAULT_FILL_CHAR;
    var (width, k1) := ParseNum(fmt, k, 0);
    if At(fmt, k1) == '.' then
      var (precision, k2) := ParseNum(fmt, k1 + 1, 0);
      (Spec(fill, width, precision, At(fmt, k2)), k2 + 1)
    else
      (Spec(fill, width, DEFAULT_PRECISION, At(fmt, k1)), k1 + 1)
  }

  /** The text of one conversion of `a`. */
  function Convert(sp: Spec, a: Arg): seq<char>
  {
    var c := sp.conv;
    if c == 'i' || c == 'd' then SignedText(AsLong(a), DEFAULT_RADIX, sp.width, sp.fill)
    else if c == 'X' || c == 'b' || c == 'u' then
      Padded(AsULong(a), if c == 'b' then 2 else if c == 'X' then 16 else DEFAULT_RADIX, sp.width, sp.fill)
    else if c == 'f' || c == 's' || c == 'c' then
      Printed(a, Format(sp.width, sp.precision, DEFAULT_RADIX, sp.fill))
    else [DEFAULT_FILL_CHAR]
  }

  /**
   * The literal part of a format from index `k`: the text printed before the
   * next conversion ("%%" prints one '%') and the index of that conversion's
   * '%', or of the terminating NUL.
   */
  function Literal(fmt: seq<char>, k: nat): (r: (seq<char>, nat))
    ensures k <= r.1
    ensures At(fmt, r.1) == NUL || (At(fmt, r.1) == '%' && At(fmt, r.1 + 1) != '%')
    decreases |fmt| - k
  {
    var c := At(fmt, k);
    if c == NUL then ([], k)
    else if c != '%' then
      var r := Literal(fmt, k + 1);
      ([c] + r.0, r.1)
    else if At(fmt, k + 1) == '%' then
      var r := Literal(fmt, k + 2);
      (['%'] + r.0, r.1)
    else ([], k)
  }

  /**
   * The output of `printf(fmt, args...)`: the literal text up to the first
   * conversion, that conversion of the first argument, then the rest of the
   * format printed with the remaining arguments. Without arguments the format
   * is printed verbatim (so "%%" stays "%%").
   */
  function PrintfText(fmt: seq<char>, args: seq<Arg>): seq<char>
    decreases |args|, 1
  {
    if args == [] then fmt[..StrLen(fmt)]
    else Literal(fmt, 0).0 + Conversion(fmt, args, Literal(fmt, 0).1)
  }

  /**
   * The output from index `k` of the format on, when `k` holds the terminating
   * NUL or the '%' of a conversion of the first argument.
   */
  function Conversion(fmt: seq<char>, args: seq<Arg>, k: nat): seq<char>
    requires 0 < |args|
    decreases |args|, 0
  {
    if At(fmt, k) == NUL then []
    else
      var spec := ParseSpec(fmt, k + 1);
      Convert(spec.0, args[0]) + PrintfText(Drop(fmt, spec.1), args[1..])
  }

  /** Where the scan of the literal part stands: `produced` printed, index `k` reached. */
  predicate Scanned(fmt: seq<char>, produced: seq<char>, k: nat)
  {
    Literal(fmt, 0).0 == produced + Literal(fmt, k).0 && Literal(fmt, 0).1 == Literal(fmt, k).1
  }

  /** One literal character (or "%%") further. */
  lemma {:induction false} LiteralStep(fmt: seq<char>, produced: seq<char>, k: nat)
    requires Scanned(fmt, produced, k) && At(fmt, k) != NUL
    requires At(fmt, k) != '%' || At(fmt, k + 1) == '%'
    ensures At(fmt, k) != '%' ==> Scanned(fmt, produced + [At(fmt, k)], k + 1)
    ensures At(fmt, k) == '%' ==> Scanned(fmt, produced + ['%'], k + 2)
  {
    var c := At(fmt, k);
    var k' := if c == '%' then k + 2 else k + 1;
    assert Literal(fmt, k) == ([c] + Literal(fmt, k').0, Literal(fmt, k').1);
    assert produced + ([c] + Literal(fmt, k').0) == produced + [c] + Literal(fmt, k').0;
  }

  /** At the terminating NUL, with an argument left, `printf` has printed exactly the literal text. */
  lemma {:induction false} PrintfAtEnd(fmt: seq<char>, args: seq<Arg>, produced: seq<char>, k: nat)
    requires 0 < |args| && Scanned(fmt, produced, k) && At(fmt, k) == NUL
    ensures PrintfText(fmt, args) == produced
  {
    assert Literal(fmt, k) == ([], k);
    assert Conversion(fmt, args, k) == [];
  }

  /** At the first conversion, `printf` prints the literal text, the conversion, then the rest of the format with the other arguments. */
  lemma {:induction false} PrintfAtConversion(fmt: seq<char>, args: seq<Arg>, produced: seq<char>, k: nat)
    requires 0 < |args| && Scanned(fmt, produced, k) && At(fmt, k) == '%' && At(fmt, k + 1) != '%'
    ensures PrintfText(fmt, args) == produced + Conversion(fmt, args, k)
  {
    assert Literal(fmt, 0) == (produced, k) by {
      assert Literal(fmt, k) == ([], k);
      assert produced + [] == produced;
    }
  }

  /** The conversion at index `k` prints the converted argument, then the rest of the format with the other arguments. */
  lemma {:induction false} ConversionAt(fmt: seq<char>, args: seq<Arg>, k: nat, sp: Spec, next: nat)
    requires 0 < |args| && At(fmt, k) != NUL && (sp, next) == ParseSpec(fmt, k + 1)
    ensures Conversion(fmt, args, k) == Convert(sp, args[0]) + PrintfText(Drop(fmt, next), args[1..])
  {
  }

  /**
   * A format that ends with a bare '%': the spec's `++s` steps over the NUL,
   * the NUL converts as an unknown letter (the fill character), and the
   * memory after the NUL is printed as the rest of the format.
   */
  lemma {:induction false} PrintfPastNul(rest: seq<char>, a: Arg)
    requires forall i :: 0 <= i < |rest| ==> rest[i] != NUL
    ensures PrintfText(['%', NUL] + rest, [a]) == [DEFAULT_FILL_CHAR] + rest
  {
    var fmt := ['%', NUL] + rest;
    assert Literal(fmt, 0) == ([], 0);
    assert ParseNum(fmt, 1, 0) == (0, 1);
    assert ParseSpec(fmt, 1) == (Spec(DEFAULT_FILL_CHAR, 0, DEFAULT_PRECISION, NUL), 2);
    assert Convert(ParseSpec(fmt, 1).0, a) == [DEFAULT_FILL_CHAR];
    assert Drop(fmt, 2) == rest;
    assert StrLen(rest) == |rest|;
    assert PrintfText(rest, []) == rest;
    assert Conversion(fmt, [a], 0) == [DEFAULT_FILL_CHAR] + PrintfText(rest, [a][1..]);
  }

  /** Without '%', the literal part is the whole C string. */
  lemma {:induction false} LiteralPlain(fmt: seq<char>, k: nat)
    requires k <= StrLen(fmt)
    requires forall i :: k <= i < StrLen(fmt) ==> fmt[i] != '%'
    ensures Literal(fmt, k) == (fmt[k..StrLen(fmt)], StrLen(fmt))
    decreases |fmt| - k
  {
    if k < StrLen(fmt) {
      LiteralPlain(fmt, k + 1);
      assert fmt[k..StrLen(fmt)] == [fmt[k]] + fmt[k + 1..StrLen(fmt)];
    }
  }

  /** A format without '%' prints verbatim, whatever the arguments. */
  lemma {:induction false} PrintfPlain(fmt: seq<char>, args: seq<Arg>)
    requires forall i :: 0 <= i < StrLen(fmt) ==> fmt[i] != '%'
    ensures PrintfText(fmt, args) == fmt[..StrLen(fmt)]
  {
    LiteralPlain(fmt, 0);
  }

  lemma {:induction false} AtShift(pre: seq<char>, rest: seq<char>, i: nat)
    ensures At(pre + rest, |pre| + i) == At(rest, i)
  {
  }

  /** The literal part of `pre + rest` from index |pre| on is that of `rest`. */
  lemma {:induction false} LiteralFrom(pre: seq<char>, rest: seq<char>, j: nat)
    ensures Literal(pre + rest, |pre| + j) == (Literal(rest, j).0, |pre| + Literal(rest, j).1)
    decreases |rest| - j
  {
    AtShift(pre, rest, j);
    AtShift(pre, rest, j + 1);
    var c := At(rest, j);
    if c != NUL && c != '%' {
      LiteralFrom(pre, rest, j + 1);
    } else if c == '%' && At(rest, j + 1) == '%' {
      LiteralFrom(pre, rest, j + 2);
    }
  }

  /** Literal text without '%' or NUL ahead of a format is printed first, as it is. */
  lemma {:induction false} LiteralPrefix(pre: seq<char>, rest: seq<char>, k: nat)
    requires forall i :: 0 <= i < |pre| ==> pre[i] != '%' && pre[i] != NUL
    requires k <= |pre|
    ensures Literal(pre + rest, k) == (pre[k..] + Literal(rest, 0).0, |pre| + Literal(rest, 0).1)
    decreases |pre| - k
  {
    if k == |pre| {
      LiteralFrom(pre, rest, 0);
      assert pre[k..] + Literal(rest, 0).0 == Literal(rest, 0).0;
    } else {
      assert At(pre + rest, k) == pre[k];
      LiteralPrefix(pre, rest, k + 1);
      var r := Literal(pre + rest, k + 1);
      assert Literal(pre + rest, k) == ([pre[k]] + r.0, r.1);
      assert pre[k..] == [pre[k]] + pre[k + 1..];
      assert [pre[k]] + (pre[k + 1..] + Literal(rest, 0).0) == pre[k..] + Literal(rest, 0).0;
    }
  }

  /** Parsing a number inside `pre + rest` is parsing it inside `rest`. */
  lemma {:induction false} NumFrom(pre: seq<char>, rest: seq<char>, j: nat, acc: nat)
    requires acc < TWO_16
    ensures var (v, e) := ParseNum(rest, j, acc);
      ParseNum(pre + rest, |pre| + j, acc) == (v, |pre| + e)
    decreases |rest| - j
  {
    AtShift(pre, rest, j);
    if IsDigit(At(rest, j)) {
      NumFrom(pre, rest, j + 1, (10 * acc + (At(rest, j) as int - '0' as int)) % TWO_16);
    }
  }

  /** Parsing a spec inside `pre + rest` is parsing it inside `rest`. */
  lemma {:induction false} SpecFrom(pre: seq<char>, rest: seq<char>, j: nat)
    ensures ParseSpec(pre + rest, |pre| + j) == (ParseSpec(rest, j).0, |pre| + ParseSpec(rest, j).1)
  {
    AtShift(pre, rest, j);
    NumFrom(pre, rest, j, 0);
    var (w, k1) := ParseNum(rest, j, 0);
    AtShift(pre, rest, k1);
    NumFrom(pre, rest, k1 + 1, 0);
    var (p, k2) := ParseNum(rest, k1 + 1, 0);
    AtShift(pre, rest, k2);
  }

  lemma {:induction false} DropShift(pre: seq<char>, rest: seq<char>, n: nat)
    ensures Drop(pre + rest, |pre| + n) == Drop(rest, n)
  {
    if n < |rest| {
      assert (pre + rest)[|pre| + n..] == rest[n..];
    }
  }

  /** "%%" is literal text printing one '%'; the next conversion is the next one of the rest. */
  lemma {:induction false} LiteralPercent(rest: seq<char>)
    ensures Literal("%%" + rest, 0) == (['%'] + Literal(rest, 0).0, 2 + Literal(rest, 0).1)
  {
    var fmt := "%%" + rest;
    assert At(fmt, 0) == '%' && At(fmt, 1) == '%';
    LiteralFrom("%%", rest, 0);
  }

  /** A width printed in decimal by `put_uint` parses back to the same width, with '0' fill exactly when it starts with '0'. */
  lemma {:induction false} WidthRoundTrip(w: nat, conv: char, rest: seq<char>)
    requires w < TWO_16 && !IsDigit(conv) && conv != '.'
    ensures var (sp, next) := ParseSpec(Digits(w, 10) + [conv] + rest, 0);
      sp.width == w && sp.conv == conv && next == |Digits(w, 10)| + 1 &&
      sp.fill == if w == 0 then '0' else DEFAULT_FILL_CHAR
  {
    var d := Digits(w, 10);
    var fmt := d + [conv] + rest;
    DigitsLeading(w, 10);
    NumOfDigits(w, fmt);
    assert At(fmt, |d|) == conv;
  }

  /** Reading the decimal digits of `w` at the start of `fmt`, up to the first non-digit after them. */
  lemma {:induction false} NumOfDigits(w: nat, fmt: seq<char>)
    requires w < TWO_16
    requires |Digits(w, 10)| < |fmt| && fmt[..|Digits(w, 10)|] == Digits(w, 10)
    requires !IsDigit(fmt[|Digits(w, 10)|])
    ensures ParseNum(fmt, 0, 0) == (w, |Digits(w, 10)|)
  {
    NumPrefix(w, fmt, 0);
  }

  /** After reading the first `j` decimal digits of `w` at the start of `fmt`, the accumulator holds their value and the rest of the field reads `w`. */
  ghost predicate NumReads(w: nat, fmt: seq<char>, j: nat)
    requires j <= |Digits(w, 10)|
  {
    var v := ValueOf(Digits(w, 10)[..j], 10);
    0 <= v < TWO_16 && ParseNum(fmt, j, v) == (w, |Digits(w, 10)|)
  }

  /** Helper for `NumOfDigits`: reading on from any prefix of the digits of `w` gives `w`. */
  lemma {:induction false} NumPrefix(w: nat, fmt: seq<char>, j: nat)
    requires w < TWO_16
    requires |Digits(w, 10)| < |fmt| && fmt[..|Digits(w, 10)|] == Digits(w, 10)
    requires !IsDigit(fmt[|Digits(w, 10)|])
    requires j <= |Digits(w, 10)|
    ensures NumReads(w, fmt, j)
    decreases |Digits(w, 10)| - j
  {
    var d := Digits(w, 10);
    if j == |d| {
      assert d[..j] == d;
      DigitsValue(w, 10);
    } else {
      NumPrefix(w, fmt, j + 1);
      NumStep(w, fmt, j);
    }
  }

  lemma NumStep(w: nat, fmt: seq<char>, j: nat)
    requires w < TWO_16
    requires |Digits(w, 10)| < |fmt| && fmt[..|Digits(w, 10)|] == Digits(w, 10)
    requires j < |Digits(w, 10)| && NumReads(w, fmt, j + 1)
    ensures NumReads(w, fmt, j)
  {
    PrefixValue(w, j);
    PrefixValue(w, j + 1);
    DigitIsDigit(w, j);
    ReadDigitOf(fmt, Digits(w, 10), j);
  }

  /** `ParseNum` reading the digit at `j` of the digits `d` that start `fmt` goes from the value of `d[..j]` to that of `d[..j + 1]`. */
  lemma ReadDigitOf(fmt: seq<char>, d: seq<char>, j: nat)
    requires j < |d| < |fmt| && fmt[..|d|] == d
    requires IsDigit(d[j]) && DigitValue(d[j]) == d[j] as int - '0' as int
    requires 0 <= ValueOf(d[..j], 10) < TWO_16 && 0 <= ValueOf(d[..j + 1], 10) < TWO_16
    ensures ParseNum(fmt, j, ValueOf(d[..j], 10)) == ParseNum(fmt, j + 1, ValueOf(d[..j + 1], 10))
  {
    var v, next := ValueOf(d[..j], 10), ValueOf(d[..j + 1], 10);
    assert d[..j + 1][..j] == d[..j];
    AccumulateDigit(v, d[j] as int - '0' as int, next);
    assert At(fmt, j) == d[j] by {
      assert fmt[..|d|][j] == fmt[j];
    }
    ReadDigit(fmt, j, v);
  }

  /** `ParseNum` on a digit reads it into the accumulator and goes on. */
  lemma ReadDigit(fmt: seq<char>, k: nat, acc: nat)
    requires acc < TWO_16 && IsDigit(At(fmt, k))
    ensures ParseNum(fmt, k, acc) == ParseNum(fmt, k + 1, (10 * acc + (At(fmt, k) as int - '0' as int)) % TWO_16)
  {
  }

  /** One more digit in the 16-bit accumulator of `ParseNum`, when the value still fits. */
  lemma AccumulateDigit(v: int, digit: int, next: int)
    requires next == v * 10 + digit && 0 <= next < TWO_16
    ensures (10 * v + digit) % TWO_16 == next
  {
  }

  /** Every decimal digit of `w` is a digit character. */
  lemma {:induction false} DigitIsDigit(w: nat, j: nat)
    requires j < |Digits(w, 10)|
    ensures IsDigit(Digits(w, 10)[j]) && DigitValue(Digits(w, 10)[j]) == Digits(w, 10)[j] as int - '0' as int
    decreases w
  {
    DivMod(w, 10);
    if w >= 10 && j < |Digits(w / 10, 10)| {
      DigitIsDigit(w / 10, j);
    }
  }

  /** A prefix of the decimal digits of `w` is worth at most `w`, so it fits the 16-bit accumulator. */
  lemma {:induction false} PrefixValue(w: nat, j: nat)
    requires j <= |Digits(w, 10)|
    ensures 0 <= ValueOf(Digits(w, 10)[..j], 10) <= w
    decreases w
  {
    var d := Digits(w, 10);
    DivMod(w, 10);
    if j == |d| {
      assert d[..j] == d;
      DigitsValue(w, 10);
    } else if w >= 10 {
      var p := Digits(w / 10, 10);
      assert d == p + [DigitChar(w % 10)];
      assert d[..j] == p[..j];
      PrefixValue(w / 10, j);
    } else {
      assert j == 0;
    }
  }

  /** The digit loop of `put_uint`: the digits of `x`, lowest first, in a buffer of `bits` characters. */
  method ReversedDigits(x: nat, radix: nat, bits: nat) returns (buf: array<char>, n: nat)
    requires 2 <= radix < 256 && 1 <= bits && x < Pow2(bits)
    ensures fresh(buf) && buf.Length == bits && n == |Digits(x, radix)| <= bits
    ensures forall j :: 0 <= j < n ==> buf[j] == Digits(x, radix)[n - 1 - j]
  {
    ghost var digits := Digits(x, radix);
    DigitsLength(x, radix, bits);
    buf := new char[bits];
    n := 0;
    var v: nat := x;
    // `suffix` is the tail of `digits` already in `buf`, written backwards
    ghost var suffix: seq<char> := [];
    v, n, suffix := PutDigit(buf, v, radix, n, suffix, digits);
    while v != 0
      invariant (v != 0 ==> digits == Digits(v, radix) + suffix) && (v == 0 ==> digits == suffix)
      invariant n == |suffix| && |digits| <= bits == buf.Length
      invariant forall j :: 0 <= j < n ==> buf[j] == suffix[n - 1 - j]
      modifies buf
      decreases v
    {
      v, n, suffix := PutDigit(buf, v, radix, n, suffix, digits);
    }
  }

  /** One turn of `put_uint`'s digit loop: the lowest digit of `v` goes to `buf[n]` and `v` drops it. */
  method PutDigit(buf: array<char>, v: nat, radix: nat, n: nat, ghost suffix: seq<char>, ghost digits: seq<char>)
    returns (v': nat, n': nat, ghost suffix': seq<char>)
    requires 2 <= radix < 256
    requires digits == Digits(v, radix) + suffix && n == |suffix| && |digits| <= buf.Length
    requires forall j :: 0 <= j < n ==> buf[j] == suffix[n - 1 - j]
    modifies buf
    ensures n' == n + 1 && (v' == 0 ==> digits == suffix') && (v' != 0 ==> v' < v)
    ensures v' != 0 ==> digits == Digits(v', radix) + suffix'
    ensures n' == |suffix'| && forall j :: 0 <= j < n' ==> buf[j] == suffix'[n' - 1 - j]
  {
    DigitStep(v, radix, suffix);
    var c := DigitChar(v % radix);
    buf[n] := c;
    suffix' := [c] + suffix;
    v' := v / radix;
    n' := n + 1;
  }

  /** `put_uint` prints the fill characters, then the digits. */
  lemma {:induction false} PaddedParts(x: nat, radix: nat, width: nat, fill: char, pad: seq<char>)
    requires 2 <= radix < 256
    requires pad == if width > 0 && width > |Digits(x, radix)| then Repeat(fill, width - |Digits(x, radix)|) else []
    ensures pad + Digits(x, radix) == Padded(x, radix, width, fill)
  {
  }

  class Printer {
    var cooked: bool
    /** `m_format`: used by `operator<<`. */
    var format: Format
    /** Everything the `PrintCapable` device has received. */
    var out: seq<char>

    constructor (cooked: bool)
      ensures this.cooked == cooked && format == DEFAULT_FORMAT && out == []
    {
      this.cooked := cooked;
      format := DEFAULT_FORMAT;
      out := [];
    }

    /** `set_cooked`. */
    method SetCooked(cooked: bool)
      modifies this`cooked
      ensures this.cooked == cooked
    {
      this.cooked := cooked;
    }

    /** `operator<<(Format)`: replaces the stored format. */
    method SetFormat(f: Format)
      modifies this`format
      ensures format == f
    {
      format := f;
    }

    /** `put_char`: '\r' first for a '\n' in cooked mode. */
    method PutChar(c: char)
      modifies this`out
      ensures out == old(out) + Cook(cooked, [c])
    {
      if cooked && c == NEWLINE {
        out := out + [CARRIAGE_RETURN];
      }
      out := out + [c];
    }

    /** `puts`: the C string `s`, character by character in cooked mode, handed to the device whole in raw mode. */
    method Puts(s: seq<char>)
      modifies this`out
      ensures out == old(out) + Cook(cooked, s[..StrLen(s)])
    {
      if cooked {
        var i := 0;
        while i < |s| && s[i] != NUL
          invariant 0 <= i <= StrLen(s)
          invariant out == old(out) + Cook(cooked, s[..i])
          decreases |s| - i
        {
          PutChar(s[i]);
          CookAppend(cooked, s[..i], [s[i]]);
          assert s[..i + 1] == s[..i] + [s[i]];
          i := i + 1;
        }
      } else {
        CookRaw(s[..StrLen(s)]);
        out := out + s[..StrLen(s)];
      }
    }

    /**
     * The body shared by `put_uint` and `put_ull`: the digits are collected
     * least significant first into a `bits`-character buffer, the fill is
     * printed, then the buffer backwards.
     */
    method PutUnsigned(x: nat, radix: nat, width: nat, fillChar: char, bits: nat)
      requires 2 <= radix < 256 && width < TWO_16 && 1 <= bits && x < Pow2(bits)
      modifies this`out
      ensures out == old(out) + Cook(cooked, Padded(x, radix, width, fillChar))
    {
      ghost var digits := Digits(x, radix);
      var buf, i := ReversedDigits(x, radix, bits);
      ghost var printed: seq<char> := [];
      if width > 0 && width > i {
        PutFill(fillChar, width - i);
        printed := Repeat(fillChar, width - i);
      }
      PaddedParts(x, radix, width, fillChar, printed);
      ghost var padded := out;
      PutReversed(buf, i, digits);
      CookAppend(cooked, printed, digits);
      assert out == old(out) + Cook(cooked, printed) + Cook(cooked, digits) by {
        assert padded == old(out) + Cook(cooked, printed);
      }
    }

    /** The fill loop of `put_uint`: `count` copies of `fillChar`. */
    method PutFill(fillChar: char, count: nat)
      modifies this`out
      ensures out == old(out) + Cook(cooked, Repeat(fillChar, count))
    {
      var w := count;
      assert Cook(cooked, Repeat(fillChar, 0)) == [];
      while w > 0
        invariant 0 <= w <= count
        invariant out == old(out) + Cook(cooked, Repeat(fillChar, count - w))
      {
        PutChar(fillChar);
        CookAppend(cooked, Repeat(fillChar, count - w), [fillChar]);
        w := w - 1;
      }
    }

    /** The last loop of `put_uint`: the first `n` characters of `buf`, last one first. */
    method PutReversed(buf: array<char>, n: nat, ghost digits: seq<char>)
      requires n == |digits| <= buf.Length
      requires forall j :: 0 <= j < n ==> buf[j] == digits[n - 1 - j]
      modifies this`out
      ensures out == old(out) + Cook(cooked, digits)
    {
      var j := 0;
      assert Cook(cooked, digits[..0]) == [];
      while j < n
        invariant 0 <= j <= n
        invariant out == old(out) + Cook(cooked, digits[..j])
      {
        assert buf[n - j - 1] == digits[j] by {
          var k := n - 1 - j;
          assert buf[k] == digits[n - 1 - k];
        }
        ghost var before := Cook(cooked, digits[..j]);
        PutChar(buf[n - j - 1]);
        CookAppend(cooked, digits[..j], [digits[j]]);
        assert digits[..j + 1] == digits[..j] + [digits[j]];
        j := j + 1;
      }
      assert digits[..n] == digits;
    }

    /** `put_uint`: an `unsigned int` in `radix`, padded to `width`. */
    method PutUint(x: nat, radix: nat, width: nat, fillChar: char)
      requires 2 <= radix < 256 && width < TWO_16 && x < TWO_32
      modifies this`out
      ensures out == old(out) + Cook(cooked, Padded(x, radix, width, fillChar))
    {
      Pow2Values();
      PutUnsigned(x, radix, width, fillChar, 32);
    }

    /** `put_ull`: an `unsigned long long` in `radix`, padded to `width`. */
    method PutUll(x: nat, radix: nat, width: nat, fillChar: char)
      requires 2 <= radix < 256 && width < TWO_16 && x < 0x1_0000_0000_0000_0000
      modifies this`out
      ensures out == old(out) + Cook(cooked, Padded(x, radix, width, fillChar))
    {
      Pow2Values();
      PutUnsigned(x, radix, width, fillChar, 64);
    }

    /** `put_int`: '-' for a negative `int`, then its magnitude through `put_uint`. */
    method PutInt(x: int, radix: nat, width: nat, fillChar: char)
      requires 2 <= radix < 256 && width < TWO_16 && -0x8000_0000 <= x < 0x8000_0000
      modifies this`out
      ensures out == old(out) + Cook(cooked, SignedText(x, radix, width, fillChar))
    {
      if 0 > x {
        PutChar('-');
      }
      ghost var sign := out;
      PutUint(Abs(x), radix, width, fillChar);
      CookAppend(cooked, if x < 0 then ['-'] else [], Padded(Abs(x), radix, width, fillChar));
    }

    /** `put_ll`: '-' for a negative `long long`, then its magnitude through `put_ull`. */
    method PutLl(x: int, radix: nat, width: nat, fillChar: char)
      requires 2 <= radix < 256 && width < TWO_16 && -0x8000_0000_0000_0000 <= x < 0x8000_0000_0000_0000
      modifies this`out
      ensures out == old(out) + Cook(cooked, SignedText(x, radix, width, fillChar))
    {
      if 0 > x {
        PutChar('-');
      }
      PutUll(Abs(x), radix, width, fillChar);
      CookAppend(cooked, if x < 0 then ['-'] else [], Padded(Abs(x), radix, width, fillChar));
    }

    /** The `print(value, format)` overloads, chosen by the argument's type. */
    method Print(a: Arg, f: Format)
      requires ArgFits(a) && Printable(f) && f.width < TWO_16
      modifies this`out
      ensures out == old(out) + Cook(cooked, Printed(a, f))
    {
      match a
      case Int(i) => PutInt(i, f.radix, f.width, f.fillChar);
      case UInt(u) => PutUint(u, f.radix, f.width, f.fillChar);
      case Char(c) => PutChar(c);
      case Str(s, _) => Puts(s);
      case Bool(b) => Puts(Utility.ToString(b));
        assert Utility.ToString(b)[..StrLen(Utility.ToString(b))] == Utility.ToString(b);
    }

    /** `operator<<(value)`: prints with the stored format. */
    method Write(a: Arg)
      requires ArgFits(a) && Printable(format) && format.width < TWO_16
      modifies this`out
      ensures out == old(out) + Cook(cooked, Printed(a, format))
    {
      Print(a, format);
    }

    /**
     * `printf(fmt, args...)`: characters before the first conversion are
     * printed ("%%" as '%'), the conversion consumes the first argument, and the
     * rest of the format goes to a recursive call with the remaining arguments,
     * or to `puts` when none remain.
     */
    method Printf(fmt: seq<char>, args: seq<Arg>)
      requires AllFit(args)
      modifies this`out
      ensures out == old(out) + Cook(cooked, PrintfText(fmt, args))
      decreases |args|, 1
    {
      if |args| == 0 {
        Puts(fmt);
        return;
      }
      ghost var produced: seq<char> := [];
      var s := 0;
      while At(fmt, s) != NUL
        invariant s <= |fmt|
        invariant Scanned(fmt, produced, s)
        invariant out == old(out) + Cook(cooked, produced)
        decreases |fmt| - s
      {
        var c := At(fmt, s);
        var k := s;
        if '%' == c {
          s := s + 1;
          c := At(fmt, s);
          if '%' != c {
            ghost var scanned := out;
            PrintfConversion(fmt, args, k);
            assert out == old(out) + Cook(cooked, PrintfText(fmt, args)) by {
              PrintfAtConversion(fmt, args, produced, k);
              CookAppend(cooked, produced, Conversion(fmt, args, k));
              assert scanned == old(out) + Cook(cooked, produced);
              assert out == scanned + Cook(cooked, Conversion(fmt, args, k));
              Associate(old(out), Cook(cooked, produced), Cook(cooked, Conversion(fmt, args, k)));
            }
            return;
          }
        }
        LiteralStep(fmt, produced, k);
        PutChar(c);
        CookAppend(cooked, produced, [c]);
        Associate(old(out), Cook(cooked, produced), Cook(cooked, [c]));
        produced := produced + [c];
        s := s + 1;
      }
      PrintfAtEnd(fmt, args, produced, s);
    }

    /** The conversion at the '%' at index `k`, then the rest of the format with the other arguments. */
    method PrintfConversion(fmt: seq<char>, args: seq<Arg>, k: nat)
      requires AllFit(args) && 0 < |args| && At(fmt, k) == '%'
      modifies this`out
      ensures out == old(out) + Cook(cooked, Conversion(fmt, args, k))
      decreases |args|, 0
    {
      var sp, next := ReadSpec(fmt, k + 1);
      var tail := Drop(fmt, next);
      ghost var text := Convert(sp, args[0]);
      ghost var rest := PrintfText(tail, args[1..]);
      PrintConversion(sp, args[0]);
      if |args| == 1 {
        assert args[1..] == [];
        Puts(tail);
      } else {
        Printf(tail, args[1..]);
      }
      ConversionAt(fmt, args, k, sp, next);
      CookAppend(cooked, text, rest);
      Associate(old(out), Cook(cooked, text), Cook(cooked, rest));
    }

    /** The `switch` of `printf` on the conversion letter. */
    method PrintConversion(sp: Spec, a: Arg)
      requires ArgFits(a) && sp.width < TWO_16
      modifies this`out
      ensures out == old(out) + Cook(cooked, Convert(sp, a))
    {
      var c := sp.conv;
      if c == 'i' || c == 'd' {
        PutLl(AsLong(a), DEFAULT_RADIX, sp.width, sp.fill);
      } else if c == 'X' || c == 'b' || c == 'u' {
        var radix := if 'b' == c then 2 else if 'X' == c then 16 else DEFAULT_RADIX;
        PutUll(AsULong(a), radix, sp.width, sp.fill);
      } else if c == 'f' || c == 's' || c == 'c' {
        Print(a, Format(sp.width, sp.precision, DEFAULT_RADIX, sp.fill));
      } else {
        PutChar(DEFAULT_FILL_CHAR);
      }
    }

    /**
     * The spec parsing of `printf` from index `k`: fill from a leading '0',
     * width digits, then '.' and precision digits; the result also holds the
     * index after the conversion letter.
     */
    method ReadSpec(fmt: seq<char>, k: nat) returns (sp: Spec, next: nat)
      ensures (sp, next) == ParseSpec(fmt, k)
    {
      var s := k;
      var c := At(fmt, s);
      var fill := if c == '0' then '0' else DEFAULT_FILL_CHAR;
      var width: nat := 0;
      while c != NUL && IsDigit(c)
        invariant k <= s && c == At(fmt, s) && width < TWO_16
        invariant ParseNum(fmt, k, 0) == ParseNum(fmt, s, width)
        decreases |fmt| - s
      {
        width := (10 * width + (c as int - '0' as int)) % TWO_16;
        s := s + 1;
        c := At(fmt, s);
      }
      var precision: nat := DEFAULT_PRECISION;
      if c == '.' {
        precision := 0;
        s := s + 1;
        c := At(fmt, s);
        ghost var k1 := s;
        while c != NUL && IsDigit(c)
          invariant k1 <= s && c == At(fmt, s) && precision < TWO_16
          invariant ParseNum(fmt, k1, 0) == ParseNum(fmt, s, precision)
          decreases |fmt| - s
        {
          precision := (10 * precision + (c as int - '0' as int)) % TWO_16;
          s := s + 1;
          c := At(fmt, s);
        }
      }
      sp := Spec(fill, width, precision, c);
      next := s + 1;
    }
  }
}
