/**
 * PropWare's `Utility` helpers: Kernighan bit counting, in-place case
 * conversion of NUL-terminated strings, `to_string`, `empty`, `min`/`max`
 * and the single-bit helpers `to_bit`, `bit_read`, `bit_set`, `bit_clear`
 * and `bit_write`. A `Bit` (and the `uint32_t` it is applied to) is a `bv32`.
 */
module Utility {
  import opened Base

  /** Whether bit `i` of `x` is set. */
  predicate BitAt(x: bv32, i: bv32)
    requires i < 32
  {
    (x >> i) & 1 == 1
  }

  /** The number of set bits of `x` among positions 0 .. n-1. */
  function Ones(x: bv32, n: bv32): (r: nat)
    requires n <= 32
    ensures r <= n as int
    decreases n as int
  {
    if n == 0 then 0 else Ones(x, n - 1) + (if BitAt(x, n - 1) then 1 else 0)
  }

  /** The population count: the number of set bits of `x`. */
  function PopCount(x: bv32): nat
  {
    Ones(x, 32)
  }

  /** The bits below position n. */
  function LowMask(n: bv32): bv32
    requires n <= 32
  {
    if n == 32 then 0xFFFF_FFFF else ((1 as bv32) << n) - 1
  }

  lemma {:induction false} OnesOfZero(n: bv32)
    requires n <= 32
    ensures Ones(0, n) == 0
    decreases n as int
  {
    if n > 0 {
      OnesOfZero(n - 1);
    }
  }

  /** `x & (x - 1)` keeps exactly the set bits of `x` that have a set bit below them. */
  lemma ClearLowestBitAt(x: bv32, i: bv32)
    requires i < 32
    ensures BitAt(x & (x - 1), i) <==> BitAt(x, i) && x & LowMask(i) != 0
  {
  }

  /** Clearing the lowest set bit removes exactly one set bit among any low positions that include it. */
  lemma {:induction false} OnesAfterClear(x: bv32, n: bv32)
    requires n <= 32
    ensures Ones(x & (x - 1), n) + (if x & LowMask(n) != 0 then 1 else 0) == Ones(x, n)
    decreases n as int
  {
    if n > 0 {
      OnesAfterClear(x, n - 1);
      OnesAfterClearStep(x, n);
    } else {
      assert LowMask(n) == 0;
    }
  }

  /** The inductive step of `OnesAfterClear`: from the positions below n-1 to those below n. */
  lemma OnesAfterClearStep(x: bv32, n: bv32)
    requires 0 < n <= 32
    requires Ones(x & (x - 1), n - 1) + (if x & LowMask(n - 1) != 0 then 1 else 0) == Ones(x, n - 1)
    ensures Ones(x & (x - 1), n) + (if x & LowMask(n) != 0 then 1 else 0) == Ones(x, n)
  {
    var y := x & (x - 1);
    ClearLowestBitAt(x, n - 1);
    MaskStep(x, n);
    CountStep(Ones(y, n - 1), Ones(x, n - 1), x & LowMask(n - 1) != 0, BitAt(x, n - 1), BitAt(y, n - 1), x & LowMask(n) != 0);
  }

  /** The counting step of `OnesAfterClear`, stated on plain booleans. */
  lemma CountStep(onesY: nat, onesX: nat, below: bool, bitX: bool, bitY: bool, belowOrAt: bool)
    requires onesY + (if below then 1 else 0) == onesX
    requires bitY <==> bitX && below
    requires belowOrAt <==> below || bitX
    ensures onesY + (if bitY then 1 else 0) + (if belowOrAt then 1 else 0) == onesX + (if bitX then 1 else 0)
  {
  }

  /** The bits below n are set somewhere iff they are below n-1 or bit n-1 is. */
  lemma MaskStep(x: bv32, n: bv32)
    requires 0 < n <= 32
    ensures x & LowMask(n) != 0 <==> x & LowMask(n - 1) != 0 || BitAt(x, n - 1)
    ensures !BitAt(x, n - 1) ==> x & LowMask(n) == x & LowMask(n - 1)
  {
  }

  lemma AndBitAt(x: bv32, y: bv32, i: bv32)
    requires i < 32
    ensures BitAt(x & y, i) <==> BitAt(x, i) && BitAt(y, i)
  {
  }

  /** Kernighan's step: `par & (par - 1)` has one set bit fewer than a non-zero `par`. */
  lemma PopCountAfterClear(x: bv32)
    requires x != 0
    ensures PopCount(x & (x - 1)) + 1 == PopCount(x)
  {
    OnesAfterClear(x, 32);
  }

  /** `count_bits(uint32_t)`: the loop runs once per set bit and counts them. */
  method CountBits(par: bv32) returns (totalBits: nat)
    ensures totalBits == PopCount(par)
    ensures totalBits <= 32
  {
    var p := par;
    totalBits := 0;
    while p != 0
      invariant totalBits + PopCount(p) == PopCount(par)
      decreases PopCount(p)
    {
      PopCountAfterClear(p);
      p := p & (p - 1);
      totalBits := totalBits + 1;
    }
    OnesOfZero(32);
  }

  /** The bit pattern of a two's-complement `int32_t`. */
  function BitsOf(v: int): bv32
    requires -0x8000_0000 <= v < 0x8000_0000
  {
    (v % TWO_32) as bv32
  }

  /** `count_bits(int32_t)`: the count of the same bit pattern read as unsigned. */
  method CountBitsSigned(par: int) returns (totalBits: nat)
    requires -0x8000_0000 <= par < 0x8000_0000
    ensures totalBits == PopCount(BitsOf(par))
  {
    totalBits := CountBits(BitsOf(par));
  }

  /** The C-locale `tolower`. */
  function Lower(c: char): (r: char)
    ensures 'A' <= c <= 'Z' ==> r as int == c as int + 32
    ensures !('A' <= c <= 'Z') ==> r == c
  {
    if 'A' <= c <= 'Z' then (c as int + 32) as char else c
  }

  /** The C-locale `toupper`. */
  function Upper(c: char): (r: char)
    ensures 'a' <= c <= 'z' ==> r as int == c as int - 32
    ensures !('a' <= c <= 'z') ==> r == c
  {
    if 'a' <= c <= 'z' then (c as int - 32) as char else c
  }

  /** Two strings with NULs at the same places have the same `strlen`. */
  lemma {:induction false} StrLenSameNuls(s: seq<char>, t: seq<char>)
    requires |s| == |t|
    requires forall i :: 0 <= i < |s| ==> (s[i] == NUL <==> t[i] == NUL)
    ensures StrLen(s) == StrLen(t)
  {
    if s != [] && s[0] != NUL {
      StrLenSameNuls(s[1..], t[1..]);
    }
  }

  /** `to_lower`: every char before the terminator is lowered in place; `strlen` is recomputed per step. */
  method ToLower(s: array<char>)
    requires StrLen(s[..]) < s.Length
    modifies s
    ensures StrLen(s[..]) == StrLen(old(s[..]))
    ensures forall i :: 0 <= i < s.Length ==>
      s[i] == if i < StrLen(old(s[..])) then Lower(old(s[i])) else old(s[i])
  {
    ghost var n := StrLen(s[..]);
    var i := 0;
    while i < StrLen(s[..])
      invariant 0 <= i <= n
      invariant StrLen(s[..]) == n
      invariant forall k :: 0 <= k < s.Length ==> s[k] == if k < i then Lower(old(s[k])) else old(s[k])
    {
      ghost var before := s[..];
      s[i] := Lower(s[i]);
      StrLenSameNuls(before, s[..]);
      i := i + 1;
    }
  }

  /** `to_upper`: every char before the terminator is raised in place; `strlen` is recomputed per step. */
  method ToUpper(s: array<char>)
    requires StrLen(s[..]) < s.Length
    modifies s
    ensures StrLen(s[..]) == StrLen(old(s[..]))
    ensures forall i :: 0 <= i < s.Length ==>
      s[i] == if i < StrLen(old(s[..])) then Upper(old(s[i])) else old(s[i])
  {
    ghost var n := StrLen(s[..]);
    var i := 0;
    while i < StrLen(s[..])
      invariant 0 <= i <= n
      invariant StrLen(s[..]) == n
      invariant forall k :: 0 <= k < s.Length ==> s[k] == if k < i then Upper(old(s[k])) else old(s[k])
    {
      ghost var before := s[..];
      s[i] := Upper(s[i]);
      StrLenSameNuls(before, s[..]);
      i := i + 1;
    }
  }

  /** `to_string(bool)`. */
  function ToString(b: bool): (r: string)
    ensures r == "true" <==> b
    ensures r == "false" <==> !b
  {
    if b then "true" else "false"
  }

  /** `empty`: the string has no characters before its terminator. */
  function Empty(s: seq<char>): (r: bool)
    requires |s| > 0
    ensures r <==> StrLen(s) == 0
  {
    NUL == s[0]
  }

  /** `min`: the smaller of the two, `a` on a tie. */
  function Min(a: int, b: int): (r: int)
    ensures r <= a && r <= b
    ensures r == a || r == b
  {
    if b >= a then a else b
  }

  /** `max`: the larger of the two, `b` on a tie. */
  function Max(a: int, b: int): (r: int)
    ensures r >= a && r >= b
    ensures r == a || r == b
  {
    if b < a then a else b
  }

  /** A single bit `1 << i` has exactly one set bit among any positions that include `i`. */
  lemma {:induction false} OnesOfSingleBit(i: bv32, n: bv32)
    requires i < 32 && n <= 32
    ensures Ones((1 as bv32) << i, n) == if i < n then 1 else 0
    decreases n as int
  {
    if n > 0 {
      OnesOfSingleBit(i, n - 1);
      assert BitAt((1 as bv32) << i, n - 1) <==> i == n - 1;
    }
  }

  /** `to_bit`: the single bit at position n, or `NULL_BIT` (0) from 32 on. */
  function ToBit(n: Byte): (r: bv32)
    ensures n < 32 ==> PopCount(r) == 1 && BitAt(r, n as bv32)
    ensures n >= 32 ==> r == 0
  {
    if 32 > n then
      OnesOfSingleBit(n as bv32, 32);
      (1 as bv32) << n as bv32
    else 0
  }

  /** `bit_read`: whether any bit of `bit` is set in `x`. */
  function BitRead(x: bv32, bit: bv32): (r: bool)
    ensures r <==> exists i: bv32 :: i < 32 && BitAt(x, i) && BitAt(bit, i)
  {
    BitReadAt(x, bit, 32);
    0 != x & bit
  }

  lemma {:induction false} BitReadAt(x: bv32, bit: bv32, n: bv32)
    requires n <= 32
    ensures x & bit & LowMask(n) != 0 <==> exists i: bv32 :: i < n && BitAt(x, i) && BitAt(bit, i)
    decreases n as int
  {
    if n > 0 {
      BitReadAt(x, bit, n - 1);
      MaskStep(x & bit, n);
      AndBitAt(x, bit, n - 1);
    }
  }

  /** `bit_set`: ORs `bit` into `x`. */
  method BitSet(x: bv32, bit: bv32) returns (r: bv32)
    ensures forall i: bv32 :: i < 32 ==> (BitAt(r, i) <==> BitAt(x, i) || BitAt(bit, i))
  {
    r := x | bit;
  }

  /** `bit_clear`: ANDs the complement of `bit` into `x`. */
  method BitClear(x: bv32, bit: bv32) returns (r: bv32)
    ensures forall i: bv32 :: i < 32 ==> (BitAt(r, i) <==> BitAt(x, i) && !BitAt(bit, i))
  {
    r := x & !bit;
  }

  /** `bit_write`: the bits of `bit` take `value`, every other bit of `x` is kept. */
  method BitWrite(x: bv32, bit: bv32, value: bool) returns (r: bv32)
    ensures forall i: bv32 :: i < 32 ==> (BitAt(r, i) <==> if BitAt(bit, i) then value else BitAt(x, i))
    ensures bit != 0 ==> (BitRead(r, bit) <==> value)
  {
    if value {
      r := BitSet(x, bit);
    } else {
      r := BitClear(x, bit);
    }
    if bit != 0 {
      WrittenRead(r, bit, value);
    }
  }

  /** Once every bit of a non-zero `bit` holds `value` in `r`, `bit_read(r, bit)` reads `value`. */
  lemma WrittenRead(r: bv32, bit: bv32, value: bool)
    requires bit != 0
    requires forall i: bv32 :: i < 32 && BitAt(bit, i) ==> (BitAt(r, i) <==> value)
    ensures BitRead(r, bit) <==> value
  {
    NonZeroHasBit(bit);
  }

  lemma NonZeroHasBit(x: bv32)
    requires x != 0
    ensures exists i: bv32 :: i < 32 && BitAt(x, i)
  {
    if forall i: bv32 :: i < 32 ==> !BitAt(x, i) {
      OnesOfZeroMask(x, 32);
    }
  }

  lemma {:induction false} OnesOfZeroMask(x: bv32, n: bv32)
    requires n <= 32
    requires forall i: bv32 :: i < n ==> !BitAt(x, i)
    ensures x & LowMask(n) == 0
    decreases n as int
  {
    if n > 0 {
      OnesOfZeroMask(x, n - 1);
      MaskStep(x, n);
    }
  }
}
