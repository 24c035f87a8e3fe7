/**
 * Shared definitions of PropWare: the character constants of PropWare.h, the
 * `ErrorCode` convention (0 is success, anything else is propagated by the
 * `check_errors` early return) and the fixed-width integer helpers that the
 * other modules use to write the C++ wrap-around out explicitly.
 */
module Base {

  /** An unsigned 8-bit value (`uint8_t`, and a C `char` as it is stored in a buffer). */
  type Byte = b: int | 0 <= b < 256

  /** `PropWare::ErrorCode`: 0 is success. */
  type ErrorCode = int

  const NO_ERROR: ErrorCode := 0

  const NUL: char := '\0'
  const BELL: char := 7 as char
  const BACKSPACE: char := 8 as char
  const TAB: char := '\t'
  const NEWLINE: char := '\n'
  const CARRIAGE_RETURN: char := '\r'
  const ESCAPE: char := 0x1B as char
  const DELETE: char := 0x7F as char

  const TWO_8: int := 0x100
  const TWO_16: int := 0x1_0000
  const TWO_32: int := 0x1_0000_0000

  /** `1 << n` without overflow. */
  function Pow2(n: nat): (r: nat)
    ensures r >= 1
  {
    if n == 0 then 1 else 2 * Pow2(n - 1)
  }

  lemma {:induction false} Pow2Add(a: nat, b: nat)
    ensures Pow2(a + b) == Pow2(a) * Pow2(b)
  {
    if a > 0 {
      Pow2Add(a - 1, b);
    }
  }

  /** Larger shifts give larger powers. */
  lemma {:induction false} Pow2Monotone(a: nat, b: nat)
    requires a <= b
    ensures Pow2(a) <= Pow2(b)
    decreases b
  {
    if a < b {
      Pow2Monotone(a, b - 1);
    }
  }

  /** The powers of two the integer widths use. */
  lemma Pow2Values()
    ensures Pow2(8) == TWO_8 && Pow2(16) == TWO_16 && Pow2(32) == TWO_32
    ensures Pow2(64) == 0x1_0000_0000_0000_0000
  {
    assert Pow2(1) == 2;
    Pow2Add(1, 1);
    Pow2Add(2, 2);
    assert Pow2(4) == 16;
    Pow2Add(4, 4);
    assert Pow2(8) == 0x100;
    Pow2Add(8, 8);
    assert Pow2(16) == 0x1_0000;
    Pow2Add(16, 16);
    assert Pow2(32) == 0x1_0000_0000;
    Pow2Add(32, 32);
  }

  /** A value of the source's `unsigned int` (32 bits on the Propeller). */
  type U32 = x: int | 0 <= x < TWO_32

  /** Subtraction of two `unsigned int`s, which wraps modulo 2^32. */
  function USub(a: U32, b: U32): (r: U32)
    ensures a >= b ==> r == a - b
    ensures a < b ==> r == TWO_32 - (b - a)
  {
    (a - b) % TWO_32
  }

  /** The `char` a buffer byte reads as. */
  function CharOf(b: Byte): char { b as char }

  /** The byte a `char` is stored as (the low eight bits of its code). */
  function ByteOf(c: char): Byte { (c as int) % TWO_8 }

  /** `strlen`: the index of the first NUL, or the whole length when there is none. */
  function StrLen(s: seq<char>): (n: nat)
    ensures n <= |s|
    ensures forall i :: 0 <= i < n ==> s[i] != NUL
    ensures n < |s| ==> s[n] == NUL
  {
    if s == [] || s[0] == NUL then 0 else 1 + StrLen(s[1..])
  }

  /**
   * A blocking key source is modelled by the finite sequence of keys it will
   * deliver; reading beyond its end yields NUL.
   */
  function NextKey(keys: seq<char>): char
  {
    if keys == [] then NUL else keys[0]
  }

  /** The keys left after one read. */
  function Rest(keys: seq<char>): (r: seq<char>)
    ensures |r| == if keys == [] then 0 else |keys| - 1
  {
    if keys == [] then [] else keys[1..]
  }

  /** The first `n` keys read from `keys`, NUL once it runs out. */
  function Take(keys: seq<char>, n: nat): (r: seq<char>)
    ensures |r| == n
    ensures forall i :: 0 <= i < n ==> r[i] == if i < |keys| then keys[i] else NUL
  {
    seq(n, i requires 0 <= i < n => if i < |keys| then keys[i] else NUL)
  }

  /** The keys left after `n` reads. */
  function Drop(keys: seq<char>, n: nat): (r: seq<char>)
    ensures |r| <= |keys|
  {
    if n >= |keys| then [] else keys[n..]
  }

  /** Reading `n + 1` keys is reading one, then `n` of the rest. */
  lemma TakeStep(keys: seq<char>, n: nat)
    ensures Take(keys, n + 1) == [NextKey(keys)] + Take(Rest(keys), n)
  {
    var a := Take(keys, n + 1);
    var b := [NextKey(keys)] + Take(Rest(keys), n);
    assert forall i :: 0 <= i < n + 1 ==> a[i] == b[i];
  }

  /** Reading `n + 1` keys is reading `n`, then the key they leave first. */
  lemma TakeSnoc(keys: seq<char>, n: nat, m: nat)
    requires m == n + 1
    ensures Take(keys, m) == Take(keys, n) + [NextKey(Drop(keys, n))]
  {
    var a := Take(keys, m);
    var b := Take(keys, n) + [NextKey(Drop(keys, n))];
    assert forall i :: 0 <= i < m ==> a[i] == b[i];
  }

  /** Reading `n + 1` keys leaves what reading `n` left, less one key. */
  lemma DropStep(keys: seq<char>, n: nat, m: nat)
    requires m == n + 1
    ensures Drop(keys, m) == Rest(Drop(keys, n))
  {
  }

  /** Reading `n + 1` keys leaves what reading `n` keys after the first one leaves. */
  lemma DropRest(keys: seq<char>, n: nat)
    ensures Drop(keys, n + 1) == Drop(Rest(keys), n)
  {
    if keys != [] && n + 1 < |keys| {
      assert keys[1..][n..] == keys[n + 1..];
    }
  }

  /** Concatenation regroups: output appended in two pieces is output appended at once. */
  lemma {:induction false} Associate<T>(a: seq<T>, b: seq<T>, c: seq<T>)
    ensures a + b + c == a + (b + c)
  {
  }
}
