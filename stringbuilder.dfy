/**
 * PropWare's `StringBuilder`: a NUL-terminated character buffer that doubles
 * its allocation as soon as the string and its terminator would fill it. The
 * buffer is an array that is replaced on growth; a fresh allocation, like the
 * one `malloc` returns, holds arbitrary bytes.
 */
module StringBuilders {
  import opened Base

  const DEFAULT_SPACE_ALLOCATED: nat := 64

  /**
   * The allocation a builder created with `initial` bytes has after holding `n`
   * characters: `initial` doubled until it exceeds `n + 1`.
   */
  function Capacity(initial: nat, n: nat): (r: nat)
    requires initial >= 2
    ensures n + 1 < r && r >= initial
    ensures r == initial || r <= 2 * (n + 1)
    decreases n + 2 - initial
  {
    if n + 1 < initial then initial else Capacity(2 * initial, n)
  }

  /** One more character doubles the allocation exactly when it would leave no room for the terminator. */
  lemma {:induction false} CapacityNext(initial: nat, n: nat)
    requires initial >= 2
    ensures Capacity(initial, n + 1) ==
      if n + 2 == Capacity(initial, n) then 2 * Capacity(initial, n) else Capacity(initial, n)
    decreases n + 2 - initial
  {
    if n + 1 >= initial {
      CapacityNext(2 * initial, n);
    }
  }

  /** The allocations the builder's tests expect: 63 or 64 chars give 128 bytes, 4095 chars give 8192. */
  lemma CapacityExamples()
    ensures Capacity(DEFAULT_SPACE_ALLOCATED, 62) == 64
    ensures Capacity(DEFAULT_SPACE_ALLOCATED, 63) == 128
    ensures Capacity(DEFAULT_SPACE_ALLOCATED, 64) == 128
    ensures Capacity(DEFAULT_SPACE_ALLOCATED, 0xFFF) == 0x2000
  {
    assert Capacity(4096, 0xFFF) == 0x2000;
    assert Capacity(64, 63) == 128;
    assert Capacity(64, 64) == 128;
  }

  predicate NulFree(s: seq<char>)
  {
    forall i :: 0 <= i < |s| ==> s[i] != NUL
  }

  /** What the `strcpy` of `expand` as written copies out of the old allocation. */
  datatype Copied = Copied(s: seq<char>) | OverRead

  /**
   * `strcpy(temp, m_string)` in `expand`, as written: the allocation up to its
   * first NUL, or a read past its end when it holds no NUL at all.
   */
  function StrcpyAsWritten(allocation: seq<char>): (r: Copied)
    ensures r == OverRead <==> NulFree(allocation)
    ensures r != OverRead ==> r.s == allocation[..StrLen(allocation)] && NulFree(r.s)
  {
    if NulFree(allocation) then OverRead else Copied(allocation[..StrLen(allocation)])
  }

  /**
   * `expand` runs right after `insert_char` has written the character that
   * leaves exactly one byte free, and that last byte of the allocation was
   * never written: 63 characters in a default builder whose last byte is not
   * NUL make `strcpy` read past the allocation.
   */
  lemma ExpandOverReads(held: seq<char>, stale: char)
    requires |held| + 1 == DEFAULT_SPACE_ALLOCATED && NulFree(held) && stale != NUL
    ensures StrcpyAsWritten(held + [stale]) == OverRead
  {
    assert forall i :: 0 <= i < |held + [stale]| ==> (held + [stale])[i] != NUL by {
      forall i | 0 <= i < |held + [stale]|
        ensures (held + [stale])[i] != NUL
      {
        if i < |held| {
          assert (held + [stale])[i] == held[i];
        }
      }
    }
  }

  class StringBuilder {
    const minimumSpace: nat
    var bufferSize: nat
    var stringSize: nat
    /** `m_string`: the current allocation; bytes that were never written hold anything. */
    var buffer: array<char>

    /** The allocation is the initial one doubled as often as the string length demands. */
    ghost predicate Storage()
      reads this
    {
      2 <= minimumSpace && bufferSize < TWO_16 &&
      bufferSize == Capacity(minimumSpace, stringSize) &&
      buffer.Length == bufferSize
    }

    /** `Storage`, with the string terminated. */
    ghost predicate Valid()
      reads this, buffer
    {
      Storage() && buffer[stringSize] == NUL
    }

    /** The characters held, `m_string[0 .. m_stringSize)`. */
    ghost function Contents(): seq<char>
      reads this, buffer
      requires Storage()
    {
      buffer[..stringSize]
    }

    /** What `to_string()` reads as a C string. */
    ghost function CString(): seq<char>
      reads this, buffer
    {
      buffer[..StrLen(buffer[..])]
    }

    /** `StringBuilder(initialSize)`: empty, terminated, with `initialSize` bytes. */
    constructor (initialSize: nat)
      requires 2 <= initialSize < TWO_16
      ensures Valid() && fresh(buffer)
      ensures Contents() == [] && CString() == [] && stringSize == 0
      ensures minimumSpace == initialSize && bufferSize == initialSize
    {
      minimumSpace := initialSize;
      bufferSize := initialSize;
      stringSize := 0;
      var allocation := new char[initialSize];
      allocation[0] := NUL;
      buffer := allocation;
      new;
      StrLenAt(buffer[..], 0);
    }

    /** `get_size`. */
    function GetSize(): nat
      reads this
    {
      stringSize
    }

    /** With no NUL among the characters, `get_size() == strlen(to_string())` and the C string is the contents. */
    lemma SizeIsStrLen()
      requires Valid() && NulFree(Contents())
      ensures CString() == Contents() && StrLen(buffer[..]) == GetSize()
    {
      StrLenAt(buffer[..], stringSize);
    }

    /**
     * `expand`, corrected: a fresh allocation twice as large, into which the
     * `stringSize` characters held are copied (as written, `strcpy` copies up
     * to a NUL the allocation need not hold, see `StrcpyAsWritten`).
     */
    method Expand()
      requires 2 <= bufferSize && 2 * bufferSize < TWO_16
      requires buffer.Length == bufferSize && stringSize < bufferSize
      modifies this`bufferSize, this`buffer
      ensures bufferSize == 2 * old(bufferSize) && fresh(buffer) && buffer.Length == bufferSize
      ensures buffer[..stringSize] == old(buffer[..stringSize])
    {
      var temp := new char[2 * bufferSize];
      var i := 0;
      while i < stringSize
        modifies temp
        invariant 0 <= i <= stringSize
        invariant temp[..i] == buffer[..i]
      {
        temp[i] := buffer[i];
        i := i + 1;
      }
      bufferSize := 2 * bufferSize;
      buffer := temp;
    }

    /** `check_buffer_size`: expands when the string and a terminator would exactly fill the allocation. */
    method CheckBufferSize()
      requires 2 <= minimumSpace && buffer.Length == bufferSize && 0 < stringSize && stringSize + 1 < 0x8000
      requires bufferSize == Capacity(minimumSpace, stringSize - 1) && bufferSize < TWO_16
      modifies this`bufferSize, this`buffer
      ensures Storage()
      ensures bufferSize == if stringSize + 1 == old(bufferSize) then 2 * old(bufferSize) else old(bufferSize)
      ensures bufferSize == old(bufferSize) ==> buffer == old(buffer)
      ensures bufferSize != old(bufferSize) ==> fresh(buffer)
      ensures buffer[..stringSize] == old(buffer[..stringSize])
    {
      CapacityNext(minimumSpace, stringSize - 1);
      if stringSize + 1 == bufferSize {
        Expand();
      }
    }

    /** `insert_char`: stores `c` after the string, then lets the allocation grow. */
    method InsertChar(c: char)
      requires Storage() && stringSize + 2 < 0x8000
      modifies this`bufferSize, this`buffer, this`stringSize, buffer
      ensures Storage() && stringSize == old(stringSize) + 1
      ensures bufferSize == if stringSize + 1 == old(bufferSize) then 2 * old(bufferSize) else old(bufferSize)
      ensures Contents() == old(Contents()) + [c]
      ensures bufferSize == old(bufferSize) ==> buffer == old(buffer)
      ensures bufferSize != old(bufferSize) ==> fresh(buffer)
    {
      buffer[stringSize] := c;
      stringSize := stringSize + 1;
      assert buffer[..stringSize] == old(Contents()) + [c];
      CheckBufferSize();
    }

    /**
     * `put_char`: appends `c` and re-terminates. The allocation doubles exactly
     * when the string would otherwise fill it, so one byte always stays free.
     */
    method PutChar(c: char)
      requires Valid() && stringSize + 2 < 0x8000
      modifies this`bufferSize, this`buffer, this`stringSize, buffer
      ensures Valid() && stringSize == old(stringSize) + 1 && stringSize + 1 < bufferSize
      ensures bufferSize == if old(stringSize) + 2 == old(bufferSize) then 2 * old(bufferSize) else old(bufferSize)
      ensures Contents() == old(Contents()) + [c]
    {
      InsertChar(c);
      buffer[stringSize] := NUL;
      assert buffer[..stringSize] == old(Contents()) + [c];
    }

    /**
     * `puts`: appends the characters of the C string `s` (up to its first NUL,
     * or all of `s` when it has none) and re-terminates.
     */
    method Puts(s: seq<char>)
      requires Valid() && stringSize + StrLen(s) + 1 < 0x8000
      modifies this`bufferSize, this`buffer, this`stringSize, buffer
      ensures Valid() && stringSize == old(stringSize) + StrLen(s)
      ensures Contents() == old(Contents()) + s[..StrLen(s)]
    {
      var i := 0;
      while i < |s| && s[i] != NUL
        invariant 0 <= i <= StrLen(s)
        invariant Storage() && stringSize == old(stringSize) + i
        invariant Contents() == old(Contents()) + s[..i]
        invariant buffer == old(buffer) || fresh(buffer)
        decreases |s| - i
      {
        InsertChar(s[i]);
        assert s[..i + 1] == s[..i] + [s[i]];
        i := i + 1;
      }
      buffer[stringSize] := NUL;
      assert buffer[..stringSize] == old(Contents()) + s[..i];
    }

    /**
     * `clear`: a non-empty builder becomes empty and returns to its initial
     * allocation; an empty one is left exactly as it is.
     */
    method Clear()
      requires Valid()
      modifies this`bufferSize, this`buffer, this`stringSize, buffer
      ensures Valid() && Contents() == [] && CString() == []
      ensures old(stringSize) == 0 ==> bufferSize == old(bufferSize) && buffer == old(buffer) && unchanged(buffer)
      ensures old(stringSize) != 0 ==> bufferSize == minimumSpace
    {
      if stringSize != 0 {
        if minimumSpace != bufferSize {
          buffer := new char[minimumSpace];
          bufferSize := minimumSpace;
        }
        buffer[0] := NUL;
        stringSize := 0;
      }
      StrLenAt(buffer[..], 0);
    }
  }

  /** `strlen` of a string whose first NUL is at index `k`. */
  lemma {:induction false} StrLenAt(s: seq<char>, k: nat)
    requires k < |s| && s[k] == NUL && NulFree(s[..k])
    ensures StrLen(s) == k
  {
    if k > 0 {
      assert s[1..][..k - 1] == s[..k][1..];
      StrLenAt(s[1..], k - 1);
    }
  }
}
