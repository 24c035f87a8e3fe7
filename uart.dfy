/**
 * The frame configuration of PropWare's bit-banged `UART`: the data, parity
 * and stop-bit masks that `send` ORs into a word and the total frame length,
 * the validation of each setter, and the receive-side `msbMask` and
 * `receivableBits` of `FullDuplexUART`. The masks are unsigned integers; a
 * shift `1 << n` is written `Pow2(n)` and an OR of disjoint bits as a sum.
 */
module Uart {
  import opened Base

  datatype Parity = NoParity | EvenParity | OddParity

  const BAUD_TOO_HIGH: ErrorCode := 64
  const INVALID_DATA_WIDTH: ErrorCode := 65
  const INVALID_STOP_BIT_WIDTH: ErrorCode := 66

  const DEFAULT_DATA_WIDTH: nat := 8
  const DEFAULT_PARITY: Parity := NoParity
  const DEFAULT_STOP_BIT_WIDTH: nat := 1
  const DEFAULT_BAUD: nat := 115200
  const MAX_BAUD: nat := 122000

  /** 1 when the frame carries a parity bit. */
  function ParityBits(p: Parity): (n: nat)
    ensures n <= 1 && (n == 1 <==> p != NoParity)
  {
    if p == NoParity then 0 else 1
  }

  /** `width` ones from bit 0 up. */
  function Ones(width: nat): (m: nat)
    ensures m + 1 == Pow2(width)
  {
    Pow2(width) - 1
  }

  /** `set_stop_bit_mask`: `stopBits` ones just above the data bits and the parity bit. */
  function StopMask(stopBits: nat, dataWidth: nat, p: Parity): nat
  {
    Ones(stopBits) * Pow2(dataWidth + ParityBits(p))
  }

  /** The parity bit, just above the data bits, as a 32-bit mask. */
  function ParityMask(dataWidth: nat): nat
  {
    Pow2(dataWidth)
  }

  /** `set_parity_mask` as written: `1 << dataWidth` stored in a `uint16_t`. */
  function ParityMaskAsWritten(dataWidth: nat): nat
  {
    Pow2(dataWidth) % TWO_16
  }

  /** `set_total_bits`: start bit, data bits, the parity bit if any, stop bits. */
  function TotalBits(dataWidth: nat, stopBits: nat, p: Parity): nat
  {
    1 + dataWidth + stopBits + ParityBits(p)
  }

  /** `Ones(stopBits) << shift` is the difference of two powers of two. */
  lemma {:induction false} OnesShifted(stopBits: nat, shift: nat)
    ensures Ones(stopBits) * Pow2(shift) == Pow2(stopBits + shift) - Pow2(shift)
  {
    Pow2Add(stopBits, shift);
    var a, b := Pow2(stopBits), Pow2(shift);
    assert (a - 1) * b == a * b - b;
  }

  /** Every configuration the setters accept fits a 32-bit frame. */
  lemma {:induction false} FrameFits(dataWidth: nat, stopBits: nat, p: Parity)
    requires 1 <= dataWidth <= 16 && 1 <= stopBits <= 14
    ensures TotalBits(dataWidth, stopBits, p) <= 32
    ensures StopMask(stopBits, dataWidth, p) < TWO_32
  {
    var shift := dataWidth + ParityBits(p);
    OnesShifted(stopBits, shift);
    Pow2Monotone(stopBits + shift, 32);
    Pow2Values();
  }

  /**
   * The data bits, the parity bit (when there is one) and the stop bits fill
   * the frame above the start bit without gap or overlap: added up (their OR,
   * since they are disjoint) they are the ones of the frame after the start bit.
   */
  lemma {:induction false} FrameContiguous(dataWidth: nat, stopBits: nat, p: Parity)
    ensures Ones(dataWidth) + ParityBits(p) * ParityMask(dataWidth) + StopMask(stopBits, dataWidth, p)
         == Ones(TotalBits(dataWidth, stopBits, p) - 1)
  {
    var shift := dataWidth + ParityBits(p);
    OnesShifted(stopBits, shift);
    if p == NoParity {
      assert Ones(dataWidth) + ParityBits(p) * ParityMask(dataWidth) == Pow2(shift) - 1;
    } else {
      assert Pow2(shift) == 2 * Pow2(dataWidth);
      assert Ones(dataWidth) + ParityBits(p) * ParityMask(dataWidth) == Pow2(shift) - 1;
    }
    assert TotalBits(dataWidth, stopBits, p) - 1 == stopBits + shift;
  }

  /** Powers of two grow strictly. */
  lemma {:induction false} Pow2Grows(a: nat, b: nat)
    requires a < b
    ensures 2 * Pow2(a) <= Pow2(b)
    decreases b
  {
    if a + 1 < b {
      Pow2Grows(a, b - 1);
    }
  }

  /** A stop-bit mask placed for one data width is in the wrong place for any other. */
  lemma {:induction false} StopMaskMoves(stopBits: nat, w1: nat, w2: nat, p: Parity)
    requires 1 <= stopBits && w1 != w2
    ensures StopMask(stopBits, w1, p) != StopMask(stopBits, w2, p)
  {
    var lo, hi := if w1 < w2 then w1 else w2, if w1 < w2 then w2 else w1;
    var a, b := Pow2(lo + ParityBits(p)), Pow2(hi + ParityBits(p));
    Pow2Grows(lo + ParityBits(p), hi + ParityBits(p));
    var m := Ones(stopBits);
    Pow2Monotone(1, stopBits);
    MulLess(m, a, b);
  }

  lemma {:induction false} MulLess(m: nat, a: nat, b: nat)
    requires 1 <= m && a < b
    ensures m * a < m * b
  {
    if m > 1 {
      MulLess(m - 1, a, b);
      assert m * a == (m - 1) * a + a && m * b == (m - 1) * b + b;
    }
  }

  /** With 16 data bits, the width `set_data_width` accepts last, the `uint16_t` parity mask is 0: the parity bit is lost. */
  lemma ParityMaskTruncated()
    ensures ParityMaskAsWritten(16) == 0 && ParityMask(16) == TWO_16
  {
    Pow2Values();
  }

  /** Below 16 data bits the `uint16_t` parity mask holds the intended bit. */
  lemma {:induction false} ParityMaskFits(dataWidth: nat)
    requires dataWidth < 16
    ensures ParityMaskAsWritten(dataWidth) == ParityMask(dataWidth)
  {
    Pow2Monotone(dataWidth, 15);
    Pow2Values();
    assert Pow2(16) == 2 * Pow2(15);
  }

  /** `UART`: the frame configuration shared by all the bit-banged UARTs. */
  class Uart {
    /** `CLKFREQ`, the system clock in Hz. */
    const clkFreq: nat
    var dataWidth: nat
    var dataMask: nat
    var parity: Parity
    var parityMask: nat
    var stopBitWidth: nat
    var stopBitMask: nat
    var bitCycles: nat
    var totalBits: nat

    /** The configuration fields agree with the width, parity and stop-bit settings. */
    ghost predicate Valid()
      reads this
    {
      1 <= dataWidth <= 16 && 1 <= stopBitWidth <= 14 &&
      dataMask == Ones(dataWidth) && parityMask == ParityMask(dataWidth) &&
      totalBits == TotalBits(dataWidth, stopBitWidth, parity) && totalBits <= 32
    }

    /** The stop-bit mask sits right above the current data and parity bits. */
    ghost predicate StopBitsInPlace()
      reads this
    {
      stopBitMask == StopMask(stopBitWidth, dataWidth, parity)
    }

    /** `UART()`: 8 data bits, no parity, 1 stop bit, 115200 baud. */
    constructor (clkFreq: nat)
      ensures this.clkFreq == clkFreq && Valid() && StopBitsInPlace()
      ensures dataWidth == DEFAULT_DATA_WIDTH && parity == DEFAULT_PARITY && stopBitWidth == DEFAULT_STOP_BIT_WIDTH
      ensures dataMask == 0xFF && parityMask == 0x100 && stopBitMask == 0x100 && totalBits == 10
      ensures bitCycles == clkFreq / DEFAULT_BAUD
    {
      this.clkFreq := clkFreq;
      dataWidth := 0;
      dataMask := 0;
      parity := NoParity;
      parityMask := 0;
      // uninitialised in the source until `set_stop_bit_width` below, which
      // recomputes everything that depended on it
      stopBitWidth := DEFAULT_STOP_BIT_WIDTH;
      stopBitMask := 0;
      bitCycles := 0;
      totalBits := 0;
      new;
      var _ := SetDataWidth(DEFAULT_DATA_WIDTH);
      SetParity(DEFAULT_PARITY);
      var _ := SetStopBitWidth(DEFAULT_STOP_BIT_WIDTH);
      var _ := SetBaudRate(DEFAULT_BAUD);
      assert Pow2(8) == 0x100;
    }

    /**
     * `set_data_width`: widths 1 to 16 set the data mask, the parity mask and the
     * frame length; anything else is rejected with nothing changed. The stop-bit
     * mask is not recomputed, so it stays where the old width put it.
     */
    method SetDataWidth(width: Byte) returns (err: ErrorCode)
      modifies this`dataWidth, this`dataMask, this`parityMask, this`totalBits
      ensures err == NO_ERROR <==> 1 <= width <= 16
      ensures err != NO_ERROR ==> err == INVALID_DATA_WIDTH && unchanged(this)
      ensures err == NO_ERROR ==> dataWidth == width && dataMask == Ones(width) && parityMask == ParityMask(width)
      ensures err == NO_ERROR ==> totalBits == TotalBits(width, stopBitWidth, parity)
      ensures err == NO_ERROR && 1 <= stopBitWidth <= 14 ==> Valid()
      ensures stopBitMask == old(stopBitMask)
      ensures err == NO_ERROR && 1 <= stopBitWidth && old(StopBitsInPlace()) ==> (StopBitsInPlace() <==> width == old(dataWidth))
    {
      if 1 > width || width > 16 {
        return INVALID_DATA_WIDTH;
      }
      dataWidth := width;
      dataMask := 0;
      var i := 0;
      while i < dataWidth
        invariant 0 <= i <= dataWidth && dataMask == Ones(i)
        modifies this`dataMask
      {
        // bit i is clear, so `dataMask |= 1 << i` adds it
        dataMask := dataMask + Pow2(i);
        i := i + 1;
      }
      SetParityMask();
      SetTotalBits();
      if 1 <= stopBitWidth <= 14 {
        FrameFits(dataWidth, stopBitWidth, parity);
      }
      if width != old(dataWidth) && 1 <= stopBitWidth {
        StopMaskMoves(stopBitWidth, width, old(dataWidth), parity);
      }
      return NO_ERROR;
    }

    /** `set_parity`: the parity, then the parity mask, the stop-bit mask and the frame length. */
    method SetParity(p: Parity)
      requires 1 <= dataWidth <= 16 && 1 <= stopBitWidth <= 14
      modifies this`parity, this`parityMask, this`stopBitMask, this`totalBits
      ensures parity == p && parityMask == ParityMask(dataWidth) && StopBitsInPlace()
      ensures totalBits == TotalBits(dataWidth, stopBitWidth, p) <= 32
    {
      parity := p;
      SetParityMask();
      SetStopBitMask();
      SetTotalBits();
      FrameFits(dataWidth, stopBitWidth, parity);
    }

    /** `set_stop_bit_width`: 1 to 14 stop bits set the stop-bit mask and the frame length; anything else is rejected. */
    method SetStopBitWidth(stopBits: Byte) returns (err: ErrorCode)
      requires 1 <= dataWidth <= 16
      modifies this`stopBitWidth, this`stopBitMask, this`totalBits
      ensures err == NO_ERROR <==> 1 <= stopBits <= 14
      ensures err != NO_ERROR ==> err == INVALID_STOP_BIT_WIDTH && unchanged(this)
      ensures err == NO_ERROR ==>
        stopBitWidth == stopBits && StopBitsInPlace() && totalBits == TotalBits(dataWidth, stopBits, parity) <= 32
    {
      if 0 == stopBits || stopBits > 14 {
        return INVALID_STOP_BIT_WIDTH;
      }
      stopBitWidth := stopBits;
      SetStopBitMask();
      SetTotalBits();
      FrameFits(dataWidth, stopBitWidth, parity);
      return NO_ERROR;
    }

    /** `set_baud_rate`: rates above `MAX_BAUD` are rejected; otherwise the bit time in clock cycles. */
    method SetBaudRate(baudRate: U32) returns (err: ErrorCode)
      requires 0 < baudRate
      modifies this`bitCycles
      ensures err == NO_ERROR <==> baudRate <= MAX_BAUD
      ensures err != NO_ERROR ==> err == BAUD_TOO_HIGH && unchanged(this)
      ensures err == NO_ERROR ==> bitCycles == clkFreq / baudRate
    {
      if MAX_BAUD < baudRate {
        return BAUD_TOO_HIGH;
      }
      bitCycles := clkFreq / baudRate;
      return NO_ERROR;
    }

    /** `set_stop_bit_mask`: a run of `stopBitWidth` ones, shifted past the data bits and the parity bit. */
    method SetStopBitMask()
      requires 1 <= stopBitWidth
      modifies this`stopBitMask
      ensures StopBitsInPlace()
    {
      stopBitMask := 1;
      var i := 0;
      while i < stopBitWidth - 1
        invariant 0 <= i <= stopBitWidth - 1 && stopBitMask == Ones(i + 1)
      {
        // on a run of ones, `mask |= mask << 1` appends one more
        stopBitMask := 2 * stopBitMask + 1;
        i := i + 1;
      }
      stopBitMask := stopBitMask * Pow2(dataWidth);
      if NoParity != parity {
        stopBitMask := stopBitMask * 2;
      }
      assert Pow2(dataWidth + 1) == 2 * Pow2(dataWidth);
    }

    /** `set_parity_mask`: the bit just above the data bits. */
    method SetParityMask()
      modifies this`parityMask
      ensures parityMask == ParityMask(dataWidth)
    {
      parityMask := Pow2(dataWidth);
    }

    /** `set_total_bits`. */
    method SetTotalBits()
      modifies this`totalBits
      ensures totalBits == TotalBits(dataWidth, stopBitWidth, parity)
    {
      totalBits := 1 + dataWidth + stopBitWidth;
      if NoParity != parity {
        totalBits := totalBits + 1;
      }
    }
  }

  /** `FullDuplexUART`: a `UART` that also receives, with the receive-side masks. */
  class FullDuplexUart {
    const uart: Uart
    var msbMask: nat
    var receivableBits: nat

    /** The receive-side fields agree with the frame configuration. */
    ghost predicate ReceiveValid()
      reads this, uart
    {
      1 <= uart.dataWidth && msbMask == MsbMask(uart.dataWidth, uart.parity) &&
      receivableBits == uart.dataWidth + ParityBits(uart.parity)
    }

    constructor (clkFreq: nat)
      ensures fresh(uart) && uart.clkFreq == clkFreq && uart.Valid() && uart.StopBitsInPlace() && ReceiveValid()
      ensures uart.dataWidth == DEFAULT_DATA_WIDTH && uart.parity == DEFAULT_PARITY
      ensures msbMask == 0x80 && receivableBits == 8
    {
      uart := new Uart(clkFreq);
      msbMask := 0;
      receivableBits := 0;
      new;
      var _ := SetDataWidth(uart.dataWidth);
      assert Pow2(7) == 0x80;
    }

    /** `set_data_width`: the `UART` setter, then the receive-side fields unless it failed. */
    method SetDataWidth(width: Byte) returns (err: ErrorCode)
      requires 1 <= uart.stopBitWidth <= 14
      modifies uart`dataWidth, uart`dataMask, uart`parityMask, uart`totalBits, this`msbMask, this`receivableBits
      ensures err == NO_ERROR <==> 1 <= width <= 16
      ensures err != NO_ERROR ==> err == INVALID_DATA_WIDTH && unchanged(this) && unchanged(uart)
      ensures err == NO_ERROR ==> uart.dataWidth == width && uart.Valid() && ReceiveValid()
      ensures uart.stopBitMask == old(uart.stopBitMask)
    {
      err := uart.SetDataWidth(width);
      if err != NO_ERROR {
        return;
      }
      SetMsbMask();
      SetReceivableBits();
      return NO_ERROR;
    }

    /** `set_parity`: the `UART` setter, then the receive-side fields. */
    method SetParity(p: Parity)
      requires 1 <= uart.dataWidth <= 16 && 1 <= uart.stopBitWidth <= 14
      modifies uart`parity, uart`parityMask, uart`stopBitMask, uart`totalBits, this`msbMask, this`receivableBits
      ensures uart.parity == p && uart.StopBitsInPlace() && ReceiveValid()
      ensures uart.totalBits == TotalBits(uart.dataWidth, uart.stopBitWidth, p) <= 32
    {
      uart.SetParity(p);
      SetMsbMask();
      SetReceivableBits();
    }

    /** `set_msb_mask`. */
    method SetMsbMask()
      requires 1 <= uart.dataWidth
      modifies this`msbMask
      ensures msbMask == MsbMask(uart.dataWidth, uart.parity)
    {
      if uart.parity != NoParity {
        msbMask := Pow2(uart.dataWidth);
      } else {
        msbMask := Pow2(uart.dataWidth - 1);
      }
    }

    /** `set_receivable_bits`. */
    method SetReceivableBits()
      modifies this`receivableBits
      ensures receivableBits == uart.dataWidth + ParityBits(uart.parity)
    {
      if uart.parity != NoParity {
        receivableBits := uart.dataWidth + 1;
      } else {
        receivableBits := uart.dataWidth;
      }
    }
  }

  /** The bit `receive` shifts each sampled line level into: the last bit of the received word. */
  function MsbMask(dataWidth: nat, p: Parity): nat
    requires 1 <= dataWidth
  {
    Pow2(dataWidth + ParityBits(p) - 1)
  }

  /** Shifting into `MsbMask` for `receivableBits` samples leaves the first sample at bit 0. */
  lemma {:induction false} MsbMaskIsLastBit(dataWidth: nat, p: Parity)
    requires 1 <= dataWidth
    ensures MsbMask(dataWidth, p) * 2 == Pow2(dataWidth + ParityBits(p))
    ensures p != NoParity ==> MsbMask(dataWidth, p) == ParityMask(dataWidth)
  {
  }
}
