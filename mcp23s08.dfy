/**
 * The MCP23S08 port expander of the ESP32 board, driven over SPI. Every
 * register access is one three-byte SPI transfer from the shared transmit
 * buffer into the shared receive buffer; a pin is set, read or turned into
 * an input by a read-modify-write of one bit of a register.
 *
 * The far side of the SPI bus is part of the model: `regs` is the chip's
 * register file (addresses IODIR 0x00 to OLAT 0x0A), which answers a read
 * command with the addressed register in the third received byte and
 * stores the third sent byte on a write command. `frames` records the
 * three bytes of every transfer, oldest first.
 */
module Mcp23s08 {
  import opened Common

  /** READ_CMD. */
  const ReadCmd: bv8 := 0x41
  /** WRITE_CMD. */
  const WriteCmd: bv8 := 0x40

  /** IODIR: direction register, a set bit makes the pin an input. */
  const Iodir: bv8 := 0x00
  /** GPIO: the levels on the port pins. */
  const Gpio: bv8 := 0x09
  /** OLAT: the output latches. */
  const Olat: bv8 := 0x0A
  /** Number of registers, IODIR (0x00) to OLAT (0x0A). */
  const RegisterCount := 11

  /** MAX_PIN_POS. */
  const MaxPinPos := 7

  /** The size of `_expTxData` and `_expRxData`. */
  const BufferLen := 16
  /** TransferBytes moves three bytes each way. */
  const FrameLen := 3

  /**
   * INPUT, the pin mode of the Arduino core for the ESP32, whose value is
   * 0x01. The doc comment of `SetPinDirection` in MCP23S08.cpp says
   * "0 - INPUT, 1 - OUTPUT", which disagrees with that core; the code
   * compares the mode with the core's INPUT, so the model follows the core.
   */
  const Input: Byte := 0x01

  // ---------------------------------------------------------------- bits

  /** `1 << p`, the mask of pin `p`. */
  function Mask(p: nat): bv8
    requires p <= MaxPinPos
  {
    if p == 0 then 0x01 else if p == 1 then 0x02 else if p == 2 then 0x04 else if p == 3 then 0x08
    else if p == 4 then 0x10 else if p == 5 then 0x20 else if p == 6 then 0x40 else 0x80
  }

  /** Bit `p` of `b`: `b & (1 << p)` is not zero. */
  predicate Bit(b: bv8, p: nat)
    requires p <= MaxPinPos
  {
    b & Mask(p) != 0
  }

  /**
   * `b | (1 << p)` when `on`, `b & ~(1 << p)` otherwise: bit `p` becomes
   * `on` (and, by SetBitOther, every other bit keeps its value).
   */
  function SetBit(b: bv8, p: nat, on: bool): (r: bv8)
    requires p <= MaxPinPos
    ensures Bit(r, p) == on
  {
    if on then b | Mask(p) else b & !Mask(p)
  }

  /** Setting bit `p` leaves every other bit as it was. */
  lemma SetBitOther(b: bv8, p: nat, on: bool, q: nat)
    requires p <= MaxPinPos && q <= MaxPinPos && p != q
    ensures Bit(SetBit(b, p, on), q) == Bit(b, q)
  {
  }

  /** Two bytes that agree on all eight bits are equal. */
  lemma SameBits(a: bv8, b: bv8)
    requires Bit(a, 0) == Bit(b, 0) && Bit(a, 1) == Bit(b, 1) && Bit(a, 2) == Bit(b, 2) && Bit(a, 3) == Bit(b, 3)
    requires Bit(a, 4) == Bit(b, 4) && Bit(a, 5) == Bit(b, 5) && Bit(a, 6) == Bit(b, 6) && Bit(a, 7) == Bit(b, 7)
    ensures a == b
  {
  }

  /** Setting a bit twice is setting it once; setting it to its own value changes nothing. */
  lemma SetBitIdempotent(b: bv8, p: nat, on: bool)
    requires p <= MaxPinPos
    ensures SetBit(SetBit(b, p, on), p, on) == SetBit(b, p, on)
    ensures SetBit(b, p, Bit(b, p)) == b
  {
  }

  // ---------------------------------------------------------------- the chip

  /** What the chip holds at `address`; addresses past OLAT read as zero. */
  function Peek(regs: seq<bv8>, address: bv8): bv8
  {
    if (address as int) < |regs| then regs[address as int] else 0
  }

  /** The bytes the chip shifts out during `frame`: the addressed register after a read command, zeros otherwise. */
  function Reply(frame: seq<bv8>, regs: seq<bv8>): (r: seq<bv8>)
    requires |frame| == FrameLen
    ensures |r| == FrameLen && r[0] == 0 && r[1] == 0
    ensures frame[0] == ReadCmd ==> r[2] == Peek(regs, frame[1])
  {
    if frame[0] == ReadCmd then [0, 0, Peek(regs, frame[1])] else [0, 0, 0]
  }

  /** The register file after `frame`: a write command stores the third byte at the address. */
  function Applied(frame: seq<bv8>, regs: seq<bv8>): (r: seq<bv8>)
    requires |frame| == FrameLen
    ensures |r| == |regs|
    ensures frame[0] == WriteCmd && (frame[1] as int) < |regs| ==> r == regs[frame[1] as int := frame[2]]
    ensures frame[0] != WriteCmd ==> r == regs
  {
    if frame[0] == WriteCmd && (frame[1] as int) < |regs| then regs[frame[1] as int := frame[2]] else regs
  }

  /** A register written and then read gives back what was written; a read changes no register. */
  lemma {:induction false} WriteThenRead(regs: seq<bv8>, address: bv8, data: bv8, stale: bv8)
    requires (address as int) < |regs|
    ensures Reply([ReadCmd, address, stale], Applied([WriteCmd, address, data], regs))[2] == data
    ensures Applied([ReadCmd, address, stale], regs) == regs
  {
    var w := Applied([WriteCmd, address, data], regs);
    assert w == regs[address as int := data];
    assert Peek(w, address) == data;
  }

  class Expander {
    /** `_expTxData`. */
    const txData: array<bv8>
    /** `_expRxData`. */
    const rxData: array<bv8>
    /** The chip's registers. */
    const regs: array<bv8>
    /** Every transfer's three sent bytes, oldest first. */
    var frames: seq<seq<bv8>>

    ghost predicate Valid()
      reads this
    {
      && txData.Length == BufferLen && rxData.Length == BufferLen && regs.Length == RegisterCount
      && txData != rxData && txData != regs && rxData != regs
    }

    /** The buffers as the globals start out, and a chip in the given state. */
    constructor(chip: seq<bv8>)
      requires |chip| == RegisterCount
      ensures Valid() && regs[..] == chip && frames == []
      ensures fresh(txData) && fresh(rxData) && fresh(regs)
    {
      txData := new bv8[BufferLen](_ => 0);
      rxData := new bv8[BufferLen](_ => 0);
      regs := new bv8[RegisterCount](i requires 0 <= i < RegisterCount => chip[i]);
      frames := [];
    }

    /** `TransferBytes`: the first three bytes of the transmit buffer go out, three bytes come back. */
    method TransferBytes()
      requires Valid()
      modifies this, rxData, regs
      ensures frames == old(frames) + [txData[..FrameLen]]
      ensures rxData[..FrameLen] == Reply(txData[..FrameLen], old(regs[..]))
      ensures rxData[FrameLen..] == old(rxData[FrameLen..])
      ensures regs[..] == Applied(txData[..FrameLen], old(regs[..]))
    {
      var frame := txData[..FrameLen];
      var reply := Reply(frame, regs[..]);
      var after := Applied(frame, regs[..]);
      frames := frames + [frame];
      rxData[0], rxData[1], rxData[2] := reply[0], reply[1], reply[2];
      forall i | 0 <= i < RegisterCount {
        regs[i] := after[i];
      }
      assert rxData[..FrameLen] == reply;
      assert txData[..FrameLen] == frame;
    }

    /** `ReadRegister`: the frame [READ_CMD, address, whatever was left in byte 2] gives the register's value. */
    method ReadRegister(address: bv8) returns (data: bv8)
      requires Valid()
      modifies this, txData, rxData, regs
      ensures data == Peek(old(regs[..]), address)
      ensures regs[..] == old(regs[..])
      ensures frames == old(frames) + [[ReadCmd, address, old(txData[2])]]
      ensures txData[..] == old(txData[..])[0 := ReadCmd][1 := address]
      ensures rxData[FrameLen..] == old(rxData[FrameLen..])
    {
      txData[0] := ReadCmd;
      txData[1] := address;
      assert txData[..FrameLen] == [ReadCmd, address, old(txData[2])];
      TransferBytes();
      data := rxData[2];
    }

    /** `WriteRegister`: the frame [WRITE_CMD, address, data] stores `data` in the register. */
    method WriteRegister(address: bv8, data: bv8)
      requires Valid()
      modifies this, txData, rxData, regs
      ensures regs[..] == Applied([WriteCmd, address, data], old(regs[..]))
      ensures frames == old(frames) + [[WriteCmd, address, data]]
      ensures txData[..] == old(txData[..])[0 := WriteCmd][1 := address][2 := data]
      ensures rxData[FrameLen..] == old(rxData[FrameLen..])
    {
      txData[0] := WriteCmd;
      txData[1] := address;
      txData[2] := data;
      assert txData[..FrameLen] == [WriteCmd, address, data];
      TransferBytes();
    }

    /**
     * `SetPinState`: pins past MAX_PIN_POS are ignored without a transfer;
     * otherwise OLAT is read and written back with bit `pinNumber` set to
     * `state`, and no other register changes.
     */
    method SetPinState(pinNumber: Byte, state: bool)
      requires Valid()
      modifies this, txData, rxData, regs
      ensures pinNumber > MaxPinPos ==>
                frames == old(frames) && regs[..] == old(regs[..]) && txData[..] == old(txData[..])
                && rxData[..] == old(rxData[..])
      ensures pinNumber <= MaxPinPos ==>
                var latch := SetBit(old(regs[Olat]), pinNumber, state);
                && regs[..] == old(regs[..])[Olat as int := latch]
                && frames == old(frames) + [[ReadCmd, Olat, old(txData[2])], [WriteCmd, Olat, latch]]
                && txData[..] == old(txData[..])[0 := WriteCmd][1 := Olat][2 := latch]
                && rxData[FrameLen..] == old(rxData[FrameLen..])
    {
      if pinNumber > MaxPinPos {
        return;
      }
      var registerData := ReadRegister(Olat);
      registerData := SetBit(registerData, pinNumber, state);
      WriteRegister(Olat, registerData);
    }

    /**
     * `GetPinState`: false for pins past MAX_PIN_POS, without a transfer;
     * otherwise bit `pinNumber` of GPIO, the level on the pin (not the
     * output latch).
     */
    method GetPinState(pinNumber: Byte) returns (r: bool)
      requires Valid()
      modifies this, txData, rxData, regs
      ensures regs[..] == old(regs[..])
      ensures pinNumber > MaxPinPos ==>
                !r && frames == old(frames) && txData[..] == old(txData[..]) && rxData[..] == old(rxData[..])
      ensures pinNumber <= MaxPinPos ==>
                && r == Bit(old(regs[Gpio]), pinNumber)
                && frames == old(frames) + [[ReadCmd, Gpio, old(txData[2])]]
                && txData[..] == old(txData[..])[0 := ReadCmd][1 := Gpio]
                && rxData[FrameLen..] == old(rxData[FrameLen..])
    {
      if pinNumber > MaxPinPos {
        return false;
      }
      var registerData := ReadRegister(Gpio);
      r := registerData & Mask(pinNumber) != 0;
    }

    /**
     * `SetPinDirection`: pins past MAX_PIN_POS are ignored without a
     * transfer; otherwise IODIR bit `pinNumber` is set for INPUT and
     * cleared for any other mode, and no other register changes.
     */
    method SetPinDirection(pinNumber: Byte, mode: Byte)
      requires Valid()
      modifies this, txData, rxData, regs
      ensures pinNumber > MaxPinPos ==>
                frames == old(frames) && regs[..] == old(regs[..]) && txData[..] == old(txData[..])
                && rxData[..] == old(rxData[..])
      ensures pinNumber <= MaxPinPos ==>
                var dir := SetBit(old(regs[Iodir]), pinNumber, mode == Input);
                && regs[..] == old(regs[..])[Iodir as int := dir]
                && frames == old(frames) + [[ReadCmd, Iodir, old(txData[2])], [WriteCmd, Iodir, dir]]
                && txData[..] == old(txData[..])[0 := WriteCmd][1 := Iodir][2 := dir]
                && rxData[FrameLen..] == old(rxData[FrameLen..])
    {
      if pinNumber > MaxPinPos {
        return;
      }
      var registerData := ReadRegister(Iodir);
      registerData := SetBit(registerData, pinNumber, Input == mode);
      WriteRegister(Iodir, registerData);
    }
  }
}
