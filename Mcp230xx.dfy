/** The register accessors of `MCP230XX` (lib/adafruit_mcp230xx/mcp230xx.py): 8- and
    16-bit register values travel little-endian through a 3-byte buffer that all
    devices share, preceded by the register number.

    The I2C device is not part of this model: the transfers asked of it are recorded in
    order in `transfers`, and the bytes it answers a read with are a parameter. */
module Mcp230xx {

  type Byte = x: int | 0 <= x < 256

  /** One I2C transaction: the bytes written (and whether a stop condition ends the
      write), or the number of bytes read. */
  datatype Transfer = Write(bytes: seq<Byte>, stop: bool) | Read(count: nat)

  /** Python's `n & 0xFF` on an unbounded integer (two's complement for negatives). */
  function LowByte(n: int): (b: Byte)
    ensures 0 <= n < 256 ==> b == n
    ensures (n - b) % 256 == 0
  {
    n % 256
  }

  /** The three bytes `_write_u16le` puts in the buffer: the register, then the value's
      low and high bytes. */
  function PackU16LE(register: int, val: int): (bytes: seq<Byte>)
    ensures |bytes| == 3 && bytes[0] == LowByte(register)
  {
    [LowByte(register), LowByte(val), LowByte(val / 256)]
  }

  /** The two bytes `_write_u8` puts in the buffer: the register, then the value. */
  function PackU8(register: int, val: int): (bytes: seq<Byte>)
    ensures |bytes| == 2 && bytes[0] == LowByte(register)
  {
    [LowByte(register), LowByte(val)]
  }

  function Pow2(k: nat): (p: nat)
    ensures p >= 1
  {
    if k == 0 then 1 else 2 * Pow2(k - 1)
  }

  /** Python's `a | b` on non-negative integers, bit by bit from the lowest. */
  function Or(a: nat, b: nat): nat
    decreases a + b
  {
    if a == 0 && b == 0 then 0
    else Or(a / 2, b / 2) * 2 + (if a % 2 == 1 || b % 2 == 1 then 1 else 0)
  }

  /** Python's `a << k` on a non-negative integer. */
  function ShiftLeft(a: nat, k: nat): nat {
    a * Pow2(k)
  }

  /** `(buf[1] << 8) | buf[0]`. The shifted high byte and the low byte share no bit, so
      the `|` adds them: the value is `hi * 256 + lo`, an unsigned 16-bit number. */
  function DecodeU16LE(lo: Byte, hi: Byte): (v: int)
    ensures v == hi * 256 + lo
    ensures 0 <= v < 65536
  {
    assert Pow2(8) == 256;
    OrDisjoint(hi, lo, 8);
    Or(ShiftLeft(hi, 8), lo)
  }

  lemma {:induction false} OrZero(a: nat)
    ensures Or(a, 0) == a
    decreases a
  {
    if a != 0 {
      OrZero(a / 2);
    }
  }

  /** Or-ing a number below 2^k into a multiple of 2^k adds it. */
  lemma {:induction false} OrDisjoint(a: nat, lo: nat, k: nat)
    requires lo < Pow2(k)
    ensures Or(a * Pow2(k), lo) == a * Pow2(k) + lo
    decreases k
  {
    if k == 0 {
      OrZero(a);
    } else {
      var half := a * Pow2(k - 1);
      assert a * Pow2(k) == half * 2;
      assert (half * 2) / 2 == half && (half * 2) % 2 == 0;
      OrDisjoint(a, lo / 2, k - 1);
      if half * 2 == 0 && lo == 0 {
      } else {
        assert Or(half * 2, lo) == Or(half, lo / 2) * 2 + (if lo % 2 == 1 then 1 else 0);
      }
    }
  }

  /** Euclidean division by a byte or a 16-bit word has one quotient and one remainder. */
  lemma DivModUnique(n: int, d: int, q: int, r: int)
    requires d == 256 || d == 65536
    requires n == q * d + r && 0 <= r < d
    ensures n / d == q && n % d == r
  {
    if d == 256 {
      assert n == q * 256 + r;
    } else {
      assert n == q * 65536 + r;
    }
  }

  /** Reading back the two data bytes `_write_u16le` sends gives the value modulo
      2^16: every value from 0 to 65535 makes the round trip unchanged. */
  lemma U16RoundTrip(register: int, val: int)
    ensures DecodeU16LE(PackU16LE(register, val)[1], PackU16LE(register, val)[2]) == val % 65536
    ensures 0 <= val < 65536 ==> DecodeU16LE(PackU16LE(register, val)[1], PackU16LE(register, val)[2]) == val
  {
    var q := val / 65536;
    var r := val % 65536;
    var high := q * 256 + r / 256;
    DivModUnique(r, 256, r / 256, r % 256);
    assert val == high * 256 + r % 256;
    DivModUnique(val, 256, high, r % 256);
    DivModUnique(high, 256, q, r / 256);
    if 0 <= val < 65536 {
      DivModUnique(val, 65536, 0, val);
    }
  }

  /** The byte `_write_u8` sends is the value modulo 256: every byte makes the round
      trip unchanged. */
  lemma U8RoundTrip(register: int, val: int)
    ensures PackU8(register, val)[1] == val % 256
    ensures 0 <= val < 256 ==> PackU8(register, val)[1] == val
  {
  }

  class Mcp230xx {
    /** The module-level `_BUFFER`, shared by every device built on it. */
    const buffer: array<Byte>
    /** The transactions asked of the I2C device, in order. */
    var transfers: seq<Transfer>

    constructor(buffer: array<Byte>)
      requires buffer.Length == 3
      ensures this.buffer == buffer && transfers == []
    {
      this.buffer := buffer;
      transfers := [];
    }

    /** `_read_u16le`: sends the register byte without a stop, reads two bytes (`reply`,
        the device's answer) into the buffer, and decodes them little-endian. */
    method ReadU16LE(register: int, reply: seq<Byte>) returns (value: int)
      requires buffer.Length == 3 && |reply| == 2
      modifies buffer, this`transfers
      ensures transfers == old(transfers) + [Write([LowByte(register)], false), Read(2)]
      ensures buffer[..] == reply + [old(buffer[2])]
      ensures value == DecodeU16LE(reply[0], reply[1])
      ensures value == reply[1] as int * 256 + reply[0] && 0 <= value < 65536
    {
      buffer[0] := LowByte(register);
      assert buffer[..1] == [buffer[0]];
      transfers := transfers + [Write(buffer[..1], false)];
      buffer[0] := reply[0];
      buffer[1] := reply[1];
      transfers := transfers + [Read(2)];
      value := DecodeU16LE(buffer[0], buffer[1]);
      assert buffer[..] == [buffer[0], buffer[1], buffer[2]];
    }

    /** `_write_u16le`: fills the whole buffer with the register and the value's two
        bytes, low byte first, and sends all three. */
    method WriteU16LE(register: int, val: int)
      requires buffer.Length == 3
      modifies buffer, this`transfers
      ensures buffer[..] == PackU16LE(register, val)
      ensures transfers == old(transfers) + [Write(PackU16LE(register, val), true)]
    {
      buffer[0] := LowByte(register);
      buffer[1] := LowByte(val);
      buffer[2] := LowByte(val / 256);
      assert buffer[..3] == buffer[..] == [buffer[0], buffer[1], buffer[2]];
      transfers := transfers + [Write(buffer[..3], true)];
    }

    /** `_read_u8`: sends the register byte without a stop and reads one byte
        (`reply`) into the buffer's first place. */
    method ReadU8(register: int, reply: Byte) returns (value: Byte)
      requires buffer.Length == 3
      modifies buffer, this`transfers
      ensures transfers == old(transfers) + [Write([LowByte(register)], false), Read(1)]
      ensures buffer[..] == [reply] + old(buffer[1..])
      ensures value == reply
    {
      buffer[0] := LowByte(register);
      assert buffer[..1] == [buffer[0]];
      transfers := transfers + [Write(buffer[..1], false)];
      buffer[0] := reply;
      transfers := transfers + [Read(1)];
      value := buffer[0];
      assert buffer[..] == [buffer[0]] + buffer[1..];
    }

    /** `_write_u8`: puts the register and the value's low byte in the first two
        places, leaves the third alone, and sends two bytes. */
    method WriteU8(register: int, val: int)
      requires buffer.Length == 3
      modifies buffer, this`transfers
      ensures buffer[..] == PackU8(register, val) + [old(buffer[2])]
      ensures transfers == old(transfers) + [Write(PackU8(register, val), true)]
    {
      buffer[0] := LowByte(register);
      buffer[1] := LowByte(val);
      assert buffer[..2] == [buffer[0], buffer[1]];
      assert buffer[..] == [buffer[0], buffer[1], buffer[2]];
      transfers := transfers + [Write(buffer[..2], true)];
    }
  }
}
