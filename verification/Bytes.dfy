/** Fixed-width integers of the machine: 8-bit cells and 16-bit addresses. */
module Bytes {
  type Byte = b: int | 0 <= b < 256
  type Word = w: int | 0 <= w < 65536

  datatype Option<+T> = None | Some(value: T)

  /** Concatenation is associative, as a step for proofs that must not unfold the parts. */
  lemma Associate<T>(a: seq<T>, b: seq<T>, c: seq<T>)
    ensures a + b + c == a + (b + c)
  {
  }

  /** Truncation to a cell, as a cast to `uint8_t` does (also for negative numbers). */
  function Wrap(n: int): Byte { n % 256 }

  /** Truncation to an address, as a cast to `uint16_t` does. */
  function Wrap16(n: int): Word { n % 65536 }

  function High(w: int): Byte { Wrap(w / 256) }

  function Low(w: int): Byte { Wrap(w) }

  /** The number that `bytes` spell in big-endian order. */
  function BigEndian(bytes: seq<Byte>): nat {
    if bytes == [] then 0 else BigEndian(bytes[..|bytes| - 1]) * 256 + bytes[|bytes| - 1]
  }

  /** `(high << 8) | low` */
  function Join(high: Byte, low: Byte): Word {
    JoinedBytes(high, low);
    BigEndian([high, low])
  }

  lemma JoinedBytes(high: Byte, low: Byte)
    ensures BigEndian([high, low]) == high * 256 + low
  {
    assert [high, low][..1] == [high] && [high][..0] == [];
    assert BigEndian([high]) == high;
  }

  lemma JoinIs(high: Byte, low: Byte)
    ensures Join(high, low) == high * 256 + low
  {
    JoinedBytes(high, low);
  }

  /** Splitting an address into two bytes and joining them again keeps it modulo 2^16. */
  lemma JoinSplit(w: int)
    ensures Join(High(w), Low(w)) == Wrap16(w)
  {
    hide BigEndian, Join;
    JoinIs(High(w), Low(w));
    SplitWord(w);
  }

  lemma SplitWord(w: int)
    ensures (w / 256 % 256) * 256 + w % 256 == w % 65536
  {
    var q := w / 256;
    assert w == 256 * q + w % 256;
    var k := q / 256;
    assert q == 256 * k + q % 256;
    assert w == 65536 * k + (256 * (q % 256) + w % 256);
  }

  lemma WrapShift(x: int, k: int)
    ensures Wrap(x + 256 * k) == Wrap(x)
  {
  }

  lemma WrapAdd(x: int, y: int)
    ensures Wrap(Wrap(x) + y) == Wrap(x + y)
    ensures Wrap(Wrap(x) - y) == Wrap(x - y)
    ensures Wrap(x + Wrap(y)) == Wrap(x + y)
    ensures Wrap(x - Wrap(y)) == Wrap(x - y)
  {
    WrapShift(Wrap(x) + y, x / 256);
    WrapShift(Wrap(x) - y, x / 256);
    WrapShift(x + Wrap(y), y / 256);
    WrapShift(x - Wrap(y), -(y / 256));
  }

  lemma WrapMul(x: int, y: int)
    ensures Wrap(Wrap(x) * y) == Wrap(x * y)
    ensures Wrap(x * Wrap(y)) == Wrap(x * y)
  {
    assert x == 256 * (x / 256) + Wrap(x);
    assert x * y == 256 * (x / 256 * y) + Wrap(x) * y;
    WrapShift(Wrap(x) * y, x / 256 * y);
    assert y == 256 * (y / 256) + Wrap(y);
    assert x * y == 256 * (y / 256 * x) + x * Wrap(y);
    WrapShift(x * Wrap(y), y / 256 * x);
  }
}
