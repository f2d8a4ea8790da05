/** Machine words, little-endian byte strings and saturating counters. */

module Wrappers {
  datatype Option<+T> = None | Some(value: T) {
    predicate IsFailure() {
      None?
    }

    function PropagateFailure<U>(): Option<U>
      requires None?
    {
      None
    }

    function Extract(): T
      requires Some?
    {
      value
    }
  }
}

module Words {
  type Byte = b: int | 0 <= b < 0x100
  type Bytes = seq<Byte>
  type Word16 = w: int | 0 <= w < 0x1_0000
  type Word32 = w: int | 0 <= w < 0x1_0000_0000
  type Word64 = w: int | 0 <= w < 0x1_0000_0000_0000_0000

  const TWO31: int := 0x8000_0000
  const TWO32: int := 0x1_0000_0000
  const TWO64: int := 0x1_0000_0000_0000_0000
  const MAX64: Word64 := 0xFFFF_FFFF_FFFF_FFFF

  /** 256 to the power n: a shift left by n bytes is a multiplication by it, a shift right a division. */
  function Pow256(n: nat): (p: nat)
    ensures p > 0
  {
    if n == 0 then 1 else 256 * Pow256(n - 1)
  }

  /** The `width` low bytes of `value`, least significant first. */
  function Le(value: nat, width: nat): (bytes: seq<Byte>)
    ensures |bytes| == width
  {
    if width == 0 then [] else [value % 256] + Le(value / 256, width - 1)
  }

  /** The number a little-endian byte string denotes. */
  function LeValue(bytes: seq<Byte>): nat {
    if bytes == [] then 0 else bytes[0] + 256 * LeValue(bytes[1..])
  }

  lemma {:induction false} LeValueBound(bytes: seq<Byte>)
    ensures LeValue(bytes) < Pow256(|bytes|)
  {
    if bytes == [] {
    } else {
      LeValueBound(bytes[1..]);
    }
  }

  /** Reading back what was written gives the value, if it fits. */
  lemma {:induction false} LeRoundTrip(value: nat, width: nat)
    requires value < Pow256(width)
    ensures LeValue(Le(value, width)) == value
  {
    if width == 0 {
    } else {
      LeRoundTrip(value / 256, width - 1);
      assert Le(value, width)[1..] == Le(value / 256, width - 1);
    }
  }

  /** Every byte string is the encoding of the number it denotes. */
  lemma {:induction false} LeCanonical(bytes: seq<Byte>)
    ensures Le(LeValue(bytes), |bytes|) == bytes
  {
    if bytes == [] {
    } else {
      LeCanonical(bytes[1..]);
      assert bytes == [bytes[0]] + bytes[1..];
    }
  }

  lemma DivDiv(value: nat, a: nat, b: nat)
    requires a > 0 && b > 0
    ensures a * b > 0 && (value / a) / b == value / (a * b)
  {
    var q, r := value / (a * b), value % (a * b);
    assert value == q * (a * b) + r;
    var s, t := r / a, r % a;
    assert r == s * a + t;
    assert value == (q * b + s) * a + t by {
      assert q * (a * b) == (q * b) * a;
      assert (q * b + s) * a == (q * b) * a + s * a;
    }
    UniqueQuotient(value, a, q * b + s, t);
    if s >= b {
      MulMonotone(b, s, a);
      assert false;
    }
    UniqueQuotient(q * b + s, b, q, s);
  }

  lemma MulMonotone(x: int, y: int, d: nat)
    requires x <= y
    ensures x * d <= y * d
  {
    assert y * d - x * d == (y - x) * d;
  }

  lemma UniqueQuotient(value: int, d: nat, q: int, r: int)
    requires d > 0 && value == q * d + r && 0 <= r < d
    ensures value / d == q && value % d == r
  {
    var p := value / d;
    assert value == p * d + value % d;
    if q < p {
      MulMonotone(q + 1, p, d);
    } else if p < q {
      MulMonotone(p + 1, q, d);
    }
  }

  /** Byte `i` of the little-endian form is what a shift by `i` bytes leaves in the low byte. */
  lemma {:induction false} LeAt(value: nat, width: nat, i: nat)
    requires i < width
    ensures Le(value, width)[i] == value / Pow256(i) % 256
  {
    if i == 0 {
    } else {
      LeAt(value / 256, width - 1, i - 1);
      DivDiv(value, 256, Pow256(i - 1));
    }
  }

  /** Adding one more significant byte. */
  lemma {:induction false} LeValueAppend(bytes: seq<Byte>, b: Byte)
    ensures LeValue(bytes + [b]) == LeValue(bytes) + b * Pow256(|bytes|)
  {
    if bytes == [] {
      assert bytes + [b] == [b];
      assert [b][1..] == [];
      assert LeValue([b]) == b + 256 * LeValue([b][1..]);
    } else {
      assert (bytes + [b])[1..] == bytes[1..] + [b];
      LeValueAppend(bytes[1..], b);
      var p := Pow256(|bytes| - 1);
      assert 256 * (b * p) == b * (256 * p);
    }
  }

  /** Two's complement: the 32-bit word of a signed value and back. */
  function Unsigned32(value: int): Word32 {
    value % TWO32
  }

  function Signed32(word: Word32): int {
    if word < TWO31 then word else word - TWO32
  }

  /** Subtraction of 32-bit words wraps around. */
  function Minus32(left: Word32, right: Word32): Word32 {
    (left - right) % TWO32
  }

  function SaturatingIncrement(counter: Word64): (next: Word64)
    ensures counter <= next
  {
    if counter == MAX64 then counter else counter + 1
  }
}
