/** The ZigZag LEB128-64b9B code of the histogram payload: up to eight groups of seven bits,
    then one full byte. */
module ZigZag {
  import opened Bits
  import opened Common

  datatype Decoded = Decoded(value: int, length: nat) | Incomplete

  /** The sign moves to the lowest bit. */
  function Fold(i: Int64): (z: nat)
    ensures z < UINT64_LIMIT
  {
    if i >= 0 then 2 * i else -2 * i - 1
  }

  /** And back. */
  function Unfold(z: nat): int {
    if z % 2 == 0 then z / 2 else -(z / 2) - 1
  }

  const ONES := UINT64_LIMIT - 1

  /** Shifting right by 63 leaves copies of the sign. */
  function Signs(i: Int64): nat {
    if i >= 0 then 0 else ONES
  }

  /** Fold is (i << 1) ^ (i >> 63) on 64-bit words. */
  lemma FoldBits(i: Int64)
    ensures Fold(i) == BitXor(ShiftLeft(Unsigned(i), 1) % UINT64_LIMIT, Signs(i))
  {
    var doubled := ShiftLeft(Unsigned(i), 1) % UINT64_LIMIT;
    assert ShiftLeft(Unsigned(i), 1) == 2 * Unsigned(i);
    Pow2Facts();
    BitXorOnes(doubled, 64);
  }

  /** Unfold is (z >> 1) ^ -(z & 1) on 64-bit words. */
  lemma UnfoldBits(z: nat)
    requires z < UINT64_LIMIT
    ensures var word := BitXor(ShiftRight(z, 1), -(BitAnd(z, 1) as int) % UINT64_LIMIT);
      word < UINT64_LIMIT && Unfold(z) == Signed(word)
  {
    assert ShiftRight(z, 1) == z / 2 && BitAnd(z, 1) == z % 2;
    Pow2Facts();
    BitXorOnes(z / 2, 64);
  }

  /** The bytes of z when k groups have already been written. */
  function Groups(z: nat, k: nat): (b: seq<Byte>)
    ensures 1 <= |b|
    decreases 9 - k, z
  {
    if k >= 8 then [z % 256]
    else if z / 128 == 0 then [z]
    else [z % 128 + 128] + Groups(z / 128, k + 1)
  }

  /** Reads groups from b, of which k come before it. The ninth byte is looked for one place
      too far. */
  function Ungroup(b: seq<Byte>, k: nat): (r: Decoded)
    ensures r.Decoded? ==> r.value >= 0 && 1 <= r.length <= |b|
    decreases 9 - k, b
  {
    if k >= 8 then
      if |b| < 2 then Incomplete else Decoded(b[1], 1)
    else if b == [] then Incomplete
    else if b[0] < 128 then Decoded(b[0], 1)
    else
      match Ungroup(b[1..], k + 1)
      case Incomplete => Incomplete
      case Decoded(z, n) => Decoded(b[0] - 128 + 128 * z, n + 1)
  }

  function Encoded(i: Int64): seq<Byte> {
    Groups(Fold(i), 0)
  }

  function DecodedFrom(b: seq<Byte>): (r: Decoded)
    ensures r.Decoded? ==> 1 <= r.length <= |b|
  {
    match Ungroup(b, 0)
    case Incomplete => Incomplete
    case Decoded(z, n) => Decoded(Unfold(z), n)
  }

  /** What is left of z after the groups from k to 8. */
  function Top(z: nat, k: nat): nat
    decreases 8 - k, z
  {
    if k >= 8 then z else Top(z / 128, k + 1)
  }

  /** z with its top replaced by t. */
  function WithTop(z: nat, k: nat, t: nat): nat
    decreases 8 - k, z
  {
    if k >= 8 then t else z % 128 + 128 * WithTop(z / 128, k + 1, t)
  }

  lemma {:induction false} TopOfZero(k: nat)
    ensures Top(0, k) == 0
    decreases 8 - k
  {
    if k < 8 { TopOfZero(k + 1); }
  }

  /** What is read back in general: the groups are right, and the top, if there is one, is
      taken from the byte after the code. */
  lemma {:induction false} UngroupShape(z: nat, k: nat, rest: seq<Byte>)
    requires k <= 8 && Top(z, k) < 256
    ensures Ungroup(Groups(z, k) + rest, k) ==
      if Top(z, k) == 0 && k < 8 then Decoded(z, |Groups(z, k)|)
      else if rest == [] then Incomplete
      else Decoded(WithTop(z, k, rest[0]), |Groups(z, k)|)
    decreases 8 - k
  {
    var b := Groups(z, k);
    if k == 8 {
      assert (b + rest)[1..] == rest;
      if rest != [] { assert (b + rest)[1] == rest[0]; }
    } else if z / 128 == 0 {
      TopOfZero(k + 1);
    } else {
      assert (b + rest)[1..] == Groups(z / 128, k + 1) + rest;
      UngroupShape(z / 128, k + 1, rest);
    }
  }

  const SMALL := 0x100_0000_0000_0000

  lemma TwoGroups(z: nat, k: nat, t: nat)
    requires k <= 6
    ensures Top(z, k) == Top(z / 0x4000, k + 2)
    ensures WithTop(z, k, t) == z % 0x4000 + 0x4000 * WithTop(z / 0x4000, k + 2, t)
  {
    assert (z / 128) / 128 == z / 0x4000;
    assert Top(z, k) == Top(z / 128, k + 1) == Top((z / 128) / 128, k + 2);
    assert WithTop(z, k, t) == z % 128 + 128 * WithTop(z / 128, k + 1, t);
    assert WithTop(z / 128, k + 1, t) == (z / 128) % 128 + 128 * WithTop((z / 128) / 128, k + 2, t);
  }

  lemma TopIs(z: nat, t: nat)
    ensures Top(z, 0) == z / SMALL
    ensures WithTop(z, 0, t) == z % SMALL + SMALL * t
  {
    var z1 := z / 0x4000;
    var z2 := z1 / 0x4000;
    var z3 := z2 / 0x4000;
    TwoGroups(z, 0, t);
    TwoGroups(z1, 2, t);
    TwoGroups(z2, 4, t);
    TwoGroups(z3, 6, t);
  }

  lemma UnfoldFold(i: Int64)
    ensures Unfold(Fold(i)) == i
  {
  }

  lemma UnfoldInjective(a: nat, b: nat)
    ensures Unfold(a) == Unfold(b) ==> a == b
  {
  }

  /** A code followed by anything decodes to its value and its own length exactly when the
      value needs at most eight bytes, or when the byte after the code happens to repeat the
      ninth one. */
  lemma ZigZagRoundTrip(i: Int64, rest: seq<Byte>)
    ensures DecodedFrom(Encoded(i) + rest) == Decoded(i, |Encoded(i)|) <==>
            Fold(i) < SMALL || (rest != [] && rest[0] == Fold(i) / SMALL)
  {
    var z := Fold(i);
    TopIs(z, if rest == [] then 0 else rest[0]);
    UngroupShape(z, 0, rest);
    UnfoldFold(i);
    if z >= SMALL && rest != [] {
      UnfoldInjective(z, z % SMALL + SMALL * rest[0]);
    }
  }

  lemma TwoLess(z: nat, k: nat)
    ensures ShiftRight(z, k + 2) == ShiftRight(z / 2 / 2, k)
  {
    assert ShiftRight(z, k + 2) == ShiftRight(z / 2, k + 1);
  }

  lemma SevenLess(z: nat, k: nat)
    ensures ShiftRight(z, k + 7) == ShiftRight(z / 128, k)
  {
    var z2 := z / 2 / 2;
    var z4 := z2 / 2 / 2;
    var z6 := z4 / 2 / 2;
    TwoLess(z, k + 5);
    TwoLess(z2, k + 3);
    TwoLess(z4, k + 1);
    assert ShiftRight(z6, k + 1) == ShiftRight(z6 / 2, k);
  }

  /** The bytes of a code: seven bits each from the lowest on, with a bit on top that says whether
      another byte follows, and eight bits in the ninth. It ends as soon as nothing is left. */
  lemma {:induction false} CodeByte(z: nat, k: nat, i: nat)
    requires k <= 8 && i < |Groups(z, k)|
    ensures i + k <= 8
    ensures i + 1 == |Groups(z, k)| <==> i + k == 8 || ShiftRight(z, 7 * (i + 1)) == 0
    ensures var part := ShiftRight(z, 7 * i);
      Groups(z, k)[i] ==
        if i + k == 8 then part % 256 else if i + 1 == |Groups(z, k)| then part else part % 128 + 128
    decreases i
  {
    assert ShiftRight(z, 0) == z;
    SevenLess(z, 7 * i);
    if k < 8 && z / 128 != 0 {
      if i == 0 {
      } else {
        CodeByte(z / 128, k + 1, i - 1);
        SevenLess(z, 7 * (i - 1));
      }
    } else if k < 8 {
      ShiftRightZero(7 * i);
    }
  }

  /** 2^55 is the least count that cannot be read back. */
  lemma LargeCountFails()
    ensures DecodedFrom(Encoded(0x80_0000_0000_0000)) == Incomplete
  {
    var z := Fold(0x80_0000_0000_0000);
    TopIs(z, 0);
    UngroupShape(z, 0, []);
    assert Groups(z, 0) + [] == Groups(z, 0);
  }

  // ---------------------------------------------------------------- as coded

  /** byte(value | 0x80). */
  function Continued(value: nat): Byte {
    value % 128 + 128
  }

  lemma ContinuedBits(value: nat)
    ensures Continued(value) == BitAnd(BitOr(value, 0x80), 0xFF)
  {
    SmallPowers();
    hide Pow2, BitOr, BitAnd;
    BitOrTop(value, 7);
    MaskIsRemainder(value);
  }

  /** The bytes b written so far and the groups of the rest are the whole code of z. */
  ghost predicate Writing(z: nat, b: seq<Byte>, rest: nat, k: nat) {
    Groups(z, 0) == b + Groups(rest, k)
  }

  lemma GroupStep(z: nat, b: seq<Byte>, rest: nat, k: nat)
    requires k <= 8 && Writing(z, b, rest, k)
    ensures k < 8 && rest / 128 == 0 ==> Groups(z, 0) == b + [rest]
    ensures k < 8 && rest / 128 != 0 ==> Writing(z, b + [Continued(rest)], rest / 128, k + 1)
    ensures k == 8 && rest < 256 ==> Groups(z, 0) == b + [rest]
  {
    if k < 8 && rest / 128 != 0 {
      assert b + Groups(rest, k) == b + [Continued(rest)] + Groups(rest / 128, k + 1);
    }
  }

  lemma WritingStarts(z: nat)
    ensures Writing(z, [], z, 0)
  {
    assert [] + Groups(z, 0) == Groups(z, 0);
  }

  /** value is shifted by seven bits from one group to the next. */
  method EncodeZigZag(i: Int64) returns (b: seq<Byte>)
    ensures b == Encoded(i)
  {
    hide Groups, BitXor, ShiftLeft;
    b := [];
    FoldBits(i);
    var value := BitXor(ShiftLeft(Unsigned(i), 1) % UINT64_LIMIT, Signs(i));
    ghost var z := value;
    WritingStarts(z);
    GroupStep(z, b, value, 0);
    if value / 128 == 0 {
      b := b + [value];
    } else {
      b := b + [Continued(value)];
      value := value / 128;
      GroupStep(z, b, value, 1);
      if value / 128 == 0 {
        b := b + [value];
      } else {
        b := b + [Continued(value)];
        value := value / 128;
        GroupStep(z, b, value, 2);
        if value / 128 == 0 {
          b := b + [value];
        } else {
          b := b + [Continued(value)];
          value := value / 128;
          GroupStep(z, b, value, 3);
          if value / 128 == 0 {
            b := b + [value];
          } else {
            b := b + [Continued(value)];
            value := value / 128;
            GroupStep(z, b, value, 4);
            if value / 128 == 0 {
              b := b + [value];
            } else {
              b := b + [Continued(value)];
              value := value / 128;
              GroupStep(z, b, value, 5);
              if value / 128 == 0 {
                b := b + [value];
              } else {
                b := b + [Continued(value)];
                value := value / 128;
                GroupStep(z, b, value, 6);
                if value / 128 == 0 {
                  b := b + [value];
                } else {
                  b := b + [Continued(value)];
                  value := value / 128;
                  GroupStep(z, b, value, 7);
                  if value / 128 == 0 {
                    b := b + [value];
                  } else {
                    b := b + [Continued(value)];
                    value := value / 128;
                    GroupStep(z, b, value, 8);
                    b := b + [value];
                  }
                }
              }
            }
          }
        }
      }
    }
  }

  /** Reading on at byte k, with the groups before it summed up in value; w is 128^k. */
  function UngroupAt(b: seq<Byte>, k: nat, w: nat, value: nat): Decoded
    decreases 9 - k, b
  {
    if k >= 8 then
      if |b| <= k + 1 then Incomplete else Decoded(value + w * b[k + 1], k + 1)
    else if |b| <= k then Incomplete
    else if b[k] < 128 then Decoded(value + w * b[k], k + 1)
    else UngroupAt(b, k + 1, 128 * w, value + w * (b[k] - 128))
  }

  lemma Distribute(w: nat, x: nat, z: nat)
    ensures w * (x + 128 * z) == w * x + (128 * w) * z
  {
  }

  lemma {:induction false} UngroupAtIs(b: seq<Byte>, k: nat, w: nat, value: nat)
    requires k <= 8 && k <= |b|
    ensures UngroupAt(b, k, w, value) ==
      match Ungroup(b[k..], k)
      case Incomplete => Incomplete
      case Decoded(z, n) => Decoded(value + w * z, n + k)
    decreases 9 - k
  {
    if k < 8 && k < |b| && b[k] >= 128 {
      assert b[k..][1..] == b[k + 1..];
      UngroupAtIs(b, k + 1, 128 * w, value + w * (b[k] - 128));
      match Ungroup(b[k + 1..], k + 1)
      case Incomplete =>
      case Decoded(z, n) => Distribute(w, b[k] - 128, z);
    } else if k == 8 && |b| > 9 {
      assert b[8..][1] == b[9];
    }
  }

  /** v & 0x7F. */
  function LowBits(v: Byte): nat {
    if v >= 128 then v - 128 else v
  }

  lemma LowBitsAnd(v: Byte)
    ensures LowBits(v) == BitAnd(v, 0x7F)
  {
    hide BitAnd;
    MaskIsRemainder(v);
  }

  lemma ProductBelow(x: nat, y: nat, w: nat)
    requires x <= y
    ensures w * x <= w * y
  {
  }

  /** value |= (v & 0x7F) << 7k, when the groups before fill the places below, is adding 128^k
      times the group. */
  lemma JoinBits(value: nat, v: Byte, k: nat, w: nat)
    requires w == Pow2(7 * k) && value < w
    ensures BitOr(value, ShiftLeft(BitAnd(v, 0x7F), 7 * k)) == value + w * LowBits(v) < 128 * w
    ensures BitOr(value, ShiftLeft(v, 7 * k)) == value + w * v
    ensures 128 * w == Pow2(7 * (k + 1))
  {
    hide BitAnd, BitOr, ShiftLeft;
    LowBitsAnd(v);
    BitOrDisjoint(value, LowBits(v), 7 * k);
    ShiftLeftIsProduct(LowBits(v), 7 * k);
    BitOrDisjoint(value, v, 7 * k);
    ShiftLeftIsProduct(v, 7 * k);
    ProductBelow(LowBits(v), 127, w);
    SmallPowers();
    ShiftLeftPow2(7, 7 * k);
    ShiftLeftIsProduct(0x80, 7 * k);
    assert 7 + 7 * k == 7 * (k + 1);
  }

  /** How large a value groups from k on can make. */
  function Room(k: nat): nat
    decreases 8 - k
  {
    if k >= 8 then 256 else 128 * Room(k + 1)
  }

  lemma {:induction false} RoomGrows(k: nat)
    ensures Room(k) >= 256
    decreases 8 - k
  {
    if k < 8 { RoomGrows(k + 1); }
  }

  lemma {:induction false} UngroupBound(b: seq<Byte>, k: nat)
    requires k <= 8
    ensures Ungroup(b, k).Decoded? ==> Ungroup(b, k).value < Room(k)
    decreases 8 - k
  {
    if k == 8 {
    } else {
      if b != [] { UngroupBound(b[1..], k + 1); }
      RoomGrows(k + 1);
    }
  }

  lemma RoomForAll()
    ensures Room(0) == UINT64_LIMIT
  {
    assert Room(4) == 128 * 128 * 128 * 128 * 256 by { assert Room(6) == 128 * 128 * 256; }
    assert Room(0) == 128 * 128 * 128 * 128 * Room(4) by { assert Room(2) == 128 * 128 * Room(4); }
  }

  /** With k groups read into value, what is read on from byte k is the whole result. */
  ghost predicate Reading(b: seq<Byte>, k: nat, w: nat, value: nat) {
    UngroupAt(b, 0, 1, 0) == UngroupAt(b, k, w, value)
  }

  /** One byte more: the result, or another group in its place. */
  lemma ReadStep(b: seq<Byte>, k: nat, w: nat, value: nat)
    requires 1 <= k < 8 && Reading(b, k, w, value) && w == Pow2(7 * k) && value < w
    ensures k >= |b| ==> UngroupAt(b, 0, 1, 0) == Incomplete
    ensures k < |b| ==> var joined := BitOr(value, ShiftLeft(BitAnd(b[k], 0x7F), 7 * k));
      && joined < 128 * w == Pow2(7 * (k + 1))
      && if b[k] < 128 then UngroupAt(b, 0, 1, 0) == Decoded(joined, k + 1) else Reading(b, k + 1, 128 * w, joined)
  {
    hide BitOr, BitAnd, ShiftLeft, Pow2;
    if k < |b| { JoinBits(value, b[k], k, w); }
  }

  lemma ReadLast(b: seq<Byte>, w: nat, value: nat)
    requires Reading(b, 8, w, value) && w == Pow2(56) && value < w
    ensures UngroupAt(b, 0, 1, 0) ==
      if |b| <= 9 then Incomplete else Decoded(BitOr(value, ShiftLeft(b[9], 56)), 9)
  {
    hide BitOr, BitAnd, ShiftLeft, Pow2;
    if |b| > 9 { JoinBits(value, b[9], 8, w); }
  }

  lemma ReadFirst(b: seq<Byte>)
    ensures b == [] ==> UngroupAt(b, 0, 1, 0) == Incomplete
    ensures b != [] ==> var value := BitAnd(b[0], 0x7F);
      && value < 0x80 == Pow2(7 * 1)
      && if b[0] < 128 then UngroupAt(b, 0, 1, 0) == Decoded(value, 1) else Reading(b, 1, 0x80, value)
  {
    SmallPowers();
    if b != [] {
      LowBitsAnd(b[0]);
      hide BitAnd;
    }
  }

  method ReadGroups(b: seq<Byte>) returns (r: Decoded)
    ensures r == UngroupAt(b, 0, 1, 0)
    ensures r.Decoded? ==> r.value >= 0
  {
    hide UngroupAt, Reading, BitOr, BitAnd, ShiftLeft, Pow2;
    ReadFirst(b);
    if |b| <= 0 { return Incomplete; }
    var v, vlen: nat := b[0], 1;
    var value: nat := BitAnd(v, 0x7F);
    if v >= 128 {
      ReadStep(b, 1, 0x80, value);
      if |b| <= 1 { return Incomplete; }
      v, vlen := b[1], vlen + 1;
      value := BitOr(value, ShiftLeft(BitAnd(v, 0x7F), 7));
      if v >= 128 {
        ReadStep(b, 2, 0x4000, value);
        if |b| <= 2 { return Incomplete; }
        v, vlen := b[2], vlen + 1;
        value := BitOr(value, ShiftLeft(BitAnd(v, 0x7F), 14));
        if v >= 128 {
          ReadStep(b, 3, 0x200000, value);
          if |b| <= 3 { return Incomplete; }
          v, vlen := b[3], vlen + 1;
          value := BitOr(value, ShiftLeft(BitAnd(v, 0x7F), 21));
          if v >= 128 {
            ReadStep(b, 4, 0x10000000, value);
            if |b| <= 4 { return Incomplete; }
            v, vlen := b[4], vlen + 1;
            value := BitOr(value, ShiftLeft(BitAnd(v, 0x7F), 28));
            if v >= 128 {
              ReadStep(b, 5, 0x800000000, value);
              if |b| <= 5 { return Incomplete; }
              v, vlen := b[5], vlen + 1;
              value := BitOr(value, ShiftLeft(BitAnd(v, 0x7F), 35));
              if v >= 128 {
                ReadStep(b, 6, 0x40000000000, value);
                if |b| <= 6 { return Incomplete; }
                v, vlen := b[6], vlen + 1;
                value := BitOr(value, ShiftLeft(BitAnd(v, 0x7F), 42));
                if v >= 128 {
                  ReadStep(b, 7, 0x2000000000000, value);
                  if |b| <= 7 { return Incomplete; }
                  v, vlen := b[7], vlen + 1;
                  value := BitOr(value, ShiftLeft(BitAnd(v, 0x7F), 49));
                  if v >= 128 {
                    ReadLast(b, 0x100000000000000, value);
                    if |b| <= 9 { return Incomplete; }
                    v, vlen := b[9], vlen + 1; // one past the ninth byte
                    value := BitOr(value, ShiftLeft(v, 56));
                  }
                }
              }
            }
          }
        }
      }
    }
    return Decoded(value, vlen);
  }

  method DecodeZigZag(b: seq<Byte>) returns (r: Decoded)
    ensures r == DecodedFrom(b)
  {
    r := ReadGroups(b);
    UngroupAtIs(b, 0, 1, 0);
    assert b[0..] == b;
    if r.Decoded? {
      var z := r.value;
      UngroupBound(b, 0);
      RoomForAll();
      UnfoldBits(z);
      hide BitXor, BitAnd, ShiftRight, Ungroup, Unfold;
      r := Decoded(Signed(BitXor(ShiftRight(z, 1), -(BitAnd(z, 1) as int) % UINT64_LIMIT)), r.length);
    }
  }
}
