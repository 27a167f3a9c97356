/** The BSON buffer of the agent: documents are written front to back, and the length of
    each nested document is patched in when it is closed. */
module Bson {
  import opened Common

  const INT32_LIMIT := 0x8000_0000

  const UINT32_LIMIT := 0x1_0000_0000

  type Int32 = v: int | -INT32_LIMIT <= v < INT32_LIMIT

  type Bits64 = v: int | 0 <= v < UINT64_LIMIT

  datatype Element = Element(key: seq<Byte>, value: Value)

  datatype Value =
    | Double(bits: Bits64)
    | String(text: seq<Byte>)
    | Document(fields: seq<Element>)
    | Array(items: seq<Element>)
    | Binary(data: seq<Byte>)
    | Boolean(flag: bool)
    | Number32(n: Int32)
    | Number64(m: Int64)

  /** The k low bytes of x, least significant first. */
  function LittleEndian(x: nat, k: nat): (b: seq<Byte>)
    ensures |b| == k
    decreases k, x
  {
    if k == 0 then [] else [x % 256] + LittleEndian(x / 256, k - 1)
  }

  function FromLittleEndian(b: seq<Byte>): (x: nat) {
    if b == [] then 0 else b[0] + 256 * FromLittleEndian(b[1..])
  }

  function Power256(k: nat): nat {
    if k == 0 then 1 else 256 * Power256(k - 1)
  }

  lemma {:induction false} LittleEndianRoundTrip(x: nat, k: nat)
    requires x < Power256(k)
    ensures FromLittleEndian(LittleEndian(x, k)) == x
  {
    if k == 0 {
    } else {
      LittleEndianRoundTrip(x / 256, k - 1);
    }
  }

  lemma PowerFacts()
    ensures Power256(4) == UINT32_LIMIT && Power256(8) == UINT64_LIMIT
  {
    assert Power256(6) == 0x1_0000 * Power256(4);
  }

  /** A signed number as the unsigned one with the same low 32 or 64 bits. */
  function Unsigned32(v: int): nat { v % UINT32_LIMIT }

  function Unsigned64(v: int): nat { v % UINT64_LIMIT }

  function Signed(u: nat, limit: nat): int {
    if u < limit then u else u - 2 * limit
  }

  function Int32Bytes(v: int): (b: seq<Byte>)
    ensures |b| == 4
  {
    LittleEndian(Unsigned32(v), 4)
  }

  function Int64Bytes(v: int): (b: seq<Byte>)
    ensures |b| == 8
  {
    LittleEndian(Unsigned64(v), 8)
  }

  function ReadInt32(b: seq<Byte>): int
    requires |b| >= 4
  {
    Signed(FromLittleEndian(b[..4]), INT32_LIMIT)
  }

  function ReadInt64(b: seq<Byte>): int
    requires |b| >= 8
  {
    Signed(FromLittleEndian(b[..8]), INT64_LIMIT)
  }

  lemma Int32RoundTrip(v: Int32, rest: seq<Byte>)
    ensures ReadInt32(Int32Bytes(v) + rest) == v
  {
    PowerFacts();
    LittleEndianRoundTrip(Unsigned32(v), 4);
    assert (Int32Bytes(v) + rest)[..4] == Int32Bytes(v);
  }

  lemma Int64RoundTrip(v: Int64, rest: seq<Byte>)
    ensures ReadInt64(Int64Bytes(v) + rest) == v
  {
    PowerFacts();
    LittleEndianRoundTrip(Unsigned64(v), 8);
    assert (Int64Bytes(v) + rest)[..8] == Int64Bytes(v);
  }

  lemma DoubleRoundTrip(bits: Bits64, rest: seq<Byte>)
    ensures FromLittleEndian((Int64Bytes(bits) + rest)[..8]) == bits
  {
    PowerFacts();
    assert Unsigned64(bits) == bits;
    LittleEndianRoundTrip(bits, 8);
    assert (Int64Bytes(bits) + rest)[..8] == Int64Bytes(bits);
  }

  // ---------------------------------------------------------------- the grammar, written

  function Tag(v: Value): Byte {
    match v
    case Double(_) => 0x01
    case String(_) => 0x02
    case Document(_) => 0x03
    case Array(_) => 0x04
    case Binary(_) => 0x05
    case Boolean(_) => 0x08
    case Number32(_) => 0x10
    case Number64(_) => 0x12
  }

  function ElementBytes(e: Element): seq<Byte> {
    [Tag(e.value)] + e.key + [0] + ValueBytes(e.value)
  }

  function ListBytes(es: seq<Element>): seq<Byte> {
    if es == [] then [] else ElementBytes(es[0]) + ListBytes(es[1..])
  }

  function Enclosed(body: seq<Byte>): seq<Byte> {
    Int32Bytes(|body| + 5) + body + [0]
  }

  function ValueBytes(v: Value): seq<Byte> {
    match v
    case Double(bits) => Int64Bytes(bits)
    case String(text) => Int32Bytes(|text| + 1) + text + [0]
    case Document(es) => Enclosed(ListBytes(es))
    case Array(es) => Enclosed(ListBytes(es))
    case Binary(data) => Int32Bytes(|data|) + [0] + data
    case Boolean(flag) => [if flag then 1 else 0]
    case Number32(n) => Int32Bytes(n)
    case Number64(m) => Int64Bytes(m)
  }

  /** The bytes of a whole document. */
  function DocumentBytes(es: seq<Element>): seq<Byte> {
    Enclosed(ListBytes(es))
  }

  // ---------------------------------------------------------------- the grammar, read

  /** The position of the first zero byte from i on, or |b|. */
  function ZeroAt(b: seq<Byte>, i: nat): (n: nat)
    requires i <= |b|
    ensures i <= n <= |b| && (n < |b| ==> b[n] == 0)
    decreases |b| - i
  {
    if i == |b| || b[i] == 0 then i else ZeroAt(b, i + 1)
  }

  /** e_list: elements up to the end of b. */
  function ParseList(b: seq<Byte>): Option<seq<Element>>
    decreases |b|, 1
  {
    if b == [] then Some([])
    else
      var n := ZeroAt(b, 1);
      if n == |b| then None
      else
        match ParseValue(b[0], b[n + 1..])
        case None => None
        case Some((v, len)) =>
          match ParseList(b[n + 1 + len..])
          case None => None
          case Some(es) => Some([Element(b[1..n], v)] + es)
  }

  lemma {:induction false} FromLittleEndianBound(b: seq<Byte>)
    ensures FromLittleEndian(b) < Power256(|b|)
  {
    if b == [] {
    } else {
      FromLittleEndianBound(b[1..]);
    }
  }

  function ReadBits(b: seq<Byte>): Bits64
    requires |b| >= 8
  {
    FromLittleEndianBound(b[..8]);
    PowerFacts();
    FromLittleEndian(b[..8])
  }

  function ReadNumber32(b: seq<Byte>): Int32
    requires |b| >= 4
  {
    FromLittleEndianBound(b[..4]);
    PowerFacts();
    ReadInt32(b)
  }

  function ReadNumber64(b: seq<Byte>): Int64
    requires |b| >= 8
  {
    FromLittleEndianBound(b[..8]);
    PowerFacts();
    ReadInt64(b)
  }

  /** A value with the given tag at the start of b, and its length. */
  function ParseValue(tag: Byte, b: seq<Byte>): (r: Option<(Value, nat)>)
    ensures r.Some? ==> r.value.1 <= |b|
    decreases |b|, 0
  {
    if tag == 0x01 then
      if |b| < 8 then None else Some((Double(ReadBits(b)), 8))
    else if tag == 0x02 then
      if |b| < 4 then None
      else
        var n := ReadInt32(b);
        if n < 1 || 4 + n > |b| || b[3 + n] != 0 then None else Some((String(b[4..3 + n]), 4 + n))
    else if tag == 0x03 || tag == 0x04 then
      if |b| < 5 then None
      else
        var n := ReadInt32(b);
        if n < 5 || n > |b| || b[n - 1] != 0 then None
        else
          match ParseList(b[4..n - 1])
          case None => None
          case Some(es) => Some((if tag == 0x03 then Document(es) else Array(es), n))
    else if tag == 0x05 then
      if |b| < 5 then None
      else
        var n := ReadInt32(b);
        if n < 0 || 5 + n > |b| || b[4] != 0 then None else Some((Binary(b[5..5 + n]), 5 + n))
    else if tag == 0x08 then
      if b == [] || b[0] > 1 then None else Some((Boolean(b[0] == 1), 1))
    else if tag == 0x10 then
      if |b| < 4 then None else Some((Number32(ReadNumber32(b)), 4))
    else if tag == 0x12 then
      if |b| < 8 then None else Some((Number64(ReadNumber64(b)), 8))
    else None
  }

  /** A whole document: exactly the bytes its length announces. */
  function ParseDocument(b: seq<Byte>): Option<seq<Element>> {
    match ParseValue(0x03, b)
    case Some((Document(es), n)) => if n == |b| then Some(es) else None
    case _ => None
  }

  // ---------------------------------------------------------------- round trip

  /** No key, at any depth, contains the byte that ends keys. */
  predicate KeysNulFree(es: seq<Element>) {
    es == [] || (0 !in es[0].key && ValueNulFree(es[0].value) && KeysNulFree(es[1..]))
  }

  predicate ValueNulFree(v: Value) {
    match v
    case Document(es) => KeysNulFree(es)
    case Array(es) => KeysNulFree(es)
    case _ => true
  }

  lemma {:induction false} ZeroAtEnd(b: seq<Byte>, i: nat, n: nat)
    requires i <= n < |b| && b[n] == 0 && 0 !in b[i..n]
    ensures ZeroAt(b, i) == n
    decreases n - i
  {
    if i < n {
      assert b[i] == b[i..n][0];
      assert b[i + 1..n] == b[i..n][1..];
      ZeroAtEnd(b, i + 1, n);
    }
  }

  lemma {:induction false} ParseListStep(b: seq<Byte>, n: nat)
    requires b != [] && ZeroAt(b, 1) == n < |b|
    ensures ParseList(b) ==
      match ParseValue(b[0], b[n + 1..])
      case None => None
      case Some((v, len)) =>
        match ParseList(b[n + 1 + len..]) case None => None case Some(es) => Some([Element(b[1..n], v)] + es)
  {
    hide ParseValue, ZeroAt;
  }

  /** Where the parts of an element are. */
  lemma {:induction false} ElementParts(tag: Byte, key: seq<Byte>, body: seq<Byte>, rest: seq<Byte>)
    ensures var b := [tag] + key + [0] + body + rest; var n := |key| + 1;
      && n < |b| && b[0] == tag && b[1..n] == key && b[n] == 0
      && b[n + 1..] == body + rest && n + 1 + |body| <= |b| && b[n + 1 + |body|..] == rest
  {
    var b, n := [tag] + key + [0] + body + rest, |key| + 1;
    assert b == ([tag] + key + [0]) + (body + rest);
    assert b == ([tag] + key + [0] + body) + rest;
  }

  /** One element in front of a list. */
  lemma {:induction false} ParseListCons(e: Element, rest: seq<Byte>)
    requires 0 !in e.key
    requires ParseValue(Tag(e.value), ValueBytes(e.value) + rest) == Some((e.value, |ValueBytes(e.value)|))
    ensures ParseList(ElementBytes(e) + rest) ==
      match ParseList(rest) case None => None case Some(es) => Some([e] + es)
  {
    hide ParseList, ParseValue, ValueBytes, ZeroAt, Tag;
    var b, n := ElementBytes(e) + rest, |e.key| + 1;
    ElementParts(Tag(e.value), e.key, ValueBytes(e.value), rest);
    ZeroAtEnd(b, 1, n);
    ParseListStep(b, n);
  }

  lemma ParseEnclosed(es: seq<Element>, rest: seq<Byte>)
    requires |Enclosed(ListBytes(es))| < INT32_LIMIT
    ensures var b := Enclosed(ListBytes(es)) + rest; var n := |ListBytes(es)| + 5;
      ReadInt32(b) == n && n <= |b| && b[n - 1] == 0 && b[4..n - 1] == ListBytes(es)
  {
    var body := ListBytes(es);
    var b := Enclosed(body) + rest;
    assert b == Int32Bytes(|body| + 5) + (body + [0] + rest);
    Int32RoundTrip(|body| + 5, body + [0] + rest);
  }

  lemma ParseString(text: seq<Byte>, rest: seq<Byte>)
    requires |text| + 5 < INT32_LIMIT
    ensures ParseValue(0x02, ValueBytes(String(text)) + rest) == Some((String(text), |text| + 5))
  {
    var b := ValueBytes(String(text)) + rest;
    assert b == Int32Bytes(|text| + 1) + (text + [0] + rest);
    Int32RoundTrip(|text| + 1, text + [0] + rest);
    assert b[4..4 + |text|] == text && b[4 + |text|] == 0;
  }

  lemma ParseBinary(data: seq<Byte>, rest: seq<Byte>)
    requires |data| + 5 < INT32_LIMIT
    ensures ParseValue(0x05, ValueBytes(Binary(data)) + rest) == Some((Binary(data), |data| + 5))
  {
    var b := ValueBytes(Binary(data)) + rest;
    assert b == Int32Bytes(|data|) + ([0] + data + rest);
    Int32RoundTrip(|data|, [0] + data + rest);
    assert b[5..5 + |data|] == data && b[4] == 0;
  }

  lemma {:induction false} ParseNested(tag: Byte, es: seq<Element>, rest: seq<Byte>)
    requires tag == 0x03 || tag == 0x04
    requires |Enclosed(ListBytes(es))| < INT32_LIMIT && ParseList(ListBytes(es)) == Some(es)
    ensures ParseValue(tag, Enclosed(ListBytes(es)) + rest)
      == Some((if tag == 0x03 then Document(es) else Array(es), |Enclosed(ListBytes(es))|))
  {
    ParseEnclosed(es, rest);
  }

  lemma ParsePlain(v: Value, rest: seq<Byte>)
    requires v.Double? || v.Boolean? || v.Number32? || v.Number64?
    ensures ParseValue(Tag(v), ValueBytes(v) + rest) == Some((v, |ValueBytes(v)|))
  {
    match v {
      case Double(bits) => DoubleRoundTrip(bits, rest);
      case Boolean(flag) =>
      case Number32(n) => Int32RoundTrip(n, rest);
      case Number64(m) => Int64RoundTrip(m, rest);
    }
  }

  lemma ListLengths(es: seq<Element>)
    requires es != []
    ensures |ValueBytes(es[0].value)| <= |ListBytes(es)| && |ListBytes(es[1..])| <= |ListBytes(es)|
  {
  }

  lemma ParseFirst(es: seq<Element>)
    requires es != [] && 0 !in es[0].key
    requires var v := es[0].value;
      ParseValue(Tag(v), ValueBytes(v) + ListBytes(es[1..])) == Some((v, |ValueBytes(v)|))
    requires ParseList(ListBytes(es[1..])) == Some(es[1..])
    ensures ParseList(ListBytes(es)) == Some(es)
  {
    hide ParseList, ParseValue, ValueBytes, ElementBytes, ZeroAt, Tag;
    ParseListCons(es[0], ListBytes(es[1..]));
    assert [es[0]] + es[1..] == es;
  }

  lemma {:induction false} ParseListBytes(es: seq<Element>)
    requires KeysNulFree(es) && |ListBytes(es)| < INT32_LIMIT
    ensures ParseList(ListBytes(es)) == Some(es)
    decreases es, 1
  {
    if es == [] {
    } else {
      ListLengths(es);
      ParseValueBytes(es[0].value, ListBytes(es[1..]));
      ParseListBytes(es[1..]);
      ParseFirst(es);
    }
  }

  lemma {:induction false} ParseValueBytes(v: Value, rest: seq<Byte>)
    requires |ValueBytes(v)| < INT32_LIMIT
    requires ValueNulFree(v)
    ensures ParseValue(Tag(v), ValueBytes(v) + rest) == Some((v, |ValueBytes(v)|))
    decreases v, 0
  {
    match v {
      case String(text) => ParseString(text, rest);
      case Document(es) => ParseListBytes(es); ParseNested(0x03, es, rest);
      case Array(es) => ParseListBytes(es); ParseNested(0x04, es, rest);
      case Binary(data) => ParseBinary(data, rest);
      case _ => ParsePlain(v, rest);
    }
  }

  lemma {:induction false} NoZeroBefore(b: seq<Byte>, i: nat)
    requires i <= |b|
    ensures 0 !in b[i..ZeroAt(b, i)]
    decreases |b| - i
  {
    var n := ZeroAt(b, i);
    if i < n {
      NoZeroBefore(b, i + 1);
      assert b[i..n] == [b[i]] + b[i + 1..n];
    }
  }

  lemma {:induction false} ParsedKeysNulFree(b: seq<Byte>)
    ensures ParseList(b).Some? ==> KeysNulFree(ParseList(b).value)
    decreases |b|, 1
  {
    hide ParseValue, ZeroAt, ValueNulFree;
    if b != [] && ZeroAt(b, 1) < |b| {
      var n := ZeroAt(b, 1);
      var v := ParseValue(b[0], b[n + 1..]);
      NoZeroBefore(b, 1);
      ParsedValueNulFree(b[0], b[n + 1..]);
      if v.Some? { ParsedKeysNulFree(b[n + 1 + v.value.1..]); }
    }
  }

  lemma {:induction false} ParsedValueNulFree(tag: Byte, b: seq<Byte>)
    ensures ParseValue(tag, b).Some? ==> ValueNulFree(ParseValue(tag, b).value.0)
    decreases |b|, 0
  {
    if (tag == 0x03 || tag == 0x04) && |b| >= 5 {
      var n := ReadInt32(b);
      if 5 <= n <= |b| { ParsedKeysNulFree(b[4..n - 1]); }
    }
  }

  /** Parsing what was written gives back the tree, just when no key contains the byte that ends
      keys. */
  lemma DocumentRoundTrip(es: seq<Element>)
    requires |DocumentBytes(es)| < INT32_LIMIT
    ensures ParseDocument(DocumentBytes(es)) == Some(es) <==> KeysNulFree(es)
  {
    if KeysNulFree(es) {
      ParseValueBytes(Document(es), []);
      assert DocumentBytes(es) + [] == DocumentBytes(es);
    } else {
      ParsedValueNulFree(0x03, DocumentBytes(es));
    }
  }

  // ---------------------------------------------------------------- the buffer

  lemma LittleEndianFour(u: nat, k: nat)
    ensures LittleEndian(u, k + 4)
      == [u % 256, u / 0x100 % 256, u / 0x1_0000 % 256, u / 0x100_0000 % 256] + LittleEndian(u / UINT32_LIMIT, k)
  {
    var a, b, c := u / 0x100, u / 0x1_0000, u / 0x100_0000;
    assert a / 256 == b && b / 256 == c && c / 256 == u / UINT32_LIMIT;
    assert LittleEndian(c, k + 1) == [c % 256] + LittleEndian(c / 256, k);
    assert LittleEndian(b, k + 2) == [b % 256] + LittleEndian(c, k + 1);
    assert LittleEndian(a, k + 3) == [a % 256] + LittleEndian(b, k + 2);
    assert LittleEndian(u, k + 4) == [u % 256] + LittleEndian(a, k + 3);
  }

  lemma FourBytes(u: nat)
    ensures LittleEndian(u, 4) == [u % 256, u / 0x100 % 256, u / 0x1_0000 % 256, u / 0x100_0000 % 256]
  {
    LittleEndianFour(u, 0);
  }

  lemma EightBytes(u: nat)
    ensures var high := u / UINT32_LIMIT;
      LittleEndian(u, 8) == [u % 256, u / 0x100 % 256, u / 0x1_0000 % 256, u / 0x100_0000 % 256,
                             high % 256, high / 0x100 % 256, high / 0x1_0000 % 256, high / 0x100_0000 % 256]
  {
    LittleEndianFour(u, 4);
    FourBytes(u / UINT32_LIMIT);
  }

  class Buffer {
    var buf: seq<Byte>

    /** A new buffer starts with the place of the document length. */
    constructor ()
      ensures buf == [0, 0, 0, 0]
    {
      buf := [0, 0, 0, 0];
    }

    method Finish()
      requires |buf| >= 4
      modifies this
      ensures buf == Int32Bytes(|old(buf)| + 1) + old(buf)[4..] + [0]
    {
      AddBytes([0]);
      SetInt32(0, |buf|);
    }

    method AppendString(k: seq<Byte>, v: seq<Byte>)
      modifies this
      ensures buf == old(buf) + ElementBytes(Element(k, String(v)))
    {
      AddElemName(0x02, k);
      AddInt32(|v| + 1);
      AddBytes(v);
      AddBytes([0]);
    }

    method AppendBinary(k: seq<Byte>, v: seq<Byte>)
      modifies this
      ensures buf == old(buf) + ElementBytes(Element(k, Binary(v)))
    {
      AddElemName(0x05, k);
      AddInt32(|v|);
      AddBytes([0]);
      AddBytes(v);
    }

    /** A number in the 32-bit range is written as one, any other with 64 bits. */
    method AppendInt(k: seq<Byte>, v: Int64)
      modifies this
      ensures buf == old(buf) + ElementBytes(Element(k,
        if -INT32_LIMIT <= v < INT32_LIMIT then Number32(v) else Number64(v)))
    {
      if v >= -INT32_LIMIT && v <= INT32_LIMIT - 1 {
        AppendInt32(k, v);
      } else {
        AppendInt64(k, v);
      }
    }

    method AppendInt32(k: seq<Byte>, v: Int32)
      modifies this
      ensures buf == old(buf) + ElementBytes(Element(k, Number32(v)))
    {
      AddElemName(0x10, k);
      AddInt32(v);
    }

    method AppendInt64(k: seq<Byte>, v: Int64)
      modifies this
      ensures buf == old(buf) + ElementBytes(Element(k, Number64(v)))
    {
      AddElemName(0x12, k);
      AddInt64(v);
    }

    method AppendFloat64(k: seq<Byte>, bits: Bits64)
      modifies this
      ensures buf == old(buf) + ElementBytes(Element(k, Double(bits)))
    {
      AddElemName(0x01, k);
      AddInt64(bits);
    }

    method AppendBool(k: seq<Byte>, v: bool)
      modifies this
      ensures buf == old(buf) + ElementBytes(Element(k, Boolean(v)))
    {
      AddElemName(0x08, k);
      AddBytes([if v then 1 else 0]);
    }

    method AppendStartObject(k: seq<Byte>) returns (start: nat)
      modifies this
      ensures start == |old(buf)| + |k| + 2
      ensures buf == old(buf) + ([0x03] + k + [0]) + [0, 0, 0, 0]
    {
      AddElemName(0x03, k);
      start := ReserveInt32();
    }

    method AppendStartArray(k: seq<Byte>) returns (start: nat)
      modifies this
      ensures start == |old(buf)| + |k| + 2
      ensures buf == old(buf) + ([0x04] + k + [0]) + [0, 0, 0, 0]
    {
      AddElemName(0x04, k);
      start := ReserveInt32();
    }

    /** Closes the document opened at start; its length counts from there. */
    method AppendFinishObject(start: nat)
      requires start + 4 <= |buf|
      modifies this
      ensures buf == old(buf)[..start] + Int32Bytes(|old(buf)| + 1 - start) + old(buf)[start + 4..] + [0]
    {
      AddBytes([0]);
      SetInt32(start, |buf| - start);
    }

    method AddElemName(kind: Byte, name: seq<Byte>)
      modifies this
      ensures buf == old(buf) + ([kind] + name + [0])
    {
      AddBytes([kind]);
      AddBytes(name);
      AddBytes([0]);
    }

    method ReserveInt32() returns (pos: nat)
      modifies this
      ensures pos == |old(buf)| && buf == old(buf) + [0, 0, 0, 0]
    {
      pos := |buf|;
      AddBytes([0, 0, 0, 0]);
    }

    /** Overwrites four bytes in place; the conversion to int32 keeps the low 32 bits. */
    method SetInt32(pos: nat, v: int)
      requires pos + 4 <= |buf|
      modifies this
      ensures buf == old(buf)[..pos] + Int32Bytes(v) + old(buf)[pos + 4..]
    {
      var u := Unsigned32(v);
      FourBytes(u);
      buf := buf[pos + 0 := u % 256];
      buf := buf[pos + 1 := u / 0x100 % 256];
      buf := buf[pos + 2 := u / 0x1_0000 % 256];
      buf := buf[pos + 3 := u / 0x100_0000 % 256];
    }

    method AddInt32(v: int)
      modifies this
      ensures buf == old(buf) + Int32Bytes(v)
    {
      var u := Unsigned32(v);
      FourBytes(u);
      AddBytes([u % 256, u / 0x100 % 256, u / 0x1_0000 % 256, u / 0x100_0000 % 256]);
    }

    method AddInt64(v: int)
      modifies this
      ensures buf == old(buf) + Int64Bytes(v)
    {
      var u := Unsigned64(v);
      var high := u / UINT32_LIMIT;
      EightBytes(u);
      AddBytes([u % 256, u / 0x100 % 256, u / 0x1_0000 % 256, u / 0x100_0000 % 256,
                high % 256, high / 0x100 % 256, high / 0x1_0000 % 256, high / 0x100_0000 % 256]);
    }

    method AddBytes(v: seq<Byte>)
      modifies this
      ensures buf == old(buf) + v
    {
      buf := buf + v;
    }
  }

  // ---------------------------------------------------------------- bracketed calls

  /** Makes the calls that write a list of elements. */
  method WriteList(b: Buffer, es: seq<Element>)
    modifies b
    ensures b.buf == old(b.buf) + ListBytes(es)
    decreases es, 1
  {
    if es != [] {
      ghost var before := b.buf;
      WriteElement(b, es[0]);
      WriteList(b, es[1..]);
      assert before + ElementBytes(es[0]) + ListBytes(es[1..]) == before + (ElementBytes(es[0]) + ListBytes(es[1..]));
    }
  }

  /** One call for a plain value; a start, the calls for the contents and a finish for a
      nested document or array. */
  method WriteElement(b: Buffer, e: Element)
    modifies b
    ensures b.buf == old(b.buf) + ElementBytes(e)
    decreases e, 0
  {
    match e.value {
      case Double(bits) => b.AppendFloat64(e.key, bits);
      case String(text) => b.AppendString(e.key, text);
      case Binary(data) => b.AppendBinary(e.key, data);
      case Boolean(flag) => b.AppendBool(e.key, flag);
      case Number32(n) => b.AppendInt32(e.key, n);
      case Number64(m) => b.AppendInt64(e.key, m);
      case Document(fields) => WriteObject(b, e.key, fields);
      case Array(items) => WriteArray(b, e.key, items);
    }
  }

  /** Patching the length of the innermost open document leaves what surrounds it alone. */
  lemma Patched(before: seq<Byte>, kind: Byte, k: seq<Byte>, body: seq<Byte>)
    ensures var open := before + ([kind] + k + [0]) + [0, 0, 0, 0] + body;
      var start := |before| + |k| + 2;
      open[..start] + Int32Bytes(|open| + 1 - start) + open[start + 4..] + [0]
      == before + ([kind] + k + [0] + Enclosed(body))
  {
    var open := before + ([kind] + k + [0]) + [0, 0, 0, 0] + body;
    var start := |before| + |k| + 2;
    assert open[..start] == before + ([kind] + k + [0]);
    assert open[start + 4..] == body;
    assert |open| + 1 - start == |body| + 5;
  }

  method WriteObject(b: Buffer, k: seq<Byte>, fields: seq<Element>)
    modifies b
    ensures b.buf == old(b.buf) + ElementBytes(Element(k, Document(fields)))
    decreases fields, 2
  {
    hide ListBytes, Int32Bytes;
    ghost var before := b.buf;
    var start := b.AppendStartObject(k);
    WriteList(b, fields);
    Patched(before, 0x03, k, ListBytes(fields));
    b.AppendFinishObject(start);
  }

  method WriteArray(b: Buffer, k: seq<Byte>, items: seq<Element>)
    modifies b
    ensures b.buf == old(b.buf) + ElementBytes(Element(k, Array(items)))
    decreases items, 2
  {
    hide ListBytes, Int32Bytes;
    ghost var before := b.buf;
    var start := b.AppendStartArray(k);
    WriteList(b, items);
    Patched(before, 0x04, k, ListBytes(items));
    b.AppendFinishObject(start);
  }

  /** Any bracketed sequence of calls on a new buffer, closed by Finish, yields bytes that
      parse back into the written tree, unless a key contains a zero. */
  method WriteDocument(es: seq<Element>) returns (b: Buffer)
    ensures b.buf == DocumentBytes(es)
    ensures |b.buf| < INT32_LIMIT ==> (ParseDocument(b.buf) == Some(es) <==> KeysNulFree(es))
  {
    b := new Buffer();
    WriteList(b, es);
    assert b.buf[4..] == ListBytes(es);
    b.Finish();
    if |b.buf| < INT32_LIMIT {
      DocumentRoundTrip(es);
    }
  }
}
