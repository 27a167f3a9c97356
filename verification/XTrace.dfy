/** X-Trace metadata: packed into bytes, and as a string of hexadecimal digits (section 8 of
    RFC 4648). */
module XTrace {
  import opened Bits
  import opened Common

  datatype Error =
    | InvalidLength | BufferTooShort | EmptyBuffer | BadVersion | WrongHeaderLength
    | HexNotEven | TooManyHex | HexNotValid | InvalidTaskId

  datatype Result<T> = Ok(value: T) | Err(error: Error)

  const CURRENT_VERSION := 2

  const MAX_PACKED := 512

  const STRING_BUFFER := 64

  /** IDs are kept in buffers that may be longer than the lengths in use. */
  datatype Metadata = Metadata(version: Byte, taskID: seq<Byte>, opID: seq<Byte>, taskLen: nat, opLen: nat, flags: Byte)

  // ---------------------------------------------------------------- hexadecimal

  function HexDigit(d: int): char
    requires 0 <= d < 16
  {
    if d < 10 then '0' + d as char else 'A' + (d - 10) as char
  }

  /** Digits of either case are read; -1 for what is none. */
  function DigitValue(c: char): (d: int)
    ensures -1 <= d < 16
  {
    if '0' <= c <= '9' then (c - '0') as int
    else if 'a' <= c <= 'f' then (c - 'a') as int + 10
    else if 'A' <= c <= 'F' then (c - 'A') as int + 10
    else -1
  }

  function Upper(c: char): char {
    if 'a' <= c <= 'z' then c - 'a' + 'A' else c
  }

  function ToHex(data: seq<Byte>): string {
    if data == [] then [] else [HexDigit(data[0] / 16), HexDigit(data[0] % 16)] + ToHex(data[1..])
  }

  predicate IsHex(s: string) {
    |s| % 2 == 0 && forall i | 0 <= i < |s| :: DigitValue(s[i]) >= 0
  }

  function FromHex(s: string): (data: seq<Byte>)
    requires IsHex(s)
    ensures |data| == |s| / 2
  {
    if s == [] then [] else [DigitValue(s[0]) * 16 + DigitValue(s[1])] + FromHex(s[2..])
  }

  function UpperCase(s: string): string {
    seq(|s|, i requires 0 <= i < |s| => Upper(s[i]))
  }

  lemma DigitRoundTrip(d: int)
    requires 0 <= d < 16
    ensures DigitValue(HexDigit(d)) == d && Upper(HexDigit(d)) == HexDigit(d)
  {
  }

  lemma DigitOf(c: char)
    requires DigitValue(c) >= 0
    ensures HexDigit(DigitValue(c)) == Upper(c)
  {
  }

  lemma {:induction false} HexRoundTrip(data: seq<Byte>)
    ensures |ToHex(data)| == 2 * |data| && IsHex(ToHex(data)) && FromHex(ToHex(data)) == data
  {
    if data == [] {
    } else {
      var hi, lo := data[0] / 16, data[0] % 16;
      HexRoundTrip(data[1..]);
      DigitRoundTrip(hi);
      DigitRoundTrip(lo);
      hide HexDigit, DigitValue;
      assert ToHex(data)[2..] == ToHex(data[1..]);
    }
  }

  lemma {:induction false} HexUpperCase(s: string)
    requires IsHex(s)
    ensures ToHex(FromHex(s)) == UpperCase(s)
  {
    hide HexDigit, DigitValue, Upper;
    if s == [] {
    } else {
      HexUpperCase(s[2..]);
      DigitOf(s[0]);
      DigitOf(s[1]);
      assert UpperCase(s) == [Upper(s[0]), Upper(s[1])] + UpperCase(s[2..]);
    }
  }

  lemma {:induction false} HexPrefix(data: seq<Byte>, n: nat)
    requires n <= |data|
    ensures 2 * n <= |ToHex(data)| && ToHex(data[..n]) == ToHex(data)[..2 * n]
  {
    HexRoundTrip(data);
    if n == 0 {
    } else {
      HexPrefix(data[1..], n - 1);
      assert data[..n][1..] == data[1..][..n - 1];
    }
  }

  // ---------------------------------------------------------------- bytes

  /** Lengths there can be. */
  predicate ValidLengths(taskLen: nat, opLen: nat) {
    (taskLen == 4 || taskLen == 8 || taskLen == 12 || taskLen == 20) && (opLen == 4 || opLen == 8)
  }

  /** What metadata is, once it is initialised. */
  predicate WellFormed(md: Metadata) {
    ValidLengths(md.taskLen, md.opLen) && md.taskLen <= |md.taskID| && md.opLen <= |md.opID| && md.version < 16
  }

  /** The IDs cut to the lengths in use. */
  function Trimmed(md: Metadata): Metadata
    requires WellFormed(md)
  {
    md.(taskID := md.taskID[..md.taskLen], opID := md.opID[..md.opLen])
  }

  function TaskBits(taskLen: nat): nat
    requires taskLen >= 4
  {
    if taskLen == 20 then 3 else taskLen / 4 - 1
  }

  function Header(version: nat, taskLen: nat, opLen: nat): Byte
    requires version < 16 && ValidLengths(taskLen, opLen)
  {
    version * 16 + (opLen / 4 - 1) * 8 + TaskBits(taskLen)
  }

  /** The length of an ID in units of four bytes, less one, as a byte. */
  function Units(len: nat): nat {
    (len % 256 / 4 + 255) % 256
  }

  lemma BitOrByte(a: nat, b: nat)
    requires a < 256 && b < 256
    ensures BitOr(a, b) < 256
  {
    SmallPowers();
    hide Pow2;
    BitOrBound(a, b, 8);
  }

  /** The header of any metadata: its fields or-ed together as bytes. */
  function HeaderByte(version: Byte, taskLen: nat, opLen: nat): (h: Byte) {
    var task := if Units(taskLen) == 4 then 3 else Units(taskLen);
    var fields := BitOr(version * 16 % 256, task);
    BitOrByte(version * 16 % 256, task);
    BitOrByte(fields, Units(opLen) * 8 % 256);
    BitOr(fields, Units(opLen) * 8 % 256)
  }

  lemma OrNothing(x: nat)
    ensures BitOr(0, x) == x
  {
  }

  lemma OrVersion(version: nat, task: nat)
    requires task < 4
    ensures BitOr(version * 16, task) == version * 16 + task
  {
    hide BitOr;
    BitOrSwap(version * 16, task);
    BitOrEven(task, version * 8);
    BitOrEven(task / 2, version * 4);
    OrNothing(version * 4);
  }

  lemma OrOp(version: nat, task: nat, op: nat)
    requires task < 4 && op < 2
    ensures BitOr(version * 16 + task, op * 8) == version * 16 + op * 8 + task
  {
    hide BitOr;
    var x := version * 16 + task;
    BitOrEven(x, op * 4);
    BitOrEven(x / 2, op * 2);
    BitOrEven(x / 2 / 2, op);
    BitOrSwap(version * 2, op);
    BitOrEven(op, version);
    OrNothing(version);
    assert x / 2 / 2 / 2 == version * 2;
  }

  /** For lengths there can be, the fields of the header do not overlap, so or-ing them is adding. */
  lemma HeaderBits(version: Byte, taskLen: nat, opLen: nat)
    requires version < 16 && ValidLengths(taskLen, opLen)
    ensures HeaderByte(version, taskLen, opLen) == Header(version, taskLen, opLen)
  {
    hide BitOr;
    OrVersion(version, TaskBits(taskLen));
    OrOp(version, TaskBits(taskLen), opLen / 4 - 1);
  }

  function Packed(md: Metadata): (data: seq<Byte>)
    requires WellFormed(md)
    ensures |data| == md.taskLen + md.opLen + 2
  {
    [Header(md.version, md.taskLen, md.opLen)] + md.taskID[..md.taskLen] + md.opID[..md.opLen] + [md.flags]
  }

  function PackedByte(buf: seq<Byte>, md: Metadata, k: nat): Byte
    requires k < |buf|
  {
    var op := 1 + md.taskLen;
    if k == 0 then HeaderByte(md.version, md.taskLen, md.opLen)
    else if k < op then if k - 1 < |md.taskID| then md.taskID[k - 1] else buf[k]
    else if k < op + md.opLen then if k - op < |md.opID| then md.opID[k - op] else buf[k]
    else if k == op + md.opLen then md.flags
    else buf[k]
  }

  /** A buffer with metadata packed into it. An ID shorter than its length leaves what was there. */
  function PackedInto(buf: seq<Byte>, md: Metadata): (packed: seq<Byte>)
    requires md.taskLen + md.opLen + 2 <= |buf|
    ensures |packed| == |buf|
  {
    seq(|buf|, k requires 0 <= k < |buf| => PackedByte(buf, md, k))
  }

  /** Of metadata once it is initialised, the front of the buffer is what is packed. */
  lemma PackedIsInFront(buf: seq<Byte>, md: Metadata)
    requires WellFormed(md) && md.taskLen + md.opLen + 2 <= |buf|
    ensures var n := md.taskLen + md.opLen + 2; var packed := PackedInto(buf, md);
      packed[..n] == Packed(md) && packed[n..] == buf[n..]
  {
    hide HeaderByte, Header;
    HeaderBits(md.version, md.taskLen, md.opLen);
    var n, packed := md.taskLen + md.opLen + 2, PackedInto(buf, md);
    assert forall k: nat | k < n :: packed[k] == Packed(md)[k];
  }

  function TaskLenOf(header: Byte): nat {
    if header % 4 == 3 then 20 else (header % 4 + 1) * 4
  }

  function OpLenOf(header: Byte): nat {
    if header / 8 % 2 == 1 then 8 else 4
  }

  function Unpacked(data: seq<Byte>): (r: Result<Metadata>)
    ensures r.Ok? ==> WellFormed(r.value) && r.value.version == CURRENT_VERSION && r.value == Trimmed(r.value)
    ensures r.Ok? ==> r.value.taskLen + r.value.opLen + 2 <= |data|
  {
    if data == [] then Err(EmptyBuffer)
    else if data[0] / 16 != CURRENT_VERSION then Err(BadVersion)
    else
      var taskLen, opLen := TaskLenOf(data[0]), OpLenOf(data[0]);
      if taskLen + opLen + 2 > |data| then Err(WrongHeaderLength)
      else Ok(Metadata(CURRENT_VERSION, data[1..1 + taskLen], data[1 + taskLen..1 + taskLen + opLen], taskLen, opLen,
                       data[1 + taskLen + opLen]))
  }

  /** A task ID is invalid when it is twenty zeros. */
  predicate InvalidTask(taskID: seq<Byte>) {
    |taskID| == 20 && forall i | 0 <= i < 20 :: taskID[i] == 0
  }

  function FromStringOf(s: string): Result<Metadata> {
    if |s| % 2 == 1 then Err(HexNotEven)
    else if |s| / 2 > MAX_PACKED then Err(TooManyHex)
    else if !IsHex(s) then Err(HexNotValid)
    else
      var r := Unpacked(FromHex(s));
      if r.Err? then r else if InvalidTask(r.value.taskID) then Err(InvalidTaskId) else r
  }

  predicate IsHexChar(c: char) {
    '0' <= c <= '9' || 'a' <= c <= 'f' || 'A' <= c <= 'F'
  }

  /** The lengths of the IDs that the second character of a string tells. */
  function TaskLenIn(c: char): nat {
    match DigitValue(c)
    case 0 | 4 | 8 | 12 => 4
    case 1 | 5 | 9 | 13 => 8
    case 2 | 6 | 10 | 14 => 12
    case _ => 20
  }

  function OpLenIn(c: char): nat {
    if '0' <= c <= '7' then 4 else 8
  }

  lemma HeaderFields(hi: nat, lo: nat)
    requires hi < 16 && lo < 16
    ensures var h := hi * 16 + lo; h / 16 == hi && h % 4 == lo % 4 && h / 8 % 2 == lo / 8
  {
  }

  lemma DigitsOfHeader(hi: char, lo: char)
    requires IsHexChar(hi) && IsHexChar(lo)
    ensures var h := DigitValue(hi) * 16 + DigitValue(lo);
      && (h / 16 == CURRENT_VERSION <==> hi == '2') && TaskLenOf(h) == TaskLenIn(lo) && OpLenOf(h) == OpLenIn(lo)
  {
    HeaderFields(DigitValue(hi), DigitValue(lo));
    assert DigitValue(hi) == 2 <==> hi == '2';
    assert DigitValue(lo) / 8 == 1 <==> !('0' <= lo <= '7');
  }

  lemma {:induction false} FromHexByte(s: string, k: nat)
    requires IsHex(s) && k < |s| / 2
    ensures FromHex(s)[k] == DigitValue(s[2 * k]) * 16 + DigitValue(s[2 * k + 1])
  {
    if k == 0 {
    } else {
      FromHexByte(s[2..], k - 1);
    }
  }

  /** What is wrong with a string, told by its characters; the first of these that holds. */
  ghost function Wrong(s: string): Option<Error> {
    if |s| % 2 == 1 then Some(HexNotEven)
    else if |s| > 1024 then Some(TooManyHex)
    else if exists i :: 0 <= i < |s| && !IsHexChar(s[i]) then Some(HexNotValid)
    else if s == "" then Some(EmptyBuffer)
    else if s[0] != '2' then Some(BadVersion)
    else if |s| < 2 * (TaskLenIn(s[1]) + OpLenIn(s[1]) + 2) then Some(WrongHeaderLength)
    else if TaskLenIn(s[1]) == 20 && forall i | 2 <= i < 42 :: s[i] == '0' then Some(InvalidTaskId)
    else None
  }

  lemma ZeroDigits(s: string, data: seq<Byte>)
    requires IsHex(s) && data == FromHex(s) && |s| >= 42
    ensures InvalidTask(data[1..21]) <==> forall i | 2 <= i < 42 :: s[i] == '0'
  {
    hide FromHex;
    forall k: nat | 1 <= k < 21 ensures data[k] == data[1..21][k - 1] == 0 <==> s[2 * k] == s[2 * k + 1] == '0' {
      FromHexByte(s, k);
    }
    if InvalidTask(data[1..21]) {
      forall i | 2 <= i < 42 ensures s[i] == '0' {
        assert data[1..21][i / 2 - 1] == 0;
      }
    }
  }

  /** The byte that two digits of a string stand for. */
  function ByteIn(s: string, k: nat): Byte
    requires IsHex(s) && 2 * k + 1 < |s|
  {
    DigitValue(s[2 * k]) * 16 + DigitValue(s[2 * k + 1])
  }

  lemma HexChars(s: string)
    requires IsHex(s)
    ensures forall i | 0 <= i < |s| :: IsHexChar(s[i])
  {
  }

  /** What is read: the task ID from the digits after the header, then the op ID, then the flags. */
  lemma FieldsInString(s: string)
    requires FromStringOf(s).Ok?
    ensures var md := FromStringOf(s).value;
      && md.version == 2 && md.taskLen == TaskLenIn(s[1]) && md.opLen == OpLenIn(s[1])
      && |md.taskID| == md.taskLen && |md.opID| == md.opLen && |s| >= 2 * (md.taskLen + md.opLen + 2)
      && (forall k | 0 <= k < md.taskLen :: md.taskID[k] == ByteIn(s, 1 + k))
      && (forall k | 0 <= k < md.opLen :: md.opID[k] == ByteIn(s, 1 + md.taskLen + k))
      && md.flags == ByteIn(s, 1 + md.taskLen + md.opLen)
  {
    hide FromHex, InvalidTask, TaskLenIn, OpLenIn, TaskLenOf, OpLenOf, DigitValue;
    var data := FromHex(s);
    FromHexByte(s, 0);
    HexChars(s);
    DigitsOfHeader(s[0], s[1]);
    forall k: nat | k < |data| ensures data[k] == ByteIn(s, k) { FromHexByte(s, k); }
  }

  lemma TaskLengths(h: Byte)
    ensures ValidLengths(TaskLenOf(h), OpLenOf(h))
    ensures forall data: seq<Byte> | |data| == TaskLenOf(h) != 20 :: !InvalidTask(data)
  {
  }

  /** A string is read just when nothing is wrong with it: a twenty-byte task ID, among others, is
      refused just when all its digits are zeros. */
  lemma ReadIffNothingWrong(s: string)
    ensures FromStringOf(s).Ok? <==> Wrong(s) == None
    ensures FromStringOf(s).Err? ==> Wrong(s) == Some(FromStringOf(s).error)
  {
    hide FromHex, InvalidTask, TaskLenIn, OpLenIn, TaskLenOf, OpLenOf;
    assert forall c :: DigitValue(c) >= 0 <==> IsHexChar(c);
    if |s| % 2 == 0 && IsHex(s) && s != "" {
      FromHexByte(s, 0);
      DigitsOfHeader(s[0], s[1]);
      if |s| >= 42 { ZeroDigits(s, FromHex(s)); }
      TaskLengths(FromHex(s)[0]);
    }
  }

  function ToStringOf(md: Metadata): string
    requires WellFormed(md)
  {
    ToHex(Packed(md))
  }

  lemma HeaderRoundTrip(taskLen: nat, opLen: nat)
    requires ValidLengths(taskLen, opLen)
    ensures var h := Header(CURRENT_VERSION, taskLen, opLen);
      h / 16 == CURRENT_VERSION && TaskLenOf(h) == taskLen && OpLenOf(h) == opLen
  {
  }

  lemma UnpackPacked(md: Metadata)
    requires WellFormed(md) && md.version == CURRENT_VERSION
    ensures Unpacked(Packed(md)) == Ok(Trimmed(md))
  {
    HeaderRoundTrip(md.taskLen, md.opLen);
    var t, o := md.taskLen, md.opLen;
    var data := Packed(md);
    assert data[1..1 + t] == md.taskID[..t];
    assert data[1 + t..1 + t + o] == md.opID[..o];
    assert data[1 + t + o] == md.flags;
  }

  /** Reading what was written gives the metadata back, with its IDs cut to their lengths, unless
      the task ID is invalid. */
  lemma StringRoundTrip(md: Metadata)
    requires WellFormed(md) && md.version == CURRENT_VERSION
    ensures FromStringOf(ToStringOf(md))
         == if InvalidTask(md.taskID[..md.taskLen]) then Err(InvalidTaskId) else Ok(Trimmed(md))
  {
    HexRoundTrip(Packed(md));
    UnpackPacked(md);
  }

  /** The digit without the option bit. */
  function WithoutOption(d: int): int {
    if d / 4 % 2 == 1 then d - 4 else d
  }

  lemma HeaderOf(hi: int, lo: int)
    requires 0 <= lo < 16 && hi == CURRENT_VERSION
    ensures var h := hi * 16 + lo;
      && h / 16 == hi && ValidLengths(TaskLenOf(h), OpLenOf(h)) && 0 <= WithoutOption(lo) < 16
      && Header(CURRENT_VERSION, TaskLenOf(h), OpLenOf(h)) == hi * 16 + WithoutOption(lo)
  {
  }

  lemma PackUnpacked(data: seq<Byte>)
    requires Unpacked(data).Ok?
    ensures var md := Unpacked(data).value;
      Packed(md) == data[..md.taskLen + md.opLen + 2][0 := Header(CURRENT_VERSION, md.taskLen, md.opLen)]
  {
  }

  lemma HexFirst(data: seq<Byte>, b: Byte)
    requires data != []
    ensures |ToHex(data)| >= 2 && ToHex(data[0 := b]) == ToHex(data)[0 := HexDigit(b / 16)][1 := HexDigit(b % 16)]
  {
    assert data[0 := b][1..] == data[1..];
  }

  /** Writing what was read gives the string back, as far as it was read and in upper case, with
      the option bit cleared. */
  lemma StringReadBack(s: string)
    requires FromStringOf(s).Ok?
    ensures var md := FromStringOf(s).value; var n := md.taskLen + md.opLen + 2;
      && 2 * n <= |s|
      && ToStringOf(md) == UpperCase(s[..2 * n])[1 := HexDigit(WithoutOption(DigitValue(s[1])))]
  {
    hide ToHex, Packed, HexDigit, WithoutOption, Header, TaskLenOf, OpLenOf;
    var data := FromHex(s);
    var md := FromStringOf(s).value;
    var n := md.taskLen + md.opLen + 2;
    var read := data[..n];
    PackUnpacked(data);
    HexPrefix(data, n);
    HexUpperCase(s);
    assert ToHex(read) == UpperCase(s[..2 * n]);
    HeaderOf(DigitValue(s[0]), DigitValue(s[1]));
    HexFirst(read, Header(CURRENT_VERSION, md.taskLen, md.opLen));
    DigitOf(s[0]);
  }

  lemma FromHexAt(s: string, i: nat)
    requires IsHex(s) && i % 2 == 0 && i < |s|
    ensures IsHex(s[i..]) && IsHex(s[i + 2..])
    ensures FromHex(s[i..]) == [DigitValue(s[i]) * 16 + DigitValue(s[i + 1])] + FromHex(s[i + 2..])
  {
    assert s[i..][2..] == s[i + 2..];
  }

  lemma EmptyHex(s: string)
    requires s == []
    ensures IsHex(s) && FromHex(s) == []
  {
  }

  method DecodeHex(s: string) returns (r: Result<seq<Byte>>)
    requires |s| % 2 == 0
    ensures r == if IsHex(s) then Ok(FromHex(s)) else Err(HexNotValid)
  {
    hide DigitValue, FromHex;
    var data: seq<Byte> := [];
    var i := 0;
    assert s[0..] == s;
    while i < |s|
      invariant 0 <= i <= |s| && i % 2 == 0
      invariant forall j | 0 <= j < i :: DigitValue(s[j]) >= 0
      invariant IsHex(s) ==> IsHex(s[i..]) && data + FromHex(s[i..]) == FromHex(s)
    {
      var hi, lo := DigitValue(s[i]), DigitValue(s[i + 1]);
      if hi < 0 || lo < 0 {
        return Err(HexNotValid);
      }
      if IsHex(s) {
        FromHexAt(s, i);
      }
      data := data + [hi * 16 + lo];
      i := i + 2;
    }
    EmptyHex(s[i..]);
    assert IsHex(s) && data + [] == data;
    return Ok(data);
  }

  class OboeMetadata {
    var version: Byte
    var taskID: seq<Byte>
    var opID: seq<Byte>
    var taskLen: nat
    var opLen: nat
    var flags: Byte

    function Abs(): Metadata
      reads this
    {
      Metadata(version, taskID, opID, taskLen, opLen, flags)
    }

    method Init()
      modifies this
      ensures WellFormed(Abs()) && version == CURRENT_VERSION && taskLen == |taskID| == 20 && opLen == |opID| == 8
    {
      version := CURRENT_VERSION;
      taskLen := 20;
      opLen := 8;
      taskID := seq(20, _ => 0);
      opID := seq(8, _ => 0);
    }

    /** Packs the metadata into a buffer, unless that is too short. */
    method Pack(buf: array<Byte>) returns (r: Result<nat>)
      modifies buf
      ensures taskLen == 0 || opLen == 0 ==> r == Err(InvalidLength)
      ensures taskLen != 0 && opLen != 0 ==>
        var n := taskLen + opLen + 2;
        if buf.Length < n then r == Err(BufferTooShort)
        else r == Ok(n) && buf[..] == PackedInto(old(buf[..]), Abs())
      ensures r.Err? ==> buf[..] == old(buf[..])
      ensures forall k | 1 <= k < buf.Length && (k >= taskLen + opLen + 2 || |taskID| < k <= taskLen
                                                 || 1 + taskLen + |opID| <= k <= taskLen + opLen) ::
        buf[k] == old(buf[k])
    {
      hide HeaderByte;
      if taskLen == 0 || opLen == 0 {
        return Err(InvalidLength);
      }
      var reqLen := taskLen + opLen + 2;
      if buf.Length < reqLen {
        return Err(BufferTooShort);
      }
      buf[0] := HeaderByte(version, taskLen, opLen);
      forall i | 0 <= i < taskLen && i < |taskID| {
        buf[1 + i] := taskID[i];
      }
      forall i | 0 <= i < opLen && i < |opID| {
        buf[1 + taskLen + i] := opID[i];
      }
      buf[1 + taskLen + opLen] := flags;
      assert forall k: nat | k < buf.Length :: buf[k] == PackedByte(old(buf[..]), Abs(), k);
      return Ok(reqLen);
    }

    /** Unpacks bytes, and leaves the metadata as it is if they are none. */
    method Unpack(data: seq<Byte>) returns (r: Result<()>)
      modifies this
      ensures r.Ok? <==> Unpacked(data).Ok?
      ensures if r.Ok? then Abs() == Unpacked(data).value else Abs() == old(Abs()) && r.error == Unpacked(data).error
    {
      if |data| == 0 {
        return Err(EmptyBuffer);
      }
      var header := data[0];
      if header / 16 != CURRENT_VERSION {
        return Err(BadVersion);
      }
      var task := (header % 4 + 1) * 4;
      if task == 16 {
        task := 20;
      }
      var op := (header / 8 % 2 + 1) * 4;
      if task + op + 2 > |data| {
        return Err(WrongHeaderLength);
      }
      version := header / 16;
      taskLen := task;
      opLen := op;
      taskID := data[1..1 + task];
      opID := data[1 + task..1 + task + op];
      flags := data[1 + task + op];
      return Ok(());
    }

    /** Reads a string; the metadata is changed if it can be unpacked, also when its task ID then
        proves to be invalid. */
    method FromString(buf: string) returns (r: Result<()>)
      modifies this
      ensures r.Ok? <==> FromStringOf(buf).Ok?
      ensures if r.Ok? then Abs() == FromStringOf(buf).value else r.error == FromStringOf(buf).error
      ensures r.Err? && r.error != InvalidTaskId ==> Abs() == old(Abs())
    {
      if |buf| % 2 == 1 {
        return Err(HexNotEven);
      }
      if |buf| / 2 > MAX_PACKED {
        return Err(TooManyHex);
      }
      var decoded := DecodeHex(buf);
      if decoded.Err? {
        return Err(HexNotValid);
      }
      r := Unpack(decoded.value);
      if r.Err? {
        return;
      }
      if InvalidTask(taskID) {
        return Err(InvalidTaskId);
      }
    }

    /** The digits of what is packed into a new buffer. */
    method ToString() returns (r: Result<string>)
      ensures r ==
        if taskLen == 0 || opLen == 0 then Err(InvalidLength)
        else if taskLen + opLen + 2 > STRING_BUFFER then Err(BufferTooShort)
        else Ok(ToHex(PackedInto(seq(STRING_BUFFER, _ => 0), Abs())[..taskLen + opLen + 2]))
      ensures WellFormed(Abs()) ==> r == Ok(ToStringOf(Abs()))
    {
      hide HeaderByte, PackedInto, Packed;
      var buf := new Byte[STRING_BUFFER](_ => 0);
      assert buf[..] == seq(STRING_BUFFER, _ => 0);
      ghost var zeros := buf[..];
      if WellFormed(Abs()) { PackedIsInFront(zeros, Abs()); }
      var packed := Pack(buf);
      if packed.Err? {
        return Err(packed.error);
      }
      assert buf[..packed.value] == buf[..][..packed.value];
      return Ok(ToHex(buf[..packed.value]));
    }
  }
}
