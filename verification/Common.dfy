/** Types that several modules share. */
module Common {

  datatype Option<T> = None | Some(value: T)

  type Byte = b: int | 0 <= b < 256

  const INT64_LIMIT := 0x8000_0000_0000_0000
  const UINT64_LIMIT := 0x1_0000_0000_0000_0000

  /** The values of an int64. */
  type Int64 = v: int | -INT64_LIMIT <= v < INT64_LIMIT

  /** A 64-bit pattern read as unsigned. */
  function Unsigned(v: Int64): (u: nat)
    ensures u < UINT64_LIMIT && (v >= 0 ==> u == v) && (v < 0 ==> u >= INT64_LIMIT)
  {
    if v < 0 then v + UINT64_LIMIT else v
  }

  /** And read as signed. */
  function Signed(u: nat): (v: Int64)
    requires u < UINT64_LIMIT
    ensures Unsigned(v) == u
  {
    if u >= INT64_LIMIT then u - UINT64_LIMIT else u
  }

  lemma Regroup<T>(a: seq<T>, b: seq<T>, c: seq<T>)
    ensures (a + b) + c == a + (b + c)
  {
  }

  lemma SameSize<T>(a: seq<T>, b: seq<T>)
    requires multiset(a) == multiset(b)
    ensures |a| == |b|
  {
    assert |multiset(a)| == |a| && |multiset(b)| == |b|;
  }
}
