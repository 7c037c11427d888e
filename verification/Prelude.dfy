/** Small vocabulary shared by the models: optional values, bytes and sequence facts. */
module Prelude {

  datatype Option<+T> = None | Some(value: T)

  /** One octet of a file or of a PCM payload. */
  newtype byte = x: int | 0 <= x < 256

  type Bytes = seq<byte>

  /** The largest length. */
  const USIZE_MAX: nat := 0xFFFF_FFFF_FFFF_FFFF

  function Min(a: int, b: int): int {
    if a < b then a else b
  }

  function Max(a: int, b: int): int {
    if a > b then a else b
  }

  /** True when `whole` ends with `tail`. */
  ghost predicate IsSuffix<T>(tail: seq<T>, whole: seq<T>) {
    |tail| <= |whole| && whole[|whole| - |tail|..] == tail
  }

  lemma SuffixOfExtension<T>(tail: seq<T>, whole: seq<T>, more: seq<T>)
    requires IsSuffix(tail, whole)
    ensures IsSuffix(tail + more, whole + more)
  {
    var k := |whole| - |tail|;
    assert (whole + more)[k..] == whole[k..] + more;
  }

  lemma SuffixOfSuffix<T>(head: seq<T>, tail: seq<T>, whole: seq<T>)
    requires IsSuffix(head + tail, whole)
    ensures IsSuffix(tail, whole)
  {
    var k := |whole| - |head + tail|;
    assert whole[k..][|head|..] == (head + tail)[|head|..] == tail;
    assert whole[k..][|head|..] == whole[k + |head|..];
  }
}
