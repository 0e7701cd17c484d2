/** Option and Result values shared by the models. */
module Common {

  datatype Option<+T> = None | Some(value: T)

  datatype Result<+R, +E> = Success(value: R) | Failure(error: E)
}

/** Slices of slices. */
module Slices {

  lemma SliceOfSlice<T>(s: seq<T>, lo: nat, hi: nat, i: nat, j: nat)
    requires lo <= hi <= |s| && i <= j <= hi - lo
    ensures s[lo..hi][i..j] == s[lo + i..lo + j]
  {
    var a, b := s[lo..hi][i..j], s[lo + i..lo + j];
    assert forall k :: 0 <= k < |a| ==> a[k] == s[lo + (i + k)] == b[k];
  }
}

/** Bytes and the little-endian fields that ZIP records are made of. */
module Bytes {

  type byte = x: int | 0 <= x < 0x100

  /** `struct.unpack_from("<H", b, i)`. */
  function Le16(b: seq<byte>, i: nat): (v: nat)
    requires i + 2 <= |b|
    ensures v < 0x1_0000
  {
    b[i] as int + 0x100 * (b[i + 1] as int)
  }

  /** `struct.unpack_from("<I", b, i)`. */
  function Le32(b: seq<byte>, i: nat): (v: nat)
    requires i + 4 <= |b|
    ensures v < 0x1_0000_0000
  {
    Le16(b, i) + 0x1_0000 * Le16(b, i + 2)
  }

  /** `struct.pack("<H", v)`; out of range values raise in the source. */
  function Put16(v: nat): (b: seq<byte>)
    requires v < 0x1_0000
    ensures |b| == 2 && Le16(b, 0) == v
  {
    [v % 0x100, v / 0x100]
  }

  /** `struct.pack("<I", v)`. */
  function Put32(v: nat): (b: seq<byte>)
    requires v < 0x1_0000_0000
    ensures |b| == 4 && Le32(b, 0) == v
  {
    Put16(v % 0x1_0000) + Put16(v / 0x1_0000)
  }

  /** A field reads the same from a slice as from the sequence it was cut out of. */
  lemma LeSlice(b: seq<byte>, lo: nat, hi: nat, i: nat)
    requires lo <= hi <= |b|
    ensures lo + i + 2 <= hi ==> Le16(b[lo..hi], i) == Le16(b, lo + i)
    ensures lo + i + 4 <= hi ==> Le32(b[lo..hi], i) == Le32(b, lo + i)
  {
  }
}
