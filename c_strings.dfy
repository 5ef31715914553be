/** NUL-terminated byte strings and strncpy, as the manager uses them to fill
    the fixed-size ssid and password fields of a station configuration. */
module CStrings {
  import opened EspIdf

  /** The C string at the start of a byte buffer: its bytes before the first
      NUL, or all of them when it holds none. */
  function CString(s: seq<uint8>): (r: seq<uint8>)
    ensures |r| <= |s| && r == s[..|r|]
    ensures forall i :: 0 <= i < |r| ==> r[i] != 0
    ensures |r| < |s| ==> s[|r|] == 0
  {
    if s == [] || s[0] == 0 then [] else [s[0]] + CString(s[1..])
  }

  /** The n bytes strncpy(dst, src, n) writes: the C string of src cut to n
      bytes, padded with NULs up to n. */
  function StrNCopy(src: seq<uint8>, n: nat): (r: seq<uint8>)
    ensures |r| == n
    ensures r[..Min(|CString(src)|, n)] == CString(src)[..Min(|CString(src)|, n)]
    ensures forall i :: Min(|CString(src)|, n) <= i < n ==> r[i] == 0
  {
    var c := CString(src);
    var k := Min(|c|, n);
    c[..k] + seq(n - k, _ => 0 as uint8)
  }

  /** A zero-filled field of `size` bytes after strncpy(field, src, size - 1):
      its last byte is never written and stays NUL. */
  function CopiedField(src: seq<uint8>, size: nat): (r: seq<uint8>)
    requires size >= 1
    ensures |r| == size && r[size - 1] == 0
  {
    StrNCopy(src, size - 1) + [0]
  }

  /** A NUL ends the C string whatever follows it. */
  lemma {:induction false} CStringOfTerminated(p: seq<uint8>, rest: seq<uint8>)
    requires forall i :: 0 <= i < |p| ==> p[i] != 0
    ensures CString(p + [0] + rest) == p
  {
    if p != [] {
      assert (p + [0] + rest)[1..] == p[1..] + [0] + rest;
      CStringOfTerminated(p[1..], rest);
    }
  }

  /** Reading a copied field back as a C string gives the input's C string
      truncated to size - 1 bytes: a NUL-terminated prefix of the input that
      is the whole input whenever it fits. */
  lemma FieldReadsBack(src: seq<uint8>, size: nat)
    requires size >= 1
    ensures CString(CopiedField(src, size)) == CString(src)[..Min(|CString(src)|, size - 1)]
    ensures |CString(src)| < size ==> CString(CopiedField(src, size)) == CString(src)
  {
    var c := CString(src);
    var k := Min(|c|, size - 1);
    var pad := seq(size - 1 - k, _ => 0 as uint8);
    assert CopiedField(src, size) == c[..k] + [0] + pad;
    CStringOfTerminated(c[..k], pad);
  }
}
