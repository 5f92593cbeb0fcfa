/** pkg/binary: a length-prefixed little-endian codec for strings and 64-bit integers over a
    byte stream. The stream is the sequence of bytes still to be read; every read returns
    what it consumed and the rest. */
module Binary {
  import opened Wrappers
  import opened Errors
  import opened GoStrings

  newtype byte = x: int | 0 <= x < 256

  function Pow256(w: nat): (p: nat)
    ensures p >= 1
  {
    if w == 0 then 1 else 256 * Pow256(w - 1)
  }

  const TwoTo32: nat := 0x1_0000_0000
  const TwoTo64: nat := 0x1_0000_0000_0000_0000

  /** The `width` bytes of n, least significant first (encoding/binary.LittleEndian). */
  function LittleEndian(n: nat, width: nat): (bs: seq<byte>)
    ensures |bs| == width
  {
    if width == 0 then [] else [(n % 256) as byte] + LittleEndian(n / 256, width - 1)
  }

  /** The number whose little-endian bytes are bs. */
  function FromLittleEndian(bs: seq<byte>): (n: nat)
    ensures n < Pow256(|bs|)
  {
    if bs == [] then 0 else bs[0] as nat + 256 * FromLittleEndian(bs[1..])
  }

  /** io.ReadFull as binary.Read uses it: nothing available is io.EOF, a partial value is
      io.ErrUnexpectedEOF. */
  function ReadFull(stream: seq<byte>, n: nat): (r: Result<(seq<byte>, seq<byte>), Error>)
    requires n > 0
    ensures r.Ok? <==> |stream| >= n
    ensures r.Ok? ==> r.value.0 + r.value.1 == stream && |r.value.0| == n
  {
    if |stream| >= n then Ok((stream[..n], stream[n..]))
    else if stream == [] then Err(Plain("EOF"))
    else Err(Plain("unexpected EOF"))
  }

  /** One Read call of the underlying reader: as many of the n requested bytes as are
      available; io.EOF when bytes are requested and none are left. */
  function ReadSome(stream: seq<byte>, n: nat): (r: Result<(seq<byte>, seq<byte>), Error>)
    ensures r.Err? <==> n > 0 && stream == []
    ensures r.Ok? ==> r.value.0 + r.value.1 == stream
    ensures r.Ok? ==> |r.value.0| == (if n <= |stream| then n else |stream|)
  {
    if n > 0 && stream == [] then Err(Plain("EOF"))
    else
      var k := if n <= |stream| then n else |stream|;
      Ok((stream[..k], stream[k..]))
  }

  /** WriteString: the length as a 32-bit little-endian number (Go's uint32 conversion keeps
      the low 32 bits), then the bytes of s. */
  function WriteString(s: seq<byte>): (out: seq<byte>)
    ensures |out| == 4 + |s| && out[4..] == s
    ensures FromLittleEndian(out[..4]) == |s| % TwoTo32
  {
    var prefix := LittleEndian(|s| % TwoTo32, 4);
    FromLittleEndianOf(|s| % TwoTo32, 4);
    assert (prefix + s)[..4] == prefix;
    prefix + s
  }

  /** ReadString: the length prefix, then one read of that many bytes; a short read is an
      error naming both counts. */
  function ReadString(stream: seq<byte>): (r: Result<(seq<byte>, seq<byte>), Error>)
    ensures |stream| < 4 ==> r.Err?
    ensures r.Ok? ==> r.value.0 + r.value.1 == stream[4..]
    ensures r.Ok? ==> |r.value.0| == FromLittleEndian(stream[..4])
  {
    match ReadFull(stream, 4)
    case Err(e) => Err(e)
    case Ok((prefix, rest)) =>
      var n := FromLittleEndian(prefix);
      match ReadSome(rest, n)
      case Err(e) => Err(e)
      case Ok((data, rest2)) =>
        if |data| != n then
          Err(Plain("expect to read " + Itoa(n) + " data, but read " + Itoa(|data|)))
        else Ok((data, rest2))
  }

  /** WriteInt64: the 8 little-endian bytes of a uint64. */
  function WriteInt64(i: nat): (out: seq<byte>)
    requires i < TwoTo64
    ensures |out| == 8 && FromLittleEndian(out) == i
  {
    FromLittleEndianOf(i, 8);
    LittleEndian(i, 8)
  }

  /** ReadInt64: 8 little-endian bytes. */
  function ReadInt64(stream: seq<byte>): (r: Result<(nat, seq<byte>), Error>)
    ensures r.Ok? <==> |stream| >= 8
    ensures r.Ok? ==> r.value.0 < TwoTo64 && r.value.1 == stream[8..]
  {
    match ReadFull(stream, 8)
    case Err(e) => Err(e)
    case Ok((data, rest)) =>
      assert data == stream[..8];
      assert Pow256(8) == TwoTo64;
      Ok((FromLittleEndian(data), rest))
  }

  // ---------------------------------------------------------------------------------------

  /** Decoding the little-endian bytes of a number that fits gives the number back. */
  lemma {:induction false} FromLittleEndianOf(n: nat, width: nat)
    requires n < Pow256(width)
    ensures FromLittleEndian(LittleEndian(n, width)) == n
    decreases width
  {
    if width > 0 {
      FromLittleEndianOf(n / 256, width - 1);
      var bs := LittleEndian(n, width);
      assert bs[1..] == LittleEndian(n / 256, width - 1);
    }
  }

  /** A string written and read back comes back whole, and the rest of the stream is left
      unread. */
  lemma StringRoundTrip(s: seq<byte>, rest: seq<byte>)
    requires |s| < TwoTo32
    ensures ReadString(WriteString(s) + rest) == Ok((s, rest))
  {
    var stream := WriteString(s) + rest;
    assert stream[..4] == WriteString(s)[..4];
    assert stream[4..] == s + rest;
    assert (s + rest)[..|s|] == s;
    assert (s + rest)[|s|..] == rest;
  }

  /** A stream too short for its length prefix's promise fails with the counts. */
  lemma ShortStringFails(stream: seq<byte>)
    requires |stream| > 4
    requires |stream| - 4 < FromLittleEndian(stream[..4])
    ensures ReadString(stream)
         == Err(Plain("expect to read " + Itoa(FromLittleEndian(stream[..4])) + " data, but read "
               + Itoa(|stream| - 4)))
  {
  }

  /** A truncated length prefix is an error and no string. */
  lemma TruncatedPrefixFails(stream: seq<byte>)
    requires |stream| < 4
    ensures ReadString(stream) == Err(Plain(if stream == [] then "EOF" else "unexpected EOF"))
  {
  }

  /** Every uint64 written and read back comes back. */
  lemma Int64RoundTrip(i: nat, rest: seq<byte>)
    requires i < TwoTo64
    ensures ReadInt64(WriteInt64(i) + rest) == Ok((i, rest))
  {
    var stream := WriteInt64(i) + rest;
    assert stream[..8] == WriteInt64(i);
    assert stream[8..] == rest;
  }
}
