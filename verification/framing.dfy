/** The wire frame of one message: a 4-byte signed int holding the payload's
    byte count, then the payload, the message text in Encoding.Unicode. */
module Framing {
  import opened Wrappers
  import opened Unicode

  const MinInt32 := -0x8000_0000
  const MaxInt32 := 0x7FFF_FFFF

  datatype FrameError =
    | TruncatedHeader    // fewer than 4 bytes to read the header from
    | NegativeLength     // the header is negative: no buffer of that size exists
    | TruncatedPayload   // fewer payload bytes than the header announces
    | UndecodableText    // the payload is not well-formed UTF-16LE

  /** The first four bytes read as a little-endian two's-complement int. */
  function ReadInt(bytes: seq<Byte>): (n: int)
    requires |bytes| >= 4
    ensures MinInt32 <= n <= MaxInt32
  {
    var u := bytes[0] as int + 0x100 * (bytes[1] as int + 0x100 * (bytes[2] as int + 0x100 * bytes[3] as int));
    if u > MaxInt32 then u - 0x1_0000_0000 else u
  }

  /** A 32-bit int as four little-endian two's-complement bytes. */
  function WriteInt(n: int): (bytes: seq<Byte>)
    requires MinInt32 <= n <= MaxInt32
    ensures |bytes| == 4
    ensures forall rest :: ReadInt(bytes + rest) == n
  {
    var u := if n < 0 then n + 0x1_0000_0000 else n;
    var q1 := u / 0x100;
    var q2 := q1 / 0x100;
    var q3 := q2 / 0x100;
    var bytes := [u % 0x100, q1 % 0x100, q2 % 0x100, q3];
    assert forall rest: seq<Byte> :: (bytes + rest)[..4] == bytes;
    bytes
  }

  /** The frame SendMessageToServer writes for msg. */
  function WriteFrame(msg: string): (frame: seq<Byte>)
    requires |GetBytes(msg)| <= MaxInt32
    ensures |frame| == 4 + |GetBytes(msg)|
    ensures ReadInt(frame) == |GetBytes(msg)|
    ensures frame[4..] == GetBytes(msg)
  {
    var payload := GetBytes(msg);
    var frame := WriteInt(|payload|) + payload;
    assert frame[4..] == payload;
    frame
  }

  /** The Data branch of the client's event loop: read the header, then
      that many bytes, then decode them; bytes after the payload are not
      looked at. */
  function ReadFrame(data: seq<Byte>): (r: Result<string, FrameError>)
    ensures r.Success? ==>
      && |data| >= 4
      && 0 <= ReadInt(data) <= |data| - 4
      && GetBytes(r.value) == data[4..4 + ReadInt(data)]
    ensures r == Failure(TruncatedHeader) <==> |data| < 4
    ensures r == Failure(NegativeLength) <==> |data| >= 4 && ReadInt(data) < 0
    ensures r == Failure(TruncatedPayload) <==> |data| >= 4 && 0 <= ReadInt(data) && |data| - 4 < ReadInt(data)
  {
    if |data| < 4 then Failure(TruncatedHeader)
    else
      var size := ReadInt(data);
      if size < 0 then Failure(NegativeLength)
      else if |data| - 4 < size then Failure(TruncatedPayload)
      else
        match GetString(data[4..4 + size])
        case Some(msg) => Success(msg)
        case None => Failure(UndecodableText)
  }

  /* ---------------------------------------------------------------------
     Lemmas
     --------------------------------------------------------------------- */

  /** The reader recovers exactly the message the writer framed, whatever
      follows the frame in the stream. */
  lemma FrameRoundTrip(msg: string, rest: seq<Byte>)
    requires |GetBytes(msg)| <= MaxInt32
    ensures ReadFrame(WriteFrame(msg) + rest) == Success(msg)
  {
    var frame := WriteFrame(msg);
    var data := frame + rest;
    var n := |GetBytes(msg)|;
    assert data[..4] == frame[..4];
    assert ReadInt(data) == n by {
      assert WriteInt(n) == frame[..4];
      assert data == WriteInt(n) + (GetBytes(msg) + rest);
    }
    assert data[4..4 + n] == GetBytes(msg);
    GetStringOfGetBytes(msg);
  }

  /** A message of BMP characters costs two payload bytes per character. */
  lemma BmpFrameSize(msg: string)
    requires IsBmp(msg)
    requires 2 * |msg| <= MaxInt32
    ensures |WriteFrame(msg)| == 4 + 2 * |msg|
    ensures ReadInt(WriteFrame(msg)) == 2 * |msg|
  {
  }
}
