/** The wire framing written by CsvProcessor::serialize: magic byte, schema id, Avro body. */
module Framing {
  import opened Basics

  type byte = b: int | 0 <= b < 256

  predicate IsInt32(id: int) { -0x8000_0000 <= id < 0x8000_0000 }

  /** The bits of an int32_t as an unsigned number. */
  function Unsigned(id: int): (u: int)
    requires IsInt32(id)
    ensures 0 <= u < 0x1_0000_0000
  {
    if id < 0 then id + 0x1_0000_0000 else id
  }

  function BigEndian(u: int): (bytes: seq<byte>)
    requires 0 <= u < 0x1_0000_0000
    ensures |bytes| == 4
  {
    [u / 0x100_0000, u / 0x1_0000 % 256, u / 0x100 % 256, u % 256]
  }

  function LittleEndian(u: int): (bytes: seq<byte>)
    requires 0 <= u < 0x1_0000_0000
    ensures |bytes| == 4
  {
    [u % 256, u / 0x100 % 256, u / 0x1_0000 % 256, u / 0x100_0000]
  }

  /** htonl: the identity on a big-endian host, a byte swap on a little-endian one. */
  function Htonl(littleHost: bool, u: int): (v: int)
    requires 0 <= u < 0x1_0000_0000
    ensures 0 <= v < 0x1_0000_0000
  {
    if littleHost then u % 256 * 0x100_0000 + u / 0x100 % 256 * 0x1_0000 + u / 0x1_0000 % 256 * 0x100 + u / 0x100_0000
    else u
  }

  /** The four bytes memcpy finds at the address of a 32-bit number. */
  function Memory(littleHost: bool, v: int): (bytes: seq<byte>)
    requires 0 <= v < 0x1_0000_0000
    ensures |bytes| == 4
  {
    if littleHost then LittleEndian(v) else BigEndian(v)
  }

  lemma ByteParts(u: int) returns (a: int, b: int, c: int, d: int)
    requires 0 <= u < 0x1_0000_0000
    ensures 0 <= a < 256 && 0 <= b < 256 && 0 <= c < 256 && 0 <= d < 256
    ensures u == a * 0x100_0000 + b * 0x1_0000 + c * 0x100 + d
    ensures BigEndian(u) == [a, b, c, d] && LittleEndian(u) == [d, c, b, a]
  {
    d := u % 256;
    c := u / 0x100 % 256;
    b := u / 0x1_0000 % 256;
    a := u / 0x100_0000;
    assert u / 0x1_0000 == u / 0x100 / 0x100;
    assert u / 0x100_0000 == u / 0x1_0000 / 0x100;
  }

  lemma Digit(h: int, d: int, k: int, e: int)
    requires h * 256 + d == k * 256 + e && 0 <= d < 256 && 0 <= e < 256
    ensures h == k && d == e
  {
  }

  lemma PartsUnique(a: int, b: int, c: int, d: int)
    requires 0 <= a < 256 && 0 <= b < 256 && 0 <= c < 256 && 0 <= d < 256
    ensures var u := a * 0x100_0000 + b * 0x1_0000 + c * 0x100 + d;
      0 <= u < 0x1_0000_0000 && BigEndian(u) == [a, b, c, d] && LittleEndian(u) == [d, c, b, a]
  {
    var u := a * 0x100_0000 + b * 0x1_0000 + c * 0x100 + d;
    var p, q, r, s := ByteParts(u);
    Digit(a * 0x1_0000 + b * 0x100 + c, d, p * 0x1_0000 + q * 0x100 + r, s);
    Digit(a * 0x100 + b, c, p * 0x100 + q, r);
    Digit(a, b, p, q);
  }

  /** Whatever the host's byte order, the id lands in the buffer most significant byte first. */
  lemma {:induction false} IdBytes(littleHost: bool, u: int)
    requires 0 <= u < 0x1_0000_0000
    ensures Memory(littleHost, Htonl(littleHost, u)) == BigEndian(u)
  {
    var a, b, c, d := ByteParts(u);
    PartsUnique(d, c, b, a);
  }

  function Joined(a: int, b: int, c: int, d: int): int {
    a * 0x100_0000 + b * 0x1_0000 + c * 0x100 + d
  }

  function Frame(id: int, body: seq<byte>): seq<byte>
    requires IsInt32(id)
  {
    [0] + BigEndian(Unsigned(id)) + body
  }

  datatype Decoded = Decoded(id: int, body: seq<byte>)

  /** A consumer's reading of a message: magic byte, big-endian signed id, the rest is the body. */
  function DecodeFrame(data: seq<byte>): Option<Decoded> {
    if |data| < 5 || data[0] != 0 then None
    else
      var u := Joined(data[1], data[2], data[3], data[4]);
      Some(Decoded(if u < 0x8000_0000 then u else u - 0x1_0000_0000, data[5..]))
  }

  lemma FrameRoundTrip(id: int, body: seq<byte>, more: seq<byte>)
    requires IsInt32(id)
    ensures DecodeFrame(Frame(id, body) + more) == Some(Decoded(id, body + more))
    ensures DecodeFrame(Frame(id, body)) == Some(Decoded(id, body))
  {
    var a, b, c, d := ByteParts(Unsigned(id));
    var data := Frame(id, body) + more;
    assert Frame(id, body)[5..] == body && data[5..] == body + more;
    assert data[1] == a && data[2] == b && data[3] == c && data[4] == d;
  }

  /** A frame byte by byte: zero, the 32 bits of the id from the highest down, the body. */
  lemma FrameBytes(id: int, body: seq<byte>)
    requires IsInt32(id)
    ensures var data := Frame(id, body);
      && |data| == 5 + |body| && data[0] == 0 && data[5..] == body
      && data[1] as int * 0x100_0000 + data[2] as int * 0x1_0000 + data[3] as int * 0x100 + data[4] as int
         == id % 0x1_0000_0000
  {
    var a, b, c, d := ByteParts(Unsigned(id));
  }

  /** std::vector<char>, passed by reference. */
  class Buffer {
    var bytes: seq<byte>

    constructor ()
      ensures bytes == []
    {
      bytes := [];
    }
  }

  /** serialize, given what the Avro encoder produced: None is the encoder's exception. */
  method Serialize(encoded: Option<seq<byte>>, schemaId: int, littleHost: bool, out: Buffer) returns (r: int)
    requires IsInt32(schemaId)
    modifies out
    ensures encoded.None? ==> r == -1 && out.bytes == old(out.bytes)
    ensures encoded.Some? ==> r == |out.bytes| && out.bytes == old(out.bytes) + Frame(schemaId, encoded.value)
  {
    if encoded.None? {
      return -1;
    }
    var pos := |out.bytes|;
    out.bytes := out.bytes + [0, 0, 0, 0, 0];
    out.bytes := out.bytes[pos := 0];
    var id := Memory(littleHost, Htonl(littleHost, Unsigned(schemaId)));
    IdBytes(littleHost, Unsigned(schemaId));
    out.bytes := out.bytes[..pos + 1] + id + out.bytes[pos + 5..];
    out.bytes := out.bytes + encoded.value;
    r := |out.bytes|;
  }

  // The one buffer of a row, shared by all topics

  datatype Piece = Piece(id: int, body: seq<byte>) {
    predicate Valid() { IsInt32(id) }
  }

  function Flat<T>(parts: seq<seq<T>>): seq<T> {
    if parts == [] then [] else Flat(parts[..|parts| - 1]) + parts[|parts| - 1]
  }

  lemma {:induction false} FlatFirst<T>(parts: seq<seq<T>>)
    requires parts != []
    ensures Flat(parts) == parts[0] + Flat(parts[1..])
    decreases |parts|
  {
    var n := |parts| - 1;
    if n > 0 {
      FlatFirst(parts[..n]);
      assert parts[..n][1..] == parts[1..][..n - 1];
    }
  }

  function Frames(pieces: seq<Piece>): (frames: seq<seq<byte>>)
    requires forall p <- pieces :: p.Valid()
    ensures |frames| == |pieces|
  {
    if pieces == [] then []
    else
      assert pieces[0].Valid();
      [Frame(pieces[0].id, pieces[0].body)] + Frames(pieces[1..])
  }

  lemma {:induction false} FramesSnoc(pieces: seq<Piece>, p: Piece)
    requires p.Valid() && forall q <- pieces :: q.Valid()
    ensures Frames(pieces + [p]) == Frames(pieces) + [Frame(p.id, p.body)]
  {
    if pieces == [] {
      assert Frames([p]) == [Frame(p.id, p.body)] + Frames([]);
    } else {
      assert pieces[0].Valid() && (pieces + [p])[1..] == pieces[1..] + [p];
      FramesSnoc(pieces[1..], p);
    }
  }

  /** The buffer after the given (id, body) pairs have been serialized into it. */
  function Concatenated(pieces: seq<Piece>): seq<byte>
    requires forall p <- pieces :: p.Valid()
  {
    Flat(Frames(pieces))
  }

  lemma ConcatenatedSnoc(pieces: seq<Piece>, p: Piece)
    requires p.Valid() && forall q <- pieces :: q.Valid()
    ensures Concatenated(pieces + [p]) == Concatenated(pieces) + Frame(p.id, p.body)
  {
    FramesSnoc(pieces, p);
    var frames := Frames(pieces);
    assert (frames + [Frame(p.id, p.body)])[..|frames|] == frames;
  }

  lemma ConcatenatedFirst(pieces: seq<Piece>)
    requires pieces != [] && forall p <- pieces :: p.Valid()
    ensures pieces[0].Valid()
    ensures Concatenated(pieces) == Frame(pieces[0].id, pieces[0].body) + Concatenated(pieces[1..])
  {
    assert pieces[0].Valid();
    FlatFirst(Frames(pieces));
  }

  lemma ConcatenatedLonger(pieces: seq<Piece>)
    requires pieces != [] && forall p <- pieces :: p.Valid()
    ensures |Concatenated(pieces)| >= 5 + |pieces[|pieces| - 1].body|
  {
    var n := |pieces| - 1;
    assert pieces[n].Valid() && pieces == pieces[..n] + [pieces[n]];
    ConcatenatedSnoc(pieces[..n], pieces[n]);
  }

  /** What a consumer decodes is headed by the first frame of the buffer. */
  lemma {:induction false} DecodesFirst(pieces: seq<Piece>)
    requires pieces != [] && forall p <- pieces :: p.Valid()
    ensures DecodeFrame(Concatenated(pieces))
         == Some(Decoded(pieces[0].id, pieces[0].body + Concatenated(pieces[1..])))
  {
    ConcatenatedFirst(pieces);
    FrameRoundTrip(pieces[0].id, pieces[0].body, Concatenated(pieces[1..]));
  }

  lemma BodyWithRest(pieces: seq<Piece>)
    requires pieces != [] && forall p <- pieces :: p.Valid()
    ensures pieces[0].body + Concatenated(pieces[1..]) == pieces[|pieces| - 1].body <==> |pieces| == 1
  {
    var rest := pieces[1..];
    if rest == [] {
      assert pieces[0].body + Concatenated(rest) == pieces[0].body;
    } else {
      ConcatenatedLonger(rest);
    }
  }

  /** A consumer that reads the message carrying the frames of these pieces finds the id and body
      of the last piece, the one of its own topic, exactly when no other frame precedes it. */
  lemma OwnFrameOnly(pieces: seq<Piece>, data: seq<byte>, d: Option<Decoded>)
    requires pieces != [] && forall p <- pieces :: p.Valid()
    requires data == Concatenated(pieces) && d == DecodeFrame(data)
    ensures var own := pieces[|pieces| - 1];
      d == Some(Decoded(own.id, own.body)) <==> |pieces| == 1
  {
    DecodesFirst(pieces);
    BodyWithRest(pieces);
  }
}
