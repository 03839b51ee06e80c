/**
 Length-prefixed notification frames: the encoder that src/services/notify.ts and
 src/durable/notifications-hub.ts each have a copy of, and a decoder that reads any stream of frames
 back. Bytes are a newtype of their own.
 */
module Frames {
  import opened Base
  import opened Bits

  newtype Byte = x: int | 0 <= x < 256

  /** The base-128 code of a length, least significant group first, high bit set on all but the last. */
  function Varint(n: nat): (r: seq<Byte>)
    ensures r != []
  {
    if n < 128 then [n as Byte] else [(n % 128 + 128) as Byte] + Varint(n / 128)
  }

  function Frame(body: seq<Byte>): seq<Byte> {
    Varint(ToUint32(|body|)) + body
  }

  /** The low seven bits of a word, and the word without them. */
  lemma LowGroup(word: nat)
    ensures And(word, 0x7f) == word % 128 && Shr(word, 7) == word / 128
  {
    AndLowMask(word, 7);
    ShiftBySeven(word);
    ShiftBySeven(word / 128);
  }

  lemma ShiftBySeven(a: nat)
    ensures Shl(a, 7) == 128 * a && Shr(a, 7) == a / 128 && Pow2(7) == 128
  {
    ShiftByFour(a);
    assert Shl(a, 5) == 2 * Shl(a, 4);
    assert Shl(a, 6) == 2 * Shl(a, 5);
    var b := a / 16;
    ShiftsAdd(a, 4, 3);
    assert Shr(b, 3) == Shr(b / 2, 2) == Shr(b / 2 / 2, 1) == b / 2 / 2 / 2;
    assert Pow2(3) == 8;
    assert Pow2(5) == 4 * Pow2(3);
  }

  lemma VarintStep(done: seq<Byte>, word: nat, group: Byte, total: nat)
    requires done + Varint(word) == Varint(total)
    requires group as nat == if word < 128 then word else word % 128 + 128
    ensures word < 128 ==> done + [group] == Varint(total)
    ensures word >= 128 ==> (done + [group]) + Varint(word / 128) == Varint(total)
  {
    if word >= 128 {
      assert (done + [group]) + Varint(word / 128) == done + ([group] + Varint(word / 128));
    }
  }

  /** The loop of the encoder over the length. The shift works on 32-bit words. */
  method LengthBytes(count: nat) returns (lengthBytes: seq<Byte>)
    ensures lengthBytes == Varint(ToUint32(count))
  {
    lengthBytes := [];
    var length: nat := count;
    ghost var total := ToUint32(count);
    while true
      invariant lengthBytes == [] || 0 < length < TWO_32
      invariant lengthBytes + Varint(ToUint32(length)) == Varint(total)
      decreases ToUint32(length), length
    {
      var word := ToUint32(length);
      LowGroup(word);
      var byte := And(word, 0x7f);
      length := Shr(word, 7);
      assert ToUint32(length) == length;
      if length > 0 {
        OrTopBit(byte);
        byte := Or(byte, 0x80);
      }
      VarintStep(lengthBytes, word, byte as Byte, total);
      lengthBytes := lengthBytes + [byte as Byte];
      if length == 0 { break; }
    }
  }

  /** The two identical copies of the encoder. */
  method WithVarintLength(body: array<Byte>) returns (out: array<Byte>)
    ensures fresh(out) && out[..] == Frame(body[..])
  {
    var lengthBytes := LengthBytes(body.Length);
    out := new Byte[|lengthBytes| + body.Length];
    forall i | 0 <= i < |lengthBytes| { out[i] := lengthBytes[i]; }
    forall i | 0 <= i < body.Length { out[|lengthBytes| + i] := body[i]; }
    assert out[..] == lengthBytes + body[..];
  }

  /** The group and the flag do not overlap, so setting the flag adds 128. */
  lemma OrTopBit(group: nat)
    requires group < 128
    ensures Or(group, 0x80) == group + 128
  {
    OrCommutes(group, 0x80);
    ShiftBySeven(1);
    OrDisjoint(1, group, 7);
  }

  lemma {:induction false} OrCommutes(a: nat, b: nat)
    ensures Or(a, b) == Or(b, a)
    decreases a + b
  {
    if a > 0 && b > 0 { OrCommutes(a / 2, b / 2); }
  }

  // ---------------------------------------------------------------------
  // The receiving side
  // ---------------------------------------------------------------------

  /** Reads one base-128 number: its value and how many bytes it took. */
  function ReadVarint(stream: seq<Byte>): (r: Option<(nat, nat)>)
    ensures r.Some? ==> 0 < r.value.1 <= |stream|
  {
    if stream == [] then None
    else if stream[0] < 128 then Some((stream[0] as nat, 1))
    else
      var rest := ReadVarint(stream[1..]);
      if rest.None? then None else Some((stream[0] as nat - 128 + 128 * rest.value.0, rest.value.1 + 1))
  }

  /** One frame off the front of a stream: its body and what follows. */
  function ReadFrame(stream: seq<Byte>): (r: Option<(seq<Byte>, seq<Byte>)>)
    ensures r.Some? ==> |r.value.1| < |stream|
  {
    var head := ReadVarint(stream);
    if head.None? || head.value.0 > |stream| - head.value.1 then None
    else
      var rest := stream[head.value.1..];
      Some((rest[..head.value.0], rest[head.value.0..]))
  }

  function ReadFrames(stream: seq<Byte>): Option<seq<seq<Byte>>>
    decreases |stream|
  {
    if stream == [] then Some([])
    else
      var first := ReadFrame(stream);
      if first.None? then None
      else
        var more := ReadFrames(first.value.1);
        if more.None? then None else Some([first.value.0] + more.value)
  }

  lemma {:induction false} ReadVarintInverts(n: nat, rest: seq<Byte>)
    ensures ReadVarint(Varint(n) + rest) == Some((n, |Varint(n)|))
  {
    var stream := Varint(n) + rest;
    if n >= 128 {
      ReadVarintInverts(n / 128, rest);
      assert stream[1..] == Varint(n / 128) + rest;
    }
  }

  /** No shorter code exists: every byte string that reads as n is at least as long. */
  lemma {:induction false} VarintIsMinimal(code: seq<Byte>, n: nat)
    requires ReadVarint(code) == Some((n, |code|))
    ensures |Varint(n)| <= |code|
    decreases |code|
  {
    if code[0] >= 128 && n >= 128 {
      var rest := ReadVarint(code[1..]);
      assert n / 128 == rest.value.0;
      VarintIsMinimal(code[1..], rest.value.0);
    }
  }

  /** The limit below which a body's length survives the 32-bit shift. */
  ghost predicate Encodable(body: seq<Byte>) {
    |body| < TWO_32
  }

  lemma FrameIsReadBack(body: seq<Byte>, rest: seq<Byte>)
    requires Encodable(body)
    ensures ReadFrame(Frame(body) + rest) == Some((body, rest))
  {
    var stream := Frame(body) + rest;
    ReadVarintInverts(|body|, body + rest);
    assert stream == Varint(|body|) + (body + rest);
    assert stream[|Varint(|body|)|..] == body + rest;
  }

  /** Two streams that start with frames are equal only if the frames' bodies and the remainders are. */
  lemma FramesAreUniquelyDecodable(a: seq<Byte>, x: seq<Byte>, b: seq<Byte>, y: seq<Byte>)
    requires Encodable(a) && Encodable(b) && Frame(a) + x == Frame(b) + y
    ensures a == b && x == y
  {
    FrameIsReadBack(a, x);
    FrameIsReadBack(b, y);
  }

  function Concatenated(bodies: seq<seq<Byte>>): seq<Byte> {
    if bodies == [] then [] else Frame(bodies[0]) + Concatenated(bodies[1..])
  }

  /** Any concatenation of frames reads back as the same list of bodies. */
  lemma {:induction false} StreamIsReadBack(bodies: seq<seq<Byte>>)
    requires forall b | b in bodies :: Encodable(b)
    ensures ReadFrames(Concatenated(bodies)) == Some(bodies)
  {
    if bodies != [] {
      FrameIsReadBack(bodies[0], Concatenated(bodies[1..]));
      StreamIsReadBack(bodies[1..]);
      assert [bodies[0]] + bodies[1..] == bodies;
    }
  }

  /** From 2^32 bytes on the prefix wraps around, and the frame no longer reads back. */
  lemma ReadBackIffEncodable(body: seq<Byte>)
    ensures ReadFrame(Frame(body)) == Some((body, [])) <==> Encodable(body)
  {
    var n := ToUint32(|body|);
    ReadVarintInverts(n, body);
    assert Frame(body)[|Varint(n)|..] == body;
    if Encodable(body) {
      assert Frame(body) + [] == Frame(body);
      FrameIsReadBack(body, []);
    } else {
      assert n < |body|;
      assert |body[..n]| == n;
    }
  }

  /** The MessagePack array [6]. */
  const PING_BODY: seq<Byte> := [0x91, 0x06]
  const PING_FRAME: seq<Byte> := [2, 0x91, 0x06]

  /** A stream begins with the bytes of the ping frame exactly when its first frame is a ping. */
  lemma PingFrame(body: seq<Byte>, rest: seq<Byte>)
    requires Encodable(body)
    ensures PING_FRAME <= Frame(body) + rest <==> body == PING_BODY
  {
    assert ToUint32(2) == 2 && Varint(2) == [2];
    assert Frame(PING_BODY) == PING_FRAME;
    var stream := Frame(body) + rest;
    if PING_FRAME <= stream {
      assert stream == Frame(PING_BODY) + stream[3..];
      FramesAreUniquelyDecodable(body, rest, PING_BODY, stream[3..]);
    }
  }
}
