/** Streamed 16-bit audio: samples are two bytes, chunks may end in the middle of one. */
module PcmStream {
  import opened Common

  type byte = b: int | 0 <= b < 256

  /** A little-endian signed 16-bit sample scaled to [-1, 1). */
  function Sample(lo: byte, hi: byte): real {
    var u := lo + 256 * hi;
    (if u < 32768 then u else u - 65536) as real / 32768.0
  }

  /** The two bytes of a signed 16-bit number, low byte first. */
  function BytesOf(v: int): (b: (byte, byte))
    requires -32768 <= v < 32768
  {
    var u := v % 65536;
    (u % 256, u / 256)
  }

  /** Every signed 16-bit number is read back from its two bytes as the fraction it stands for, and every pair of bytes is such a number's. */
  lemma SampleReadsBack(v: int)
    requires -32768 <= v < 32768
    ensures Sample(BytesOf(v).0, BytesOf(v).1) == v as real / 32768.0
  {
    var u := v % 65536;
    assert u == if v >= 0 then v else v + 65536;
    assert u % 256 + 256 * (u / 256) == u;
  }

  lemma BytesAreNumbers(lo: byte, hi: byte) returns (v: int)
    ensures -32768 <= v < 32768 && BytesOf(v) == (lo, hi)
  {
    var u := lo + 256 * hi;
    v := if u < 32768 then u else u - 65536;
    assert v % 65536 == u && u % 256 == lo && u / 256 == hi;
  }

  /** The samples of a whole byte string; a final odd byte belongs to none. */
  function Decode(bytes: seq<byte>): seq<real> {
    if |bytes| < 2 then [] else [Sample(bytes[0], bytes[1])] + Decode(bytes[2..])
  }

  lemma {:induction false} DecodeConcat(a: seq<byte>, b: seq<byte>)
    requires |a| % 2 == 0
    ensures Decode(a + b) == Decode(a) + Decode(b)
  {
    if a == [] {
      assert a + b == b;
    } else {
      assert (a + b)[2..] == a[2..] + b;
      DecodeConcat(a[2..], b);
    }
  }

  lemma {:induction false} DecodeLength(bytes: seq<byte>)
    ensures |Decode(bytes)| == |bytes| / 2
    ensures forall i :: 0 <= i < |bytes| / 2 ==> Decode(bytes)[i] == Sample(bytes[2 * i], bytes[2 * i + 1])
  {
    if |bytes| >= 2 {
      DecodeLength(bytes[2..]);
    }
  }

  function Held(left: Option<byte>): seq<byte> {
    match left
    case None => []
    case Some(b) => [b]
  }

  /** A chunk as it is read: a window of bytes that starts `offset` bytes into its underlying buffer. */
  datatype View = View(bytes: seq<byte>, offset: nat)

  function AllBytes(chunks: seq<View>): seq<byte> {
    if chunks == [] then [] else chunks[0].bytes + AllBytes(chunks[1..])
  }

  /** One chunk as floats, filled sample by sample; a window of samples cannot start at an odd offset. */
  method ToFloats(chunk: View) returns (floats: Result<seq<real>>)
    requires |chunk.bytes| % 2 == 0
    ensures floats == if chunk.offset % 2 == 0 then Ok(Decode(chunk.bytes)) else Err
  {
    if chunk.offset % 2 != 0 {
      return Err;
    }
    var bytes := chunk.bytes;
    DecodeLength(bytes);
    var float32 := new real[|bytes| / 2];
    for i := 0 to |bytes| / 2
      invariant forall k :: 0 <= k < i ==> float32[k] == Sample(bytes[2 * k], bytes[2 * k + 1])
    {
      float32[i] := Sample(bytes[2 * i], bytes[2 * i + 1]);
    }
    assert float32[..] == Decode(bytes);
    floats := Ok(float32[..]);
  }

  /** Carry the odd byte over to the next chunk; whatever had to be copied for that starts at offset zero. */
  method Align(left: Option<byte>, value: View) returns (chunk: View, next: Option<byte>)
    ensures |chunk.bytes| % 2 == 0 && chunk.bytes + Held(next) == Held(left) + value.bytes
    ensures chunk.offset == if left.Some? || |value.bytes| % 2 == 1 then 0 else value.offset
  {
    chunk := value;
    if left.Some? {
      chunk := View([left.value] + chunk.bytes, 0);
    }
    next := None;
    if |chunk.bytes| % 2 != 0 {
      next := Some(chunk.bytes[|chunk.bytes| - 1]);
      chunk := View(chunk.bytes[..|chunk.bytes| - 1], 0);
    }
  }

  /** The chunk is converted where it lies although it starts at an odd offset. */
  predicate Misaligned(value: View, carrying: bool) {
    !carrying && value.bytes != [] && |value.bytes| % 2 == 0 && value.offset % 2 == 1
  }

  predicate AllAligned(chunks: seq<View>, carrying: bool)
    decreases chunks
  {
    chunks == [] ||
    (!Misaligned(chunks[0], carrying) && AllAligned(chunks[1..], carrying != (|chunks[0].bytes| % 2 == 1)))
  }

  /** The byte of a string that no sample uses. */
  function OddByte(bytes: seq<byte>): seq<byte> {
    if |bytes| % 2 == 1 then [bytes[|bytes| - 1]] else []
  }

  lemma DecodeIgnoresOddByte(chunk: seq<byte>, next: seq<byte>)
    requires |chunk| % 2 == 0 && |next| < 2
    ensures Decode(chunk + next) == Decode(chunk) && OddByte(chunk + next) == next
  {
    DecodeConcat(chunk, next);
    assert Decode(chunk) + [] == Decode(chunk);
  }

  /** What was not decoded of `a` is decoded together with what follows. */
  lemma DecodeGoesOn(a: seq<byte>, b: seq<byte>)
    ensures Decode(a + b) == Decode(a) + Decode(OddByte(a) + b)
  {
    var n := |a| - |OddByte(a)|;
    var even := a[..n];
    assert a == even + OddByte(a);
    DecodeIgnoresOddByte(even, OddByte(a));
    ConcatAssociates(even, OddByte(a), b);
    DecodeConcat(even, OddByte(a) + b);
  }

  /** One step of the read loop: the samples of a chunk, if it can be converted, and the byte to carry. */
  method Convert(left: Option<byte>, value: View) returns (floats: Result<seq<real>>, next: Option<byte>)
    ensures Held(next) == OddByte(Held(left) + value.bytes)
    ensures floats == if Misaligned(value, left.Some?) then Err else Ok(Decode(Held(left) + value.bytes))
  {
    var chunk;
    chunk, next := Align(left, value);
    DecodeIgnoresOddByte(chunk.bytes, Held(next));
    if |chunk.bytes| <= 0 {
      return Ok([]), next;
    }
    floats := ToFloats(chunk);
  }

  /** Everything still to be played: the carried byte and the chunks to come. */
  ghost function ToCome(held: seq<byte>, chunks: seq<View>): seq<real> {
    Decode(held + AllBytes(chunks))
  }

  lemma ToComeStep(held: seq<byte>, chunks: seq<View>)
    requires chunks != []
    ensures ToCome(held, chunks) ==
            Decode(held + chunks[0].bytes) + ToCome(OddByte(held + chunks[0].bytes), chunks[1..])
  {
    ConcatAssociates(held, chunks[0].bytes, AllBytes(chunks[1..]));
    DecodeGoesOn(held + chunks[0].bytes, AllBytes(chunks[1..]));
  }

  /** Playing a buffer moves its samples from what is to come to what was played. */
  lemma PlayStep(played: seq<seq<real>>, floats: seq<real>, rest: seq<real>)
    ensures Flatten(played) + (floats + rest) == Flatten(if floats == [] then played else played + [floats]) + rest
  {
    FlattenAppend(played, floats);
    ConcatAssociates(Flatten(played), floats, rest);
    assert floats == [] ==> floats + rest == rest;
  }

  lemma LastByteIsDropped(left: Option<byte>)
    ensures ToCome(Held(left), []) == []
  {
    assert Held(left) + [] == Held(left) && |Held(left)| < 2;
  }

  lemma CarryFlips(left: Option<byte>, value: seq<byte>, next: Option<byte>)
    requires Held(next) == OddByte(Held(left) + value)
    ensures next.Some? <==> left.Some? != (|value| % 2 == 1)
  {
  }

  /** What holds before chunk `i` is read: what was played and what is to come make up the stream. */
  ghost predicate Playing(chunks: seq<View>, i: nat, played: seq<seq<real>>, left: Option<byte>) {
    && i <= |chunks|
    && Flatten(played) + ToCome(Held(left), chunks[i..]) == Decode(AllBytes(chunks))
    && (AllAligned(chunks[i..], left.Some?) <==> AllAligned(chunks, false))
    && (forall k :: 0 <= k < |played| ==> played[k] != [])
  }

  lemma PlayingStarts(chunks: seq<View>)
    ensures Playing(chunks, 0, [], None)
  {
    assert [] + AllBytes(chunks) == AllBytes(chunks) && chunks[0..] == chunks;
    assert Flatten<real>([]) + Decode(AllBytes(chunks)) == Decode(AllBytes(chunks));
  }

  lemma PlayingStep(chunks: seq<View>, i: nat, played: seq<seq<real>>, left: Option<byte>, floats: seq<real>, next: Option<byte>)
    requires Playing(chunks, i, played, left) && i < |chunks| && !Misaligned(chunks[i], left.Some?)
    requires Held(next) == OddByte(Held(left) + chunks[i].bytes) && floats == Decode(Held(left) + chunks[i].bytes)
    ensures Playing(chunks, i + 1, if floats == [] then played else played + [floats], next)
  {
    assert chunks[i..][1..] == chunks[i + 1..] && chunks[i..][0] == chunks[i];
    CarryFlips(left, chunks[i].bytes, next);
    ToComeStep(Held(left), chunks[i..]);
    PlayStep(played, floats, ToCome(Held(next), chunks[i + 1..]));
  }

  lemma PlayingStops(chunks: seq<View>, i: nat, played: seq<seq<real>>, left: Option<byte>)
    requires Playing(chunks, i, played, left) && i < |chunks| && Misaligned(chunks[i], left.Some?)
    ensures !AllAligned(chunks, false) && Flatten(played) <= Decode(AllBytes(chunks))
  {
    assert chunks[i..][0] == chunks[i];
  }

  lemma PlayingEnds(chunks: seq<View>, played: seq<seq<real>>, left: Option<byte>)
    requires Playing(chunks, |chunks|, played, left)
    ensures AllAligned(chunks, false) && Flatten(played) == Decode(AllBytes(chunks))
  {
    assert chunks[|chunks|..] == [];
    LastByteIsDropped(left);
    assert Flatten(played) + [] == Flatten(played);
  }

  /**
   However the network splits the stream, the buffers played are the samples of the whole stream,
   in order; playing stops early exactly when some chunk has to be converted at an odd offset.
   */
  method PlayStream(chunks: seq<View>) returns (played: seq<seq<real>>, ok: bool)
    ensures Flatten(played) <= Decode(AllBytes(chunks))
    ensures ok ==> Flatten(played) == Decode(AllBytes(chunks))
    ensures ok <==> AllAligned(chunks, false)
    ensures forall i :: 0 <= i < |played| ==> played[i] != []
  {
    played := [];
    var left: Option<byte> := None;
    PlayingStarts(chunks);
    for i := 0 to |chunks|
      invariant Playing(chunks, i, played, left)
    {
      var floats, next := Convert(left, chunks[i]);
      if floats.Err? {
        PlayingStops(chunks, i, played, left);
        return played, false;
      }
      PlayingStep(chunks, i, played, left, floats.value, next);
      left := next;
      if floats.value != [] {
        played := played + [floats.value];
      }
    }
    PlayingEnds(chunks, played, left);
    ok := true;
  }

  /** One whole sample that starts at an odd offset of its buffer cannot be played. */
  lemma OddOffsetStops()
    ensures !AllAligned([View([0, 0], 1)], false)
  {
    var chunk := View([0, 0], 1);
    assert Misaligned(chunk, false) && [chunk][0] == chunk;
  }
}
