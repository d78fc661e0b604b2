/**
 Frames on a byte stream: the 32-byte header, its checks in order, and the
 incremental decoder.
 */
module Frame {

  import opened Wrappers
  import opened Bytes
  import opened Crc32c

  const HEADER_SIZE := 32
  const MAGIC: u32 := 0x4753_4C50
  const VERSION: u16 := 1

  datatype Header = Header(
    version: u16,
    opcode: u16,
    requestId: u64,
    payloadLen: u32,
    flags: u16,
    payloadCrc: u32)

  datatype Frame = Frame(opcode: u16, requestId: u64, flags: u16, payload: seq<byte>)

  datatype Error = ProtocolError | Corruption | UnsupportedVersion | ResourceExhausted

  datatype Decoded = NeedMore | Got(frame: Frame, size: nat) | Broken(error: Error)

  predicate KnownOpcode(raw: u16) {
    1 <= raw <= 3 || 20 <= raw <= 28 || 40 <= raw <= 42 || 60 <= raw <= 61
  }

  // ------------------------------------------------------------------ headers

  // Everything the header checksum covers.
  function HeaderFields(h: Header): (bs: seq<byte>)
    ensures |bs| == 28
  {
    StoreLe(MAGIC, 4) + StoreLe(h.version, 2) + StoreLe(h.opcode, 2) + StoreLe(h.requestId, 8)
    + StoreLe(h.payloadLen, 4) + StoreLe(h.flags, 2) + StoreLe(0, 2) + StoreLe(h.payloadCrc, 4)
  }

  function EncodeHeader(h: Header): (bs: seq<byte>)
    ensures |bs| == HEADER_SIZE
  {
    HeaderFields(h) + StoreLe(Crc(HeaderFields(h)), 4)
  }

  function Load(bs: seq<byte>, at: nat, width: nat): nat
    requires at + width <= |bs|
  {
    LoadLe(bs[at..at + width])
  }

  function DecodeHeader(src: seq<byte>, maxPayload: u32): Result<Header, Error>
    requires |src| >= HEADER_SIZE
  {
    if Load(src, 0, 4) != MAGIC then Err(ProtocolError)
    else if Load(src, 28, 4) != Crc(src[..28]) then Err(Corruption)
    else if Load(src, 22, 2) != 0 then Err(ProtocolError)
    else if Load(src, 4, 2) != VERSION then Err(UnsupportedVersion)
    else (Widths();
      if !KnownOpcode(Load(src, 6, 2)) then Err(ProtocolError)
      else if Load(src, 16, 4) > maxPayload then Err(ResourceExhausted)
      else Ok(Header(Load(src, 4, 2), Load(src, 6, 2), Load(src, 8, 8), Load(src, 16, 4), Load(src, 20, 2), Load(src, 24, 4))))
  }

  lemma HeaderParts(h: Header)
    ensures var bs := EncodeHeader(h);
      && bs[0..4] == StoreLe(MAGIC, 4) && bs[4..6] == StoreLe(h.version, 2) && bs[6..8] == StoreLe(h.opcode, 2)
      && bs[8..16] == StoreLe(h.requestId, 8) && bs[16..20] == StoreLe(h.payloadLen, 4)
      && bs[20..22] == StoreLe(h.flags, 2) && bs[22..24] == StoreLe(0, 2) && bs[24..28] == StoreLe(h.payloadCrc, 4)
      && bs[..28] == HeaderFields(h) && bs[28..32] == StoreLe(Crc(HeaderFields(h)), 4)
  {
    hide StoreLe, Crc;
  }

  lemma LoadsBack(n: nat, width: nat)
    requires n < Pow256(width)
    ensures LoadLe(StoreLe(n, width)) == n
  {
    LoadStore(n, width);
  }

  lemma Slice(bs: seq<byte>, suffix: seq<byte>, at: nat, width: nat)
    requires at + width <= |bs|
    ensures (bs + suffix)[at..at + width] == bs[at..at + width]
  {
  }

  /** A header decodes to itself exactly when this build speaks its version, knows its opcode and allows its length. */
  lemma HeaderRoundTrip(h: Header, suffix: seq<byte>, maxPayload: u32)
    ensures DecodeHeader(EncodeHeader(h) + suffix, maxPayload) ==
      if h.version != VERSION then Err(UnsupportedVersion)
      else if !KnownOpcode(h.opcode) then Err(ProtocolError)
      else if h.payloadLen > maxPayload then Err(ResourceExhausted)
      else Ok(h)
  {
    hide StoreLe, LoadLe, Crc, EncodeHeader, HeaderFields, Pow256;
    HeaderParts(h);
    HeaderLoads(h, suffix);
    Widths();
  }

  lemma HeaderLoads(h: Header, suffix: seq<byte>)
    ensures var bs := EncodeHeader(h) + suffix;
      && Load(bs, 0, 4) == MAGIC && Load(bs, 4, 2) == h.version && Load(bs, 6, 2) == h.opcode
      && Load(bs, 8, 8) == h.requestId && Load(bs, 16, 4) == h.payloadLen && Load(bs, 20, 2) == h.flags
      && Load(bs, 22, 2) == 0 && Load(bs, 24, 4) == h.payloadCrc
      && bs[..28] == HeaderFields(h) && Load(bs, 28, 4) == Crc(bs[..28])
  {
    hide StoreLe, LoadLe, Crc, EncodeHeader, HeaderFields, Pow256;
    var e := EncodeHeader(h);
    HeaderParts(h);
    Widths();
    Slice(e, suffix, 0, 4);
    Slice(e, suffix, 4, 2);
    Slice(e, suffix, 6, 2);
    Slice(e, suffix, 8, 8);
    Slice(e, suffix, 16, 4);
    Slice(e, suffix, 20, 2);
    Slice(e, suffix, 22, 2);
    Slice(e, suffix, 24, 4);
    Slice(e, suffix, 28, 4);
    assert (e + suffix)[..28] == e[..28];
    LoadsBack(MAGIC, 4);
    LoadsBack(h.version, 2);
    LoadsBack(h.opcode, 2);
    LoadsBack(h.requestId, 8);
    LoadsBack(h.payloadLen, 4);
    LoadsBack(h.flags, 2);
    LoadsBack(0, 2);
    LoadsBack(h.payloadCrc, 4);
    LoadsBack(Crc(HeaderFields(h)), 4);
  }

  // ------------------------------------------------------------------- frames

  function HeaderFor(f: Frame): Header {
    Header(VERSION, f.opcode, f.requestId, |f.payload| % 0x1_0000_0000, f.flags,
           if f.payload == [] then 0 else Crc(f.payload))
  }

  function EncodeFrame(f: Frame): (bs: seq<byte>)
    ensures |bs| == HEADER_SIZE + |f.payload|
  {
    EncodeHeader(HeaderFor(f)) + f.payload
  }

  /** One call of the decoder that has not failed yet. */
  function NextFrame(input: seq<byte>, maxPayload: u32): (d: Decoded)
    ensures d.Got? ==> HEADER_SIZE <= d.size <= |input|
  {
    if |input| < HEADER_SIZE then NeedMore
    else match DecodeHeader(input, maxPayload)
      case Err(e) => Broken(e)
      case Ok(h) =>
        var total := HEADER_SIZE + h.payloadLen;
        if |input| < total then NeedMore
        else
          var payload := input[HEADER_SIZE..total];
          if payload != [] && Crc(payload) != h.payloadCrc then Broken(Corruption)
          else if payload == [] && h.payloadCrc != 0 then Broken(ProtocolError)
          else Got(Frame(h.opcode, h.requestId, h.flags, payload), total)
  }

  /** A frame the receiver accepts. */
  predicate Acceptable(f: Frame, maxPayload: u32) {
    KnownOpcode(f.opcode) && |f.payload| <= maxPayload
  }

  /** Whatever follows it, an encoded frame decodes to itself exactly when the receiver accepts it. */
  lemma FrameRoundTrip(f: Frame, suffix: seq<byte>, maxPayload: u32)
    ensures NextFrame(EncodeFrame(f) + suffix, maxPayload) == Got(f, |EncodeFrame(f)|) <==> Acceptable(f, maxPayload)
  {
    hide Crc, EncodeHeader, DecodeHeader;
    var h, bs := HeaderFor(f), EncodeFrame(f) + suffix;
    HeaderRoundTrip(h, f.payload + suffix, maxPayload);
    assert bs == EncodeHeader(h) + (f.payload + suffix);
    if Acceptable(f, maxPayload) {
      assert bs[HEADER_SIZE..HEADER_SIZE + |f.payload|] == f.payload;
    }
  }

  /** The byte layout of the header, number by number. */
  lemma HeaderLayout(h: Header)
    ensures var bs := EncodeHeader(h);
      && |bs| == 32 && bs[0..4] == [0x50, 0x4C, 0x53, 0x47]
      && LoadLe(bs[4..6]) == h.version && LoadLe(bs[6..8]) == h.opcode && LoadLe(bs[8..16]) == h.requestId
      && LoadLe(bs[16..20]) == h.payloadLen && LoadLe(bs[20..22]) == h.flags && bs[22..24] == [0, 0]
      && LoadLe(bs[24..28]) == h.payloadCrc && LoadLe(bs[28..32]) == Crc(bs[..28])
  {
    hide LoadLe, Crc, EncodeHeader, HeaderFields, Pow256;
    HeaderParts(h);
    HeaderLoads(h, []);
    assert EncodeHeader(h) + [] == EncodeHeader(h);
    assert StoreLe(0x4753_4C50, 4) == [0x50, 0x4C, 0x53, 0x47];
    assert StoreLe(0, 2) == [0, 0];
  }

  /** What this build sends: its magic and version 1, the frame's own fields, and the payload behind the header. */
  lemma FrameLayout(f: Frame)
    ensures var bs := EncodeFrame(f);
      && |bs| == 32 + |f.payload| && bs[0..6] == [0x50, 0x4C, 0x53, 0x47, 1, 0]
      && LoadLe(bs[6..8]) == f.opcode && LoadLe(bs[8..16]) == f.requestId && LoadLe(bs[20..22]) == f.flags
      && bs[32..] == f.payload
  {
    hide LoadLe, Crc, EncodeHeader, HeaderFields, Pow256;
    var h := HeaderFor(f);
    HeaderLayout(h);
    HeaderParts(h);
    var e, bs := EncodeHeader(h), EncodeFrame(f);
    Slice(e, f.payload, 0, 4);
    Slice(e, f.payload, 4, 2);
    Slice(e, f.payload, 6, 2);
    Slice(e, f.payload, 8, 8);
    Slice(e, f.payload, 20, 2);
    assert StoreLe(1, 2) == [1, 0];
    assert bs[0..6] == bs[0..4] + bs[4..6];
  }

  /** The operations a frame may carry. */
  lemma KnownOpcodes(raw: u16)
    ensures KnownOpcode(raw) <==> raw in {1, 2, 3, 20, 21, 22, 23, 24, 25, 26, 27, 28, 40, 41, 42, 60, 61}
  {
  }

  // The header's verdict needs only the header.
  lemma HeaderLocal(bs: seq<byte>, cs: seq<byte>, maxPayload: u32)
    requires |bs| >= HEADER_SIZE && |cs| >= HEADER_SIZE && bs[..HEADER_SIZE] == cs[..HEADER_SIZE]
    ensures DecodeHeader(bs, maxPayload) == DecodeHeader(cs, maxPayload)
  {
    hide LoadLe, Crc;
    forall i, j | 0 <= i <= j <= HEADER_SIZE
      ensures bs[i..j] == cs[i..j]
    {
      SameSlice(bs, cs, HEADER_SIZE, i, j);
    }
    assert bs[..28] == bs[0..28] && cs[..28] == cs[0..28];
  }

  /** A proper prefix of an acceptable frame never fails: the decoder asks for more. */
  lemma FramePrefix(f: Frame, n: nat, maxPayload: u32)
    requires Acceptable(f, maxPayload) && n < |EncodeFrame(f)|
    ensures NextFrame(EncodeFrame(f)[..n], maxPayload) == NeedMore
  {
    hide Crc, EncodeHeader, DecodeHeader;
    if n >= HEADER_SIZE {
      var bs, e := EncodeFrame(f)[..n], EncodeFrame(f);
      assert bs[..HEADER_SIZE] == e[..HEADER_SIZE];
      HeaderLocal(bs, e, maxPayload);
      HeaderRoundTrip(HeaderFor(f), f.payload, maxPayload);
    }
  }

  // More input never changes a verdict already reached.
  lemma NextFrameStable(bs: seq<byte>, more: seq<byte>, maxPayload: u32)
    requires !NextFrame(bs, maxPayload).NeedMore?
    ensures NextFrame(bs + more, maxPayload) == NextFrame(bs, maxPayload)
  {
    hide Crc, DecodeHeader;
    assert (bs + more)[..HEADER_SIZE] == bs[..HEADER_SIZE];
    HeaderLocal(bs, bs + more, maxPayload);
    if DecodeHeader(bs, maxPayload).Ok? {
      var total := HEADER_SIZE + DecodeHeader(bs, maxPayload).value.payloadLen;
      assert (bs + more)[HEADER_SIZE..total] == bs[HEADER_SIZE..total];
    }
  }

  // A frame needs no more than its own bytes.
  lemma NextFrameLocal(bs: seq<byte>, maxPayload: u32)
    requires NextFrame(bs, maxPayload).Got?
    ensures var d := NextFrame(bs, maxPayload); NextFrame(bs[..d.size], maxPayload) == d
  {
    hide Crc, DecodeHeader;
    var n := NextFrame(bs, maxPayload).size;
    assert bs[..n][..HEADER_SIZE] == bs[..HEADER_SIZE];
    HeaderLocal(bs, bs[..n], maxPayload);
    assert bs[..n][HEADER_SIZE..n] == bs[HEADER_SIZE..n];
  }

  /** An acceptable frame with any stretch of up to four header bytes after the magic altered is refused. */
  lemma DamagedHeader(f: Frame, i: nat, y: seq<byte>, suffix: seq<byte>, maxPayload: u32)
    requires Acceptable(f, maxPayload) && 4 <= i && i + |y| <= 28 && |y| <= 4 && y != EncodeFrame(f)[i..i + |y|]
    ensures var e := EncodeFrame(f); NextFrame(e[..i] + y + e[i + |y|..] + suffix, maxPayload) == Broken(Corruption)
  {
    hide Crc, LoadLe, EncodeFrame;
    var e := EncodeFrame(f);
    var bs := e[..i] + y + e[i + |y|..] + suffix;
    FrameRoundTrip(f, [], maxPayload);
    assert e + [] == e;
    assert bs[0..4] == e[0..4] && bs[28..32] == e[28..32];
    var before, x, after := e[..i], e[i..i + |y|], e[i + |y|..28];
    assert e[..28] == before + x + after;
    assert bs[..28] == before + y + after;
    CrcBurst(before, x, y, after);
  }

  /** The same for the payload. */
  lemma DamagedPayload(f: Frame, i: nat, y: seq<byte>, suffix: seq<byte>, maxPayload: u32)
    requires Acceptable(f, maxPayload) && HEADER_SIZE <= i && i + |y| <= |EncodeFrame(f)| && |y| <= 4
    requires y != EncodeFrame(f)[i..i + |y|]
    ensures var e := EncodeFrame(f); NextFrame(e[..i] + y + e[i + |y|..] + suffix, maxPayload) == Broken(Corruption)
  {
    hide Crc, LoadLe, EncodeHeader, DecodeHeader;
    var e := EncodeFrame(f);
    var bs := e[..i] + y + e[i + |y|..] + suffix;
    HeaderRoundTrip(HeaderFor(f), f.payload, maxPayload);
    assert bs[..HEADER_SIZE] == e[..HEADER_SIZE];
    HeaderLocal(bs, e, maxPayload);
    var before, x, after := e[HEADER_SIZE..i], e[i..i + |y|], e[i + |y|..];
    assert f.payload == before + x + after;
    assert bs[HEADER_SIZE..|e|] == before + y + after;
    CrcBurst(before, x, y, after);
  }

  // ------------------------------------------------------------------- streams

  /** Everything a decoder gets out of a byte string. */
  datatype Stream = Stream(frames: seq<Frame>, consumed: nat, error: Option<Error>)

  function DecodeAll(bs: seq<byte>, maxPayload: u32): (s: Stream)
    ensures s.consumed <= |bs|
    decreases |bs|
  {
    match NextFrame(bs, maxPayload)
    case NeedMore => Stream([], 0, None)
    case Broken(e) => Stream([], 0, Some(e))
    case Got(f, n) => After([f], n, DecodeAll(bs[n..], maxPayload))
  }

  function After(frames: seq<Frame>, consumed: nat, rest: Stream): Stream {
    Stream(frames + rest.frames, consumed + rest.consumed, rest.error)
  }

  function EncodeAll(fs: seq<Frame>): seq<byte> {
    if fs == [] then [] else EncodeFrame(fs[0]) + EncodeAll(fs[1..])
  }

  /** Any cut of an encoded stream decodes without error to the frames that lie wholly before the cut. */
  lemma {:induction false} StreamPrefix(fs: seq<Frame>, n: nat, maxPayload: u32)
    requires (forall i :: 0 <= i < |fs| ==> Acceptable(fs[i], maxPayload)) && n <= |EncodeAll(fs)|
    ensures var s := DecodeAll(EncodeAll(fs)[..n], maxPayload);
      && s.error == None && s.frames <= fs && s.consumed == |EncodeAll(s.frames)| <= n
      && (|s.frames| < |fs| ==> n < |EncodeAll(s.frames)| + |EncodeFrame(fs[|s.frames|])|)
  {
    hide EncodeFrame, NextFrame;
    var bs := EncodeAll(fs)[..n];
    if fs == [] {
      EmptyNeedsMore(bs, maxPayload);
    } else {
      var e := EncodeFrame(fs[0]);
      if n < |e| {
        assert bs == e[..n];
        FramePrefix(fs[0], n, maxPayload);
        assert EncodeAll([]) == [];
      } else {
        var rest := EncodeAll(fs[1..])[..n - |e|];
        assert bs == e + rest;
        FrameRoundTrip(fs[0], rest, maxPayload);
        assert bs[|e|..] == rest;
        StreamPrefix(fs[1..], n - |e|, maxPayload);
        var frames := DecodeAll(rest, maxPayload).frames;
        assert ([fs[0]] + frames)[1..] == frames;
      }
    }
  }

  lemma EmptyNeedsMore(bs: seq<byte>, maxPayload: u32)
    requires |bs| < HEADER_SIZE
    ensures NextFrame(bs, maxPayload) == NeedMore
  {
  }

  /** Frames already taken off the front stay the same when more bytes arrive. */
  lemma {:induction false} DecodeResumes(bs: seq<byte>, more: seq<byte>, maxPayload: u32)
    requires DecodeAll(bs, maxPayload).consumed == |bs|
    ensures DecodeAll(bs + more, maxPayload)
         == After(DecodeAll(bs, maxPayload).frames, |bs|, DecodeAll(more, maxPayload))
    decreases |bs|
  {
    hide NextFrame, DecodeAll;
    DecodeStep(bs, maxPayload);
    DecodeStep(bs + more, maxPayload);
    if bs == [] {
      assert bs + more == more;
      EmptyNeedsMore(bs, maxPayload);
    } else {
      NextFrameStable(bs, more, maxPayload);
      var f, n := NextFrame(bs, maxPayload).frame, NextFrame(bs, maxPayload).size;
      assert (bs + more)[n..] == bs[n..] + more;
      DecodeResumes(bs[n..], more, maxPayload);
      var rest, tail := DecodeAll(bs[n..], maxPayload).frames, DecodeAll(more, maxPayload).frames;
      assert [f] + (rest + tail) == ([f] + rest) + tail;
    }
  }

  lemma DecodeStep(bs: seq<byte>, maxPayload: u32)
    ensures var d := NextFrame(bs, maxPayload);
      DecodeAll(bs, maxPayload) ==
        if d.Got? then After([d.frame], d.size, DecodeAll(bs[d.size..], maxPayload))
        else Stream([], 0, if d.Broken? then Some(d.error) else None)
  {
  }
}
