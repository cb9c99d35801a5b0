/**
 The packed header around a payload, and what survives the way through it.
 */
module Protocol {
  import opened Frames
  import opened Sockets

  const WORD: nat := 0x1_0000_0000
  const HALF_WORD: nat := 0x8000_0000

  /** `msgid_t` is a C int. */
  type MsgId = x: int | -0x8000_0000 <= x < 0x8000_0000

  function ToLittleEndian(n: nat, k: nat): (s: seq<byte>)
    ensures |s| == k
  {
    if k == 0 then [] else [n % 256] + ToLittleEndian(n / 256, k - 1)
  }

  function Power256(k: nat): nat {
    if k == 0 then 1 else 256 * Power256(k - 1)
  }

  lemma {:induction false} LittleEndianRoundTrip(n: nat, k: nat)
    requires n < Power256(k)
    ensures LittleEndian(ToLittleEndian(n, k)) == n
  {
    if k > 0 {
      LittleEndianRoundTrip(n / 256, k - 1);
      assert ToLittleEndian(n, k)[1..] == ToLittleEndian(n / 256, k - 1);
    }
  }

  lemma WordRoundTrip(n: nat)
    requires n < WORD
    ensures LittleEndian(ToLittleEndian(n, 4)) == n
  {
    assert Power256(4) == WORD by {
      assert Power256(1) == 256 && Power256(2) == 65536 && Power256(3) == 16777216;
    }
    LittleEndianRoundTrip(n, 4);
  }

  function ToUnsigned(id: MsgId): nat {
    if id < 0 then id + WORD else id
  }

  function ToSigned(n: nat): MsgId
    requires n < WORD
  {
    if n < HALF_WORD then n else n - WORD
  }

  /** The length field keeps the low 32 bits; entity id and flags are zero. */
  function EncodedFrame(msgid: MsgId, payload: seq<byte>): (f: seq<byte>)
    ensures |f| == HEADER_SIZE + |payload|
  {
    ToLittleEndian((HEADER_SIZE + |payload|) % WORD, 4)
    + ToLittleEndian(0, 8)
    + ToLittleEndian(ToUnsigned(msgid), 4)
    + ToLittleEndian(0, 2)
    + payload
  }

  function Encode(fd: int, msgid: MsgId, payload: seq<byte>): Message {
    Message(fd, Package, EncodedFrame(msgid, payload), 0)
  }

  datatype Decoded = Rejected | Decoded(msgid: MsgId, payload: seq<byte>)

  /**
   What decoding demands: the two assertions, and that the length does not reach past the
   buffer. An empty payload is refused by the message builder.
   */
  predicate Decodable(m: Message) {
    && m.bytesize == |m.buf| >= HEADER_SIZE
    && HEADER_SIZE <= FrameLength(m.buf) <= |m.buf|
  }

  lemma {:induction false} LittleEndianBounded(s: seq<byte>)
    ensures LittleEndian(s) < Power256(|s|)
  {
    if s != [] {
      LittleEndianBounded(s[1..]);
    }
  }

  function HeaderMsgId(m: Message): MsgId
    requires Decodable(m)
  {
    var w := LittleEndian(m.buf[12..16]);
    LittleEndianBounded(m.buf[12..16]);
    assert Power256(1) == 256 && Power256(2) == 65536 && Power256(3) == 16777216;
    ToSigned(w)
  }

  function Decode(m: Message): Decoded
    requires Decodable(m)
  {
    var payload := m.buf[HEADER_SIZE..HEADER_SIZE + (FrameLength(m.buf) - HEADER_SIZE)];
    if payload == [] then Rejected else Decoded(HeaderMsgId(m), payload)
  }

  /**
   Every message the reassembler pushes, whatever arrived, meets all that decoding demands:
   it is complete, its length field says so, and the payload length cannot underflow.
   */
  lemma PushedAreDecodable(max: nat, fd: int, stream: seq<byte>, i: nat)
    requires i < |Parse(max, stream).frames|
    ensures var m := PackagesOf(fd, Parse(max, stream).frames)[i];
            Decodable(m) && m.bytesize == |m.buf| == FrameLength(m.buf)
  {
    ParseYieldsFrames(max, stream);
    assert IsFrame(max, Parse(max, stream).frames[i]);
  }

  lemma EncodedLength(msgid: MsgId, payload: seq<byte>)
    ensures FrameLength(EncodedFrame(msgid, payload)) == (HEADER_SIZE + |payload|) % WORD
  {
    hide LittleEndian;
    var f, n := EncodedFrame(msgid, payload), (HEADER_SIZE + |payload|) % WORD;
    WordRoundTrip(n);
    hide ToLittleEndian;
    assert f[..LENGTH_SIZE] == ToLittleEndian(n, 4);
  }

  /** An encoded message is a frame exactly when it stays below the package limit and its length fits the field. */
  lemma EncodedIsFrame(max: nat, msgid: MsgId, payload: seq<byte>)
    ensures IsFrame(max, EncodedFrame(msgid, payload)) <==> HEADER_SIZE + |payload| < max && HEADER_SIZE + |payload| < WORD
  {
    hide FrameLength, EncodedFrame;
    EncodedLength(msgid, payload);
  }

  /** Decoding a delivered message gives back identifier and payload, unless the payload is empty. */
  lemma DecodeEncoded(fd: int, msgid: MsgId, payload: seq<byte>)
    requires HEADER_SIZE + |payload| < WORD
    ensures var m := PackageOf(fd, EncodedFrame(msgid, payload));
            && Decodable(m)
            && Decode(m) == if payload == [] then Rejected else Decoded(msgid, payload)
  {
    hide LittleEndian, ToLittleEndian;
    var f := EncodedFrame(msgid, payload);
    EncodedLength(msgid, payload);
    assert f[12..16] == ToLittleEndian(ToUnsigned(msgid), 4);
    WordRoundTrip(ToUnsigned(msgid));
    assert f[HEADER_SIZE..|f|] == payload;
  }

  // ----- the layout, byte by byte

  function FourBytes(s: seq<byte>): nat
    requires |s| == 4
  {
    var b0: int, b1: int, b2: int, b3: int := s[0], s[1], s[2], s[3];
    b0 + 0x100 * b1 + 0x1_0000 * b2 + 0x100_0000 * b3
  }

  lemma FourBytesAre(s: seq<byte>)
    requires |s| == 4
    ensures LittleEndian(s) == FourBytes(s)
  {
    assert LittleEndian(s) == s[0] + 256 * LittleEndian(s[1..]);
    assert LittleEndian(s[1..]) == s[1] + 256 * LittleEndian(s[2..]) by { assert s[1..][1..] == s[2..]; }
    assert LittleEndian(s[2..]) == s[2] + 256 * LittleEndian(s[3..]) by { assert s[2..][1..] == s[3..]; }
    assert LittleEndian(s[3..]) == s[3] + 256 * LittleEndian(s[4..]) by { assert s[3..][1..] == s[4..]; }
  }

  lemma {:induction false} ZeroBytes(k: nat)
    ensures forall i :: 0 <= i < k ==> ToLittleEndian(0, k)[i] == 0
  {
    if k > 0 {
      ZeroBytes(k - 1);
    }
  }

  /**
   The packed header: size in bytes 0 to 3 and identifier in bytes 12 to 15, low byte first and
   the identifier in two's complement; entity id and flags are zero; then the payload.
   */
  lemma WireLayout(msgid: MsgId, payload: seq<byte>)
    requires HEADER_SIZE + |payload| < WORD
    ensures var f := EncodedFrame(msgid, payload);
            && |f| == 18 + |payload| && f[18..] == payload
            && FourBytes(f[0..4]) == 18 + |payload|
            && FourBytes(f[12..16]) == (if msgid < 0 then msgid + 0x1_0000_0000 else msgid)
            && (forall i :: 4 <= i < 12 || 16 <= i < 18 ==> f[i] == 0)
  {
    var f, size := EncodedFrame(msgid, payload), HEADER_SIZE + |payload|;
    hide ToLittleEndian, LittleEndian;
    assert f[0..4] == ToLittleEndian(size, 4) && f[12..16] == ToLittleEndian(ToUnsigned(msgid), 4);
    WordRoundTrip(size);
    WordRoundTrip(ToUnsigned(msgid));
    FourBytesAre(f[0..4]);
    FourBytesAre(f[12..16]);
    ZeroBytes(8);
    ZeroBytes(2);
    forall i | 4 <= i < 12 || 16 <= i < 18 ensures f[i] == 0 {
      if i < 12 {
        assert f[i] == ToLittleEndian(0, 8)[i - 4];
      } else {
        assert f[i] == ToLittleEndian(0, 2)[i - 16];
      }
    }
  }

  /** How the receiver takes the next frame off a stream: by the number in its first four bytes, if that is allowed. */
  lemma LengthRule(max: nat, s: seq<byte>)
    requires |s| >= 4
    ensures var n, p := FourBytes(s[..4]), Parse(max, s);
            if n < 18 || n >= max then p == Parsed([], s, true)
            else if |s| < n then p == Parsed([], s, false)
            else p.frames != [] && p.frames[0] == s[..n]
  {
    FourBytesAre(s[..4]);
    hide LittleEndian;
  }
}
