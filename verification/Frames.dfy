/**
 The wire format: a stream of frames, each starting with its own total length in four
 bytes, least significant first. `max` is the configured package limit.
 */
module Frames {

  type byte = x: int | 0 <= x < 256

  /** Size of the packed header: length, entity id, message id and flags. */
  const HEADER_SIZE: nat := 18
  const LENGTH_SIZE: nat := 4

  function LittleEndian(s: seq<byte>): nat {
    if s == [] then 0 else s[0] + 256 * LittleEndian(s[1..])
  }

  function FrameLength(s: seq<byte>): nat
    requires |s| >= LENGTH_SIZE
  {
    LittleEndian(s[..LENGTH_SIZE])
  }

  predicate LengthAllowed(max: nat, len: nat) {
    HEADER_SIZE <= len < max
  }

  predicate IsFrame(max: nat, f: seq<byte>) {
    LengthAllowed(max, |f|) && FrameLength(f) == |f|
  }

  predicate AreFrames(max: nat, fs: seq<seq<byte>>) {
    forall i :: 0 <= i < |fs| ==> IsFrame(max, fs[i])
  }

  function Flatten(fs: seq<seq<byte>>): seq<byte> {
    if fs == [] then [] else fs[0] + Flatten(fs[1..])
  }

  lemma {:induction false} FlattenAppend(a: seq<seq<byte>>, b: seq<seq<byte>>)
    ensures Flatten(a + b) == Flatten(a) + Flatten(b)
  {
    if a == [] {
      assert a + b == b;
    } else {
      assert (a + b)[1..] == a[1..] + b;
      FlattenAppend(a[1..], b);
    }
  }

  // ----- parsing a whole stream at once

  /** The complete frames, what is left over, and whether a forbidden length stopped the parse. */
  datatype Parsed = Parsed(frames: seq<seq<byte>>, rest: seq<byte>, bad: bool)

  function Parse(max: nat, s: seq<byte>): Parsed {
    if |s| < LENGTH_SIZE then Parsed([], s, false)
    else
      var len := FrameLength(s);
      if !LengthAllowed(max, len) then Parsed([], s, true)
      else if |s| < len then Parsed([], s, false)
      else
        var p := Parse(max, s[len..]);
        Parsed([s[..len]] + p.frames, p.rest, p.bad)
  }

  lemma FlattenFirst(f: seq<byte>, fs: seq<seq<byte>>)
    ensures Flatten([f] + fs) == f + Flatten(fs)
  {
    assert ([f] + fs)[1..] == fs;
  }

  /** Parsing loses and invents nothing: frames and rest are the stream, ... */
  lemma {:induction false} ParseIsLossless(max: nat, s: seq<byte>)
    ensures Flatten(Parse(max, s).frames) + Parse(max, s).rest == s
  {
    hide LittleEndian;
    if |s| >= LENGTH_SIZE {
      var len := FrameLength(s);
      if LengthAllowed(max, len) && len <= |s| {
        var p := Parse(max, s[len..]);
        ParseIsLossless(max, s[len..]);
        FlattenFirst(s[..len], p.frames);
      }
    }
  }

  /** ... cut at frame ends. */
  lemma {:induction false} ParseYieldsFrames(max: nat, s: seq<byte>)
    ensures AreFrames(max, Parse(max, s).frames)
  {
    hide LittleEndian;
    if |s| >= LENGTH_SIZE {
      var len := FrameLength(s);
      if LengthAllowed(max, len) && len <= |s| {
        ParseYieldsFrames(max, s[len..]);
        assert s[..len][..LENGTH_SIZE] == s[..LENGTH_SIZE];
        assert IsFrame(max, s[..len]);
      }
    }
  }

  /** One step of the parse. */
  lemma ParseUnfolds(max: nat, s: seq<byte>)
    ensures Parse(max, s) ==
            if |s| < LENGTH_SIZE then Parsed([], s, false)
            else if !LengthAllowed(max, FrameLength(s)) then Parsed([], s, true)
            else if |s| < FrameLength(s) then Parsed([], s, false)
            else var p := Parse(max, s[FrameLength(s)..]);
                 Parsed([s[..FrameLength(s)]] + p.frames, p.rest, p.bad)
  {
  }

  lemma LengthKept(a: seq<byte>, b: seq<byte>)
    requires |a| >= LENGTH_SIZE
    ensures FrameLength(a + b) == FrameLength(a)
  {
    assert (a + b)[..LENGTH_SIZE] == a[..LENGTH_SIZE];
  }

  /** More bytes only ever extend a parse that has not failed. */
  lemma {:induction false} ParseAppend(max: nat, a: seq<byte>, b: seq<byte>)
    ensures var p, w := Parse(max, a), Parse(max, a + b);
            if p.bad then w == Parsed(p.frames, p.rest + b, true)
            else var q := Parse(max, p.rest + b); w == Parsed(p.frames + q.frames, q.rest, q.bad)
  {
    hide Parse, FrameLength;
    ParseUnfolds(max, a);
    ParseUnfolds(max, a + b);
    if |a| >= LENGTH_SIZE {
      LengthKept(a, b);
      var len := FrameLength(a);
      if LengthAllowed(max, len) && len <= |a| {
        ParseAppend(max, a[len..], b);
        assert (a + b)[len..] == a[len..] + b;
        assert (a + b)[..len] == a[..len];
      }
    }
  }

  /** Parsing undoes flattening. */
  lemma {:induction false} ParseFlatten(max: nat, fs: seq<seq<byte>>)
    requires AreFrames(max, fs)
    ensures Parse(max, Flatten(fs)) == Parsed(fs, [], false)
  {
    if fs != [] {
      ParseFlatten(max, fs[1..]);
      var s := Flatten(fs);
      assert IsFrame(max, fs[0]);
      assert s[..LENGTH_SIZE] == fs[0][..LENGTH_SIZE];
      assert s[..|fs[0]|] == fs[0] && s[|fs[0]|..] == Flatten(fs[1..]);
      assert fs == [fs[0]] + fs[1..];
    }
  }

  /** Any beginning of a stream of frames parses to the first few of them, and never to a failure. */
  lemma ParsePrefix(max: nat, fs: seq<seq<byte>>, t: seq<byte>)
    requires AreFrames(max, fs) && t <= Flatten(fs)
    ensures !Parse(max, t).bad && Parse(max, t).frames <= fs
  {
    ParseFlatten(max, fs);
    var u := Flatten(fs)[|t|..];
    assert t + u == Flatten(fs);
    ParseAppend(max, t, u);
  }

  /** A frame too large to be allowed stops the parse; those before it are not affected. */
  lemma ParseStops(max: nat, fs: seq<seq<byte>>, big: seq<byte>, more: seq<byte>, t: seq<byte>)
    requires AreFrames(max, fs) && |big| >= LENGTH_SIZE && !LengthAllowed(max, FrameLength(big))
    requires t <= Flatten(fs) + big + more
    ensures Parse(max, t).frames <= fs
    ensures t == Flatten(fs) + big + more ==> Parse(max, t).frames == fs && Parse(max, t).bad
  {
    hide Parse, LittleEndian, Flatten;
    var n := |Flatten(fs)|;
    if |t| <= n {
      ParsePrefix(max, fs, t);
    } else {
      var u := t[n..];
      assert t == Flatten(fs) + u;
      assert u <= big + more;
      ParseFlatten(max, fs);
      ParseAppend(max, Flatten(fs), u);
      assert [] + u == u;
      StopsAtOnce(max, big, more, u);
      assert fs + [] == fs;
    }
  }

  lemma StopsAtOnce(max: nat, big: seq<byte>, more: seq<byte>, u: seq<byte>)
    requires |big| >= LENGTH_SIZE && !LengthAllowed(max, FrameLength(big)) && u <= big + more
    ensures Parse(max, u).frames == [] && (|u| >= LENGTH_SIZE ==> Parse(max, u).bad)
  {
    hide LittleEndian;
    if |u| >= LENGTH_SIZE {
      assert u[..LENGTH_SIZE] == big[..LENGTH_SIZE];
    }
  }

  /** The parse at a frame boundary followed by the beginning of one more frame. */
  lemma ParseBoundary(max: nat, base: seq<byte>, fs: seq<seq<byte>>, cur: seq<byte>)
    requires Parse(max, base) == Parsed(fs, [], false)
    ensures |cur| < LENGTH_SIZE ==> Parse(max, base + cur) == Parsed(fs, cur, false)
    ensures |cur| >= LENGTH_SIZE && !LengthAllowed(max, FrameLength(cur)) ==>
              Parse(max, base + cur) == Parsed(fs, cur, true)
    ensures |cur| >= LENGTH_SIZE && LengthAllowed(max, FrameLength(cur)) && |cur| < FrameLength(cur) ==>
              Parse(max, base + cur) == Parsed(fs, cur, false)
    ensures IsFrame(max, cur) ==> Parse(max, base + cur) == Parsed(fs + [cur], [], false)
  {
    ParseAppend(max, base, cur);
    assert [] + cur == cur;
    if IsFrame(max, cur) {
      assert cur[|cur|..] == [] && cur[..|cur|] == cur;
      assert Parse(max, cur) == Parsed([cur], [], false);
    }
  }
}
