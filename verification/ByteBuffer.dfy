/**
 The growable byte buffer: a FIFO of bytes whose storage follows the need.
 */
module ByteBuffers {
  import opened Frames

  const BUFFER_CHUNK_SIZE: nat := 0x200

  function Max(a: nat, b: nat): nat {
    if a < b then b else a
  }

  class ByteBuffer {
    var bytes: array<byte>
    var rlength: nat
    var wlength: nat

    /** All bytes ever written and ever read. */
    ghost var written: seq<byte>
    ghost var taken: seq<byte>

    /** The highest the write cursor has been, and the largest single request, the initial size included. */
    ghost var peak: nat
    ghost var largest: nat

    ghost predicate Valid()
      reads this, bytes
    {
      && rlength <= wlength <= bytes.Length
      && written == taken + bytes[rlength..wlength]
      && wlength <= peak
      && bytes.Length <= peak + Max(BUFFER_CHUNK_SIZE, largest)
    }

    ghost function Contents(): seq<byte>
      requires Valid()
      reads this, bytes
    {
      bytes[rlength..wlength]
    }

    constructor (initsize: nat)
      ensures Valid() && fresh(bytes) && written == [] && taken == [] && peak == 0 && largest == initsize
    {
      bytes := new byte[if initsize < BUFFER_CHUNK_SIZE then BUFFER_CHUNK_SIZE else initsize];
      rlength, wlength := 0, 0;
      written, taken, peak, largest := [], [], 0, initsize;
    }

    method Blank() returns (n: nat)
      requires Valid()
      ensures n == bytes.Length - wlength
    {
      n := bytes.Length - wlength;
    }

    /** Afterwards at least `newsize` bytes are free; grown only when at most that many were. */
    method Reserve(newsize: nat)
      requires Valid()
      modifies this`bytes
      ensures rlength <= wlength <= bytes.Length && bytes[..wlength] == old(bytes[..wlength])
      ensures newsize <= bytes.Length - wlength
      ensures bytes == old(bytes) || fresh(bytes)
      ensures bytes.Length <= Max(old(bytes.Length), wlength + newsize + Max(BUFFER_CHUNK_SIZE, newsize))
    {
      var blank := Blank();
      if blank > newsize {
        return;
      }
      var grow := if newsize < BUFFER_CHUNK_SIZE then BUFFER_CHUNK_SIZE else newsize;
      var larger := new byte[bytes.Length + grow];
      forall i | 0 <= i < bytes.Length {
        larger[i] := bytes[i];
      }
      assert larger[..wlength] == bytes[..wlength];
      bytes := larger;
    }

    /** Copies to the write cursor. */
    method Store(buf: seq<byte>)
      requires rlength <= wlength && wlength + |buf| <= bytes.Length
      modifies bytes
      ensures bytes[rlength..wlength + |buf|] == old(bytes[rlength..wlength]) + buf
    {
      ghost var before := bytes[..wlength];
      forall i | 0 <= i < |buf| {
        bytes[wlength + i] := buf[i];
      }
      assert bytes[..wlength] == before;
    }

    method Write(buf: seq<byte>)
      requires Valid()
      modifies this, bytes
      ensures Valid() && fresh({bytes} - {old(bytes)})
      ensures Contents() == old(Contents()) + buf
      ensures written == old(written) + buf && taken == old(taken)
      ensures peak == Max(old(peak), wlength) && wlength == old(wlength) + |buf|
      ensures largest == Max(old(largest), |buf|)
    {
      Reserve(|buf|);
      assert bytes[rlength..wlength] == bytes[..wlength][rlength..];
      Store(buf);
      wlength := wlength + |buf|;
      written := written + buf;
      peak, largest := Max(peak, wlength), Max(largest, |buf|);
    }

    /** The oldest bytes, at most `bufsize`; an emptied buffer starts over at its beginning. */
    method Read(bufsize: nat) returns (buf: seq<byte>)
      requires Valid()
      modifies this`rlength, this`wlength, this`taken
      ensures Valid() && |buf| == (if |old(Contents())| < bufsize then |old(Contents())| else bufsize)
      ensures old(Contents()) == buf + Contents() && taken == old(taken) + buf
      ensures Contents() == [] ==> rlength == 0 && wlength == 0
    {
      var readsize := wlength - rlength;
      if readsize > bufsize {
        readsize := bufsize;
      }
      buf := bytes[rlength..rlength + readsize];
      assert bytes[rlength..wlength] == buf + bytes[rlength + readsize..wlength];
      taken := taken + buf;
      rlength := rlength + readsize;
      if rlength == wlength {
        rlength, wlength := 0, 0;
      }
    }
  }

  datatype Use = Put(buf: seq<byte>) | Take(n: nat)

  /**
   Any sequence of writes and reads: what comes out is what went in, in order, and the
   storage stays within the peak of the write cursor plus one request or chunk.
   */
  method UseBuffer(initsize: nat, uses: seq<Use>) returns (b: ByteBuffer, out: seq<byte>, ghost into: seq<byte>)
    ensures b.Valid() && into == Written(uses) && into == out + b.Contents()
    ensures b.bytes.Length <= b.peak + Max(BUFFER_CHUNK_SIZE, b.largest)
  {
    b := new ByteBuffer(initsize);
    out, into := [], [];
    var i := 0;
    while i < |uses|
      invariant 0 <= i <= |uses| && fresh(b) && fresh(b.bytes) && b.Valid()
      invariant b.written == into == Written(uses[..i]) && b.taken == out
    {
      assert uses[..i + 1][..i] == uses[..i];
      match uses[i] {
        case Put(buf) =>
          b.Write(buf);
          into := into + buf;
        case Take(n) =>
          var got := b.Read(n);
          out := out + got;
      }
      i := i + 1;
    }
    assert uses[..i] == uses;
  }

  function Written(uses: seq<Use>): seq<byte> {
    if uses == [] then []
    else Written(uses[..|uses| - 1]) + (var u := uses[|uses| - 1]; if u.Put? then u.buf else [])
  }
}
