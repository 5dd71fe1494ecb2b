/** clamd's INSTREAM framing: the gateway's writer, and the daemon's reader as an independent definition. */
module Instream {
  import opened Basics

  newtype byte = x: int | 0 <= x < 256

  const CHUNK: nat := 64 * 1024
  const GREETING: seq<byte> := [122, 73, 78, 83, 84, 82, 69, 65, 77, 0]  // "zINSTREAM" and a zero byte

  /** `writeUInt32BE`: the low byte goes last, then the value is shifted right by eight bits. */
  function BigEndian(n: nat): (h: seq<byte>)
    requires n < 0x1_0000_0000
    ensures |h| == 4
  {
    var n1 := n / 256;
    var n2 := n1 / 256;
    var n3 := n2 / 256;
    [(n3 % 256) as byte, (n2 % 256) as byte, (n1 % 256) as byte, (n % 256) as byte]
  }

  function FromBigEndian(h: seq<byte>): nat
    requires |h| == 4
  {
    h[0] as nat * 0x100_0000 + h[1] as nat * 0x1_0000 + h[2] as nat * 0x100 + h[3] as nat
  }

  lemma HeaderRoundTrip(n: nat)
    requires n < 0x1_0000_0000
    ensures FromBigEndian(BigEndian(n)) == n
  {
  }

  /** Everything after the greeting: length-prefixed chunks, then a zero length. */
  function Frames(bytes: seq<byte>): seq<byte> {
    if bytes == [] then [0, 0, 0, 0]
    else
      var n := Min(CHUNK, |bytes|);
      BigEndian(n) + bytes[..n] + Frames(bytes[n..])
  }

  /** The bytes of an ASCII text. */
  predicate Spells(bytes: seq<byte>, text: string) {
    |bytes| == |text| && forall i :: 0 <= i < |bytes| ==> bytes[i] as int == text[i] as int
  }

  /** The greeting is clamd's command with its zero byte. */
  lemma GreetingSpells()
    ensures Spells(GREETING, "zINSTREAM\0")
  {
  }

  /** How many chunks of at most 64 KiB some bytes take. */
  function Chunks(n: nat): nat {
    (n + 65535) / 65536
  }

  /** Four bytes of header for every chunk of 64 KiB or the rest, and four for the end. */
  lemma {:induction false} FramesLength(bytes: seq<byte>)
    ensures |Frames(bytes)| == |bytes| + 4 * Chunks(|bytes|) + 4
    decreases |bytes|
  {
    if bytes != [] {
      FramesLength(bytes[Min(CHUNK, |bytes|)..]);
    }
  }

  class Socket {
    var written: seq<byte>

    constructor ()
      ensures written == []
    {
      written := [];
    }

    method Write(data: seq<byte>)
      modifies this
      ensures written == old(written) + data
    {
      written := written + data;
    }

    /** What the gateway sends once connected. */
    method SendInstream(bytes: seq<byte>)
      modifies this
      ensures written == old(written) + GREETING + Frames(bytes) && Spells(GREETING, "zINSTREAM\0")
    {
      GreetingSpells();
      ghost var whole := written + GREETING + Frames(bytes);
      Write(GREETING);
      var offset := 0;
      assert bytes[0..] == bytes;
      while offset < |bytes|
        invariant offset <= |bytes|
        invariant written + Frames(bytes[offset..]) == whole
      {
        var chunk := bytes[offset..Min(offset + CHUNK, |bytes|)];
        FramesUnroll(written, bytes, offset, chunk);
        Write(BigEndian(|chunk|) + chunk);
        offset := offset + |chunk|;
      }
      assert bytes[offset..] == [];
      Write([0, 0, 0, 0]);
    }
  }

  lemma FramesUnroll(sent: seq<byte>, bytes: seq<byte>, offset: nat, chunk: seq<byte>)
    requires offset < |bytes| && chunk == bytes[offset..Min(offset + CHUNK, |bytes|)]
    ensures sent + Frames(bytes[offset..])
      == sent + (BigEndian(|chunk|) + chunk) + Frames(bytes[offset + |chunk|..])
  {
    var rest := bytes[offset..];
    assert |chunk| == Min(CHUNK, |rest|) && rest[..|chunk|] == chunk;
    assert rest[|chunk|..] == bytes[offset + |chunk|..];
    var frame, next := BigEndian(|chunk|) + chunk, Frames(bytes[offset + |chunk|..]);
    assert Frames(rest) == frame + next;
    assert sent + (frame + next) == (sent + frame) + next;
  }

  // ---------------------------------------------------------------- the daemon's side

  datatype Decoded = Incomplete | Stream(bytes: seq<byte>, rest: seq<byte>)

  /** Reads length-prefixed chunks up to the zero length. */
  function DecodeFrames(wire: seq<byte>): Decoded
    decreases |wire|
  {
    if |wire| < 4 then Incomplete
    else
      var n := FromBigEndian(wire[..4]);
      if n == 0 then Stream([], wire[4..])
      else if |wire| < 4 + n then Incomplete
      else match DecodeFrames(wire[4 + n..])
        case Incomplete => Incomplete
        case Stream(bytes, rest) => Stream(wire[4..4 + n] + bytes, rest)
  }

  function Decode(wire: seq<byte>): Decoded {
    if GREETING <= wire then DecodeFrames(wire[|GREETING|..]) else Incomplete
  }

  lemma DecodeOne(chunk: seq<byte>, next: seq<byte>, tail: seq<byte>)
    requires 0 < |chunk| <= CHUNK
    ensures DecodeFrames(BigEndian(|chunk|) + chunk + next + tail)
      == match DecodeFrames(next + tail)
         case Incomplete => Incomplete
         case Stream(bytes, rest) => Stream(chunk + bytes, rest)
  {
    var all := BigEndian(|chunk|) + chunk + next + tail;
    HeaderRoundTrip(|chunk|);
    assert all[..4] == BigEndian(|chunk|);
    assert all[4..4 + |chunk|] == chunk;
    assert all[4 + |chunk|..] == next + tail;
  }

  lemma DecodeEnd(tail: seq<byte>)
    ensures DecodeFrames([0, 0, 0, 0] + tail) == Stream([], tail)
  {
    var wire := [0, 0, 0, 0] + tail;
    assert wire[..4] == [0, 0, 0, 0] && wire[4..] == tail;
  }

  lemma {:induction false} FramesDecode(bytes: seq<byte>, tail: seq<byte>)
    ensures DecodeFrames(Frames(bytes) + tail) == Stream(bytes, tail)
    decreases |bytes|
  {
    if bytes == [] {
      DecodeEnd(tail);
    } else {
      var n := Min(CHUNK, |bytes|);
      var chunk, more := bytes[..n], bytes[n..];
      assert bytes == chunk + more && |chunk| == n;
      FramesDecode(more, tail);
      DecodeOne(chunk, Frames(more), tail);
    }
  }

  /** The daemon reads back exactly the bytes sent, and stops exactly at the end of the stream. */
  lemma InstreamRoundTrip(bytes: seq<byte>, tail: seq<byte>)
    ensures Decode(GREETING + Frames(bytes) + tail) == Stream(bytes, tail)
  {
    var wire := GREETING + Frames(bytes) + tail;
    assert wire == GREETING + (Frames(bytes) + tail);
    assert wire[|GREETING|..] == Frames(bytes) + tail;
    FramesDecode(bytes, tail);
  }

  /** No proper prefix of what is sent is taken for a whole stream: the zero length appears once, last. */
  lemma {:induction false} FramesArePrefixFree(bytes: seq<byte>, k: nat)
    requires k < |Frames(bytes)|
    ensures DecodeFrames(Frames(bytes)[..k]) == Incomplete
    decreases |bytes|
  {
    if bytes != [] {
      var n := Min(CHUNK, |bytes|);
      var wire, rest := Frames(bytes), Frames(bytes[n..]);
      HeaderRoundTrip(n);
      if k >= 4 {
        assert wire[..k][..4] == BigEndian(n);
        if k >= 4 + n {
          assert wire[..k][4 + n..] == rest[..k - 4 - n];
          FramesArePrefixFree(bytes[n..], k - 4 - n);
        }
      }
    }
  }
}
