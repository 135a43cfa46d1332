/**
 * The framing the client pipeline installs: `LengthFieldPrepender(4, false)`
 * on the way out and `LengthFieldBasedFrameDecoder(Integer.MAX_VALUE, 0, 4,
 * 0, 4)` on the way in. A frame is a 4-byte big-endian payload length, not
 * counting itself, followed by the payload.
 */
module Frame {
  newtype byte = x: int | 0 <= x < 256

  const MaxInt: nat := 0x7FFF_FFFF
  /** lengthFieldLength, and also initialBytesToStrip. */
  const HeaderLength: nat := 4

  /** A count as written by `writeInt`, most significant byte first. */
  function LengthField(n: nat): (r: seq<byte>)
    requires n <= MaxInt
    ensures |r| == HeaderLength
  {
    [(n / 0x100 / 0x100 / 0x100) as byte, (n / 0x100 / 0x100 % 0x100) as byte,
     (n / 0x100 % 0x100) as byte, (n % 0x100) as byte]
  }

  /** The unsigned 4-byte length at offset 0. */
  function ReadLength(b: seq<byte>): nat
    requires |b| >= HeaderLength
  {
    (((b[0] as nat) * 0x100 + b[1] as nat) * 0x100 + b[2] as nat) * 0x100 + b[3] as nat
  }

  lemma DivMod256(q: nat, r: nat)
    requires r < 0x100
    ensures (q * 0x100 + r) / 0x100 == q && (q * 0x100 + r) % 0x100 == r
  {
  }

  lemma ReadLengthField(n: nat)
    requires n <= MaxInt
    ensures ReadLength(LengthField(n)) == n
  {
    var n1 := n / 0x100;
    var n2 := n1 / 0x100;
    assert n == n1 * 0x100 + n % 0x100;
    assert n1 == n2 * 0x100 + n1 % 0x100;
    assert n2 == (n2 / 0x100) * 0x100 + n2 % 0x100;
    assert n2 / 0x100 < 0x100;
  }

  /** Four bytes are determined by the length they encode. */
  lemma HeaderDetermined(a: seq<byte>, b: seq<byte>)
    requires |a| == HeaderLength && |b| == HeaderLength && ReadLength(a) == ReadLength(b)
    ensures a == b
  {
    DigitsOf(a);
    DigitsOf(b);
  }

  lemma DigitsOf(a: seq<byte>)
    requires |a| == HeaderLength
    ensures var x := ReadLength(a);
      && a[3] as nat == x % 0x100 && a[2] as nat == x / 0x100 % 0x100
      && a[1] as nat == x / 0x100 / 0x100 % 0x100 && a[0] as nat == x / 0x100 / 0x100 / 0x100
  {
    var x2 := (a[0] as nat) * 0x100 + a[1] as nat;
    var x1 := x2 * 0x100 + a[2] as nat;
    DivMod256(x1, a[3] as nat);
    DivMod256(x2, a[2] as nat);
    DivMod256(a[0] as nat, a[1] as nat);
  }

  /** The prepender: the payload's length, then the payload. A ByteBuf holds
      at most Integer.MAX_VALUE bytes. */
  function Encode(payload: seq<byte>): (r: seq<byte>)
    requires |payload| <= MaxInt
    ensures |r| == HeaderLength + |payload|
    ensures r[HeaderLength..] == payload
  {
    LengthField(|payload|) + payload
  }

  /** One decode step on the bytes received so far. */
  datatype Decoded =
    | NeedMore
    | Frame(payload: seq<byte>, rest: seq<byte>)
    | TooLong(frameLength: nat)

  /** The frame decoder: wait for the header; the frame length is the field
      plus the 4 header bytes; one longer than maxFrameLength is rejected
      before waiting for its bytes; otherwise wait for the whole frame and
      hand on its payload with the header stripped. */
  function Decode(buf: seq<byte>): (r: Decoded)
    ensures r.Frame? ==> |r.rest| < |buf|
    ensures r.Frame? ==> |r.payload| + HeaderLength <= MaxInt
    ensures r.Frame? ==> buf == LengthField(|r.payload|) + r.payload + r.rest
  {
    if |buf| < HeaderLength then NeedMore
    else
      var frameLength := ReadLength(buf) + HeaderLength;
      if frameLength > MaxInt then TooLong(frameLength)
      else if |buf| < frameLength then NeedMore
      else
        var n := frameLength - HeaderLength;
        assert buf[..HeaderLength] == LengthField(n) by {
          HeaderDetermined(buf[..HeaderLength], LengthField(n));
          ReadLengthField(n);
        }
        assert buf == buf[..HeaderLength] + buf[HeaderLength..frameLength] + buf[frameLength..];
        Frame(buf[HeaderLength..frameLength], buf[frameLength..])
  }

  /** A frame followed by anything decodes to its payload and leaves the
      anything, when the frame fits maxFrameLength. */
  lemma DecodeEncode(payload: seq<byte>, rest: seq<byte>)
    requires |payload| + HeaderLength <= MaxInt
    ensures Decode(Encode(payload) + rest) == Frame(payload, rest)
  {
    var buf := Encode(payload) + rest;
    assert buf[..HeaderLength] == LengthField(|payload|);
    ReadLengthField(|payload|);
    assert buf[HeaderLength..HeaderLength + |payload|] == payload;
    assert buf[HeaderLength + |payload|..] == rest;
  }

  /** Bytes short of a whole frame make the decoder wait. */
  lemma DecodePrefix(payload: seq<byte>, k: nat)
    requires |payload| + HeaderLength <= MaxInt && k < HeaderLength + |payload|
    ensures Decode(Encode(payload)[..k]) == NeedMore
  {
    if k >= HeaderLength {
      assert Encode(payload)[..k][..HeaderLength] == LengthField(|payload|);
      ReadLengthField(|payload|);
    }
  }

  /** The encoder accepts payloads the decoder rejects: the decoder counts
      the 4 header bytes against Integer.MAX_VALUE, the encoder does not. */
  lemma LongPayloadRejected(payload: seq<byte>, rest: seq<byte>)
    requires MaxInt < |payload| + HeaderLength && |payload| <= MaxInt
    ensures Decode(Encode(payload) + rest) == TooLong(|payload| + HeaderLength)
  {
    var buf := Encode(payload) + rest;
    assert buf[..HeaderLength] == LengthField(|payload|);
    ReadLengthField(|payload|);
  }

  predicate Framable(ps: seq<seq<byte>>) {
    forall i :: 0 <= i < |ps| ==> |ps[i]| + HeaderLength <= MaxInt
  }

  /** Several messages written one after the other on a channel. */
  function EncodeAll(ps: seq<seq<byte>>): seq<byte>
    requires Framable(ps)
  {
    if ps == [] then [] else Encode(ps[0]) + EncodeAll(ps[1..])
  }

  /** The decoder run until it waits or fails: the payloads handed on, and
      the bytes left over. */
  function DecodeAll(buf: seq<byte>): (seq<seq<byte>>, seq<byte>)
    decreases |buf|
  {
    match Decode(buf)
    case Frame(p, rest) => var (ps, left) := DecodeAll(rest); ([p] + ps, left)
    case _ => ([], buf)
  }

  /** Whatever is written on the channel is what the other end reads back,
      message by message and nothing left over. */
  lemma {:induction false} DecodeAllEncodeAll(ps: seq<seq<byte>>)
    requires Framable(ps)
    ensures DecodeAll(EncodeAll(ps)) == (ps, [])
  {
    if ps != [] {
      var buf := EncodeAll(ps);
      DecodeEncode(ps[0], EncodeAll(ps[1..]));
      assert Decode(buf) == Frame(ps[0], EncodeAll(ps[1..]));
      DecodeAllEncodeAll(ps[1..]);
      assert DecodeAll(buf) == ([ps[0]] + ps[1..], []);
      assert [ps[0]] + ps[1..] == ps;
    }
  }
}
