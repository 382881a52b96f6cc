/** Length-prefixed blobs on a byte stream. */
module BlobFraming {
  import opened Common

  type Byte = b: int | 0 <= b < 256

  type Bytes = seq<Byte>

  const MAX_BLOB_BYTES: nat := 1024 * 1024

  datatype IoError = InvalidInput | InvalidData | UnexpectedEof | Transport

  // ---------------------------------------------------------------- the wire format

  function ToBytes(n: nat): (r: Bytes)
    requires n < 0x1_0000_0000
    ensures |r| == 4 && FromBytes(r) == n
  {
    var high, low := n / 0x1_0000, n % 0x1_0000;
    [high / 0x100, high % 0x100, low / 0x100, low % 0x100]
  }

  function FromBytes(b: Bytes): nat
    requires |b| == 4
  {
    var b0: int, b1: int, b2: int, b3: int := b[0], b[1], b[2], b[3];
    b0 * 0x100_0000 + b1 * 0x1_0000 + b2 * 0x100 + b3
  }

  function Frame(blob: Bytes): Bytes
    requires |blob| <= MAX_BLOB_BYTES
  {
    ToBytes(|blob|) + blob
  }

  /** Bytes as one number, the most significant first. */
  function BigEndian(b: Bytes): nat {
    if b == [] then 0 else BigEndian(b[..|b| - 1]) * 256 + b[|b| - 1]
  }

  /** On the wire a blob is four bytes that count it, the most significant first, and its own bytes. */
  lemma FrameLayout(blob: Bytes)
    requires |blob| <= MAX_BLOB_BYTES
    ensures |Frame(blob)| == 4 + |blob| && BigEndian(Frame(blob)[..4]) == |blob| && Frame(blob)[4..] == blob
  {
    var b := ToBytes(|blob|);
    assert Frame(blob)[..4] == b;
    assert b[..3][..2] == b[..2] && b[..2][..1] == b[..1] && b[..1][..0] == [];
    assert BigEndian(b[..1]) == b[0] && BigEndian(b[..2]) == b[0] * 256 + b[1];
    assert BigEndian(b[..3]) == BigEndian(b[..2]) * 256 + b[2];
  }

  predicate Writable(blobs: seq<Bytes>) { forall i :: 0 <= i < |blobs| ==> |blobs[i]| <= 1_048_576 }

  /** Blobs the reader accepts: the writer also lets empty ones through. */
  predicate Readable(blobs: seq<Bytes>) { forall i :: 0 <= i < |blobs| ==> 1 <= |blobs[i]| <= 1_048_576 }

  function Encode(blobs: seq<Bytes>): Bytes
    requires Writable(blobs)
  {
    if blobs == [] then [] else Frame(blobs[0]) + Encode(blobs[1..])
  }

  /** One read: its answer, and what it leaves on the stream. */
  function ReadFrame(s: Bytes): (Result<Option<Bytes>, IoError>, Bytes) {
    if |s| < 4 then (Ok(None), [])
    else
      var len, body := FromBytes(s[..4]), s[4..];
      if len == 0 || len > MAX_BLOB_BYTES then (Err(InvalidData), body)
      else if |body| < len then (Err(UnexpectedEof), [])
      else (Ok(Some(body[..len])), body[len..])
  }

  /** The end counts as clean exactly when no whole length prefix is left, so also after one to three
      bytes of one. */
  lemma CleanEndIffNoPrefix(s: Bytes)
    ensures ReadFrame(s).0 == Ok(None) <==> |s| < 4
    ensures ReadFrame([0]) == (Ok(None), []) && ReadFrame([0, 0, 1]) == (Ok(None), [])
  {}

  /** How a stream stops: at its end, or because the transport fails there. */
  datatype Stop = End | Fault

  /** The same read on a stream that may fail: the failure takes the place of the end. */
  function ReadFrameUntil(s: Bytes, stop: Stop): (Result<Option<Bytes>, IoError>, Bytes) {
    var (r, rest) := ReadFrame(s);
    if stop == Fault && (r == Ok(None) || r == Err(UnexpectedEof)) then (Err(Transport), rest) else (r, rest)
  }

  /** A failing stream never looks cleanly ended, and gives the blobs it carries whole. */
  lemma FaultsAreReported(s: Bytes)
    ensures ReadFrameUntil(s, Fault).0 != Ok(None)
    ensures ReadFrameUntil(s, Fault).0 == Err(Transport) <==> ReadFrame(s).0 in {Ok(None), Err(UnexpectedEof)}
    ensures ReadFrame(s).0.Ok? && ReadFrame(s).0.value.Some? ==> ReadFrameUntil(s, Fault) == ReadFrame(s)
  {}

  // ---------------------------------------------------------------- reader and writer

  class Writer {
    var written: Bytes

    constructor ()
      ensures written == []
    {
      written := [];
    }

    /** Append one frame, or nothing at all when the blob is too large. */
    method WriteBlob(data: Bytes) returns (r: Result<(), IoError>)
      modifies this
      ensures |data| <= 1_048_576 ==> r == Ok(()) && written == old(written) + Frame(data)
      ensures |data| > 1_048_576 ==> r == Err(InvalidInput) && written == old(written)
    {
      if |data| > MAX_BLOB_BYTES { return Err(InvalidInput); }
      written := written + ToBytes(|data|);
      written := written + data;
      r := Ok(());
    }
  }

  class Reader {
    var rest: Bytes
    const stop: Stop

    constructor (stream: Bytes, stop: Stop)
      ensures rest == stream && this.stop == stop
    {
      rest := stream;
      this.stop := stop;
    }

    /** Fill a buffer of `n` bytes, or use up the stream trying. */
    method ReadExact(n: nat) returns (data: Result<Bytes, IoError>)
      modifies this
      ensures |old(rest)| >= n ==> data == Ok(old(rest)[..n]) && rest == old(rest)[n..]
      ensures |old(rest)| < n ==> data == Err(if stop == End then UnexpectedEof else Transport) && rest == []
    {
      if |rest| < n {
        rest := [];
        return Err(if stop == End then UnexpectedEof else Transport);
      }
      data := Ok(rest[..n]);
      rest := rest[n..];
    }

    method ReadBlob() returns (r: Result<Option<Bytes>, IoError>)
      modifies this
      ensures (r, rest) == ReadFrameUntil(old(rest), stop)
    {
      var prefix := ReadExact(4);
      if prefix.Err? {
        if prefix.error == UnexpectedEof { return Ok(None); }
        return Err(prefix.error);
      }
      var len := FromBytes(prefix.value);
      if len == 0 || len > MAX_BLOB_BYTES { return Err(InvalidData); }
      var data := ReadExact(len);
      if data.Err? { return Err(data.error); }
      r := Ok(Some(data.value));
    }
  }

  // ---------------------------------------------------------------- reading a whole stream

  /** Blobs read until the stream ends or fails, and the error it failed with. */
  function ReadAll(s: Bytes): (seq<Bytes>, Option<IoError>)
    decreases |s|
  {
    var (r, rest) := ReadFrame(s);
    match r
    case Ok(Some(blob)) => var (blobs, e) := ReadAll(rest); ([blob] + blobs, e)
    case Ok(None) => ([], None)
    case Err(e) => ([], Some(e))
  }

  /** A written blob reads back, and the rest of the stream is untouched, exactly when it is not empty. */
  lemma FrameReadsBack(blob: Bytes, rest: Bytes)
    requires |blob| <= MAX_BLOB_BYTES
    ensures ReadFrame(Frame(blob) + rest) == (Ok(Some(blob)), rest) <==> blob != []
    ensures blob == [] ==> ReadFrame(Frame(blob) + rest) == (Err(InvalidData), rest)
  {
    var s := Frame(blob) + rest;
    assert s[..4] == ToBytes(|blob|) && s[4..] == blob + rest;
  }

  /** Round trip: reading to the end of the stream returns the blobs that were written. */
  lemma {:induction false} RoundTrip(blobs: seq<Bytes>)
    requires Readable(blobs)
    ensures ReadAll(Encode(blobs)) == (blobs, None)
  {
    if blobs != [] {
      FrameReadsBack(blobs[0], Encode(blobs[1..]));
      RoundTrip(blobs[1..]);
      assert blobs == [blobs[0]] + blobs[1..];
    }
  }

  lemma UniquelyDecodable(a: seq<Bytes>, b: seq<Bytes>)
    requires Readable(a) && Readable(b) && Encode(a) == Encode(b)
    ensures a == b
  {
    RoundTrip(a);
    RoundTrip(b);
  }

  lemma FrameOfRead(s: Bytes)
    requires ReadFrame(s).0.Ok? && ReadFrame(s).0.value.Some?
    ensures var blob := ReadFrame(s).0.value.value;
            1 <= |blob| <= MAX_BLOB_BYTES && s == Frame(blob) + ReadFrame(s).1
  {
    var blob := ReadFrame(s).0.value.value;
    assert s == s[..4] + s[4..] && s[4..] == blob + ReadFrame(s).1;
    BytesUnique(s[..4]);
  }

  lemma BytesUnique(b: Bytes)
    requires |b| == 4
    ensures FromBytes(b) < 0x1_0000_0000 && ToBytes(FromBytes(b)) == b
  {
    var n := FromBytes(b);
    var b0: int, b1: int, b2: int, b3: int := b[0], b[1], b[2], b[3];
    assert n / 0x1_0000 == b0 * 0x100 + b1 && n % 0x1_0000 == b2 * 0x100 + b3;
  }

  /** Nothing is invented: whatever bytes arrive, the blobs read are the frames the stream starts with. */
  lemma {:induction false} ReadsOnlyWhatIsThere(s: Bytes)
    ensures Readable(ReadAll(s).0) && Encode(ReadAll(s).0) <= s
    decreases |s|
  {
    var (r, rest) := ReadFrame(s);
    if r.Ok? && r.value.Some? {
      FrameOfRead(s);
      ReadsOnlyWhatIsThere(rest);
      var (blobs, e) := ReadAll(rest);
      assert ([r.value.value] + blobs)[1..] == blobs;
    }
  }

  // ---------------------------------------------------------------- truncation

  /** Frames that survive whole when the encoding is cut after `n` bytes, and the bytes left over. */
  function WholeFrames(blobs: seq<Bytes>, n: nat): (nat, nat)
    requires Writable(blobs)
  {
    if blobs == [] || n < |Frame(blobs[0])| then (0, n)
    else var (k, left) := WholeFrames(blobs[1..], n - |Frame(blobs[0])|); (k + 1, left)
  }

  /** Every truncation yields a prefix of the blobs, as many as survived whole. The end is reported
      as clean exactly when fewer than four bytes of the next frame are left. */
  lemma {:induction false} TruncationYieldsPrefix(blobs: seq<Bytes>, n: nat)
    requires Readable(blobs) && n <= |Encode(blobs)|
    ensures var (k, left) := WholeFrames(blobs, n);
            && k <= |blobs|
            && ReadAll(Encode(blobs)[..n]) == (blobs[..k], if left < 4 then None else Some(UnexpectedEof))
  {
    hide ToBytes, FromBytes;
    if blobs != [] {
      var frame, tail := Frame(blobs[0]), Encode(blobs[1..]);
      var cut := Encode(blobs)[..n];
      if n < |frame| {
        TruncatedFrame(blobs[0], n);
        assert cut == frame[..n];
      } else {
        var m := n - |frame|;
        assert cut == frame + tail[..m];
        FrameReadsBack(blobs[0], tail[..m]);
        TruncationYieldsPrefix(blobs[1..], m);
        var (k, left) := WholeFrames(blobs[1..], m);
        assert blobs[..k + 1] == [blobs[0]] + blobs[1..][..k];
      }
    }
  }

  lemma TruncatedFrame(blob: Bytes, n: nat)
    requires 1 <= |blob| <= MAX_BLOB_BYTES && n < |Frame(blob)|
    ensures ReadFrame(Frame(blob)[..n]) == (if n < 4 then Ok(None) else Err(UnexpectedEof), [])
  {
    if n >= 4 {
      assert Frame(blob)[..n][..4] == ToBytes(|blob|);
    }
  }
}
