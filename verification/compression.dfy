/** The batch wire format: a count, then each message behind its length. */
module WireFormat {
  import opened Prelude

  datatype DecodeError = BatchTooSmall | IncompleteBatch | IncompleteMessage

  /** The number of bytes of a 32-bit word. */
  const WORD: nat := 4

  /** How many numbers `k` bytes can tell apart. */
  function Span(k: nat): nat {
    if k == 0 then 1 else 256 * Span(k - 1)
  }

  /** The low `k` bytes of `n`, least significant first. */
  function LittleEndian(n: nat, k: nat): (r: Bytes)
    ensures |r| == k
    decreases n, k
  {
    if k == 0 then [] else [n % 256] + LittleEndian(n / 256, k - 1)
  }

  function FromLittleEndian(b: Bytes): nat {
    if b == [] then 0 else b[0] as int + 256 * FromLittleEndian(b[1..])
  }

  /** `(n as u32).to_le_bytes()`: the cast drops everything above 32 bits. */
  function Le32(n: nat): (r: Bytes)
    ensures |r| == WORD
  {
    LittleEndian(n, WORD)
  }

  /** The four bytes of a word, least significant first. */
  lemma WordBytes(n: nat)
    ensures Le32(n) == [n % 256, n / 256 % 256, n / 65536 % 256, n / 16777216 % 256]
  {
    assert LittleEndian(n, 4) == [n % 256] + LittleEndian(n / 256, 3);
    assert LittleEndian(n / 256, 3) == [n / 256 % 256] + LittleEndian(n / 65536, 2);
    assert LittleEndian(n / 65536, 2) == [n / 65536 % 256] + LittleEndian(n / 16777216, 1);
    assert LittleEndian(n / 16777216, 1) == [n / 16777216 % 256];
  }

  function FromLe32(b: Bytes): nat
    requires |b| == WORD
  {
    FromLittleEndian(b)
  }

  /** What is left of `n` above its low `k` bytes. */
  function Above(n: nat, k: nat): nat
    decreases k
  {
    if k == 0 then n else Above(n / 256, k - 1)
  }

  lemma Recompose(q: nat, low: nat, m: nat, high: nat)
    requires q == low + m * high
    ensures 256 * q == 256 * low + (256 * m) * high
  {
  }

  lemma {:induction false} LowBytesExact(n: nat, k: nat)
    ensures n == FromLittleEndian(LittleEndian(n, k)) + Span(k) * Above(n, k)
    decreases k
  {
    if k == 0 {
    } else {
      var low, m, high := FromLittleEndian(LittleEndian(n / 256, k - 1)), Span(k - 1), Above(n / 256, k - 1);
      LowBytesExact(n / 256, k - 1);
      Recompose(n / 256, low, m, high);
    }
  }

  lemma {:induction false} BytesCanonical(b: Bytes)
    ensures FromLittleEndian(b) < Span(|b|) && LittleEndian(FromLittleEndian(b), |b|) == b
  {
    if b == [] {
    } else {
      BytesCanonical(b[1..]);
      assert FromLittleEndian(b) / 256 == FromLittleEndian(b[1..]) && FromLittleEndian(b) % 256 == b[0];
    }
  }

  lemma WordSpan()
    ensures Span(WORD) == U32_SPAN
  {
    assert Span(1) == 256;
    assert Span(2) == 65536;
  }

  lemma WordRoundTrip(n: nat)
    ensures FromLe32(Le32(n)) == n % U32_SPAN
  {
    WordSpan();
    LowBytesExact(n, WORD);
    BytesCanonical(LittleEndian(n, WORD));
  }

  lemma WordCanonical(b: Bytes)
    requires |b| == WORD
    ensures FromLe32(b) < U32_SPAN && Le32(FromLe32(b)) == b
  {
    WordSpan();
    BytesCanonical(b);
  }

  function Payload(ms: seq<Bytes>): nat {
    if ms == [] then 0 else |ms[0]| + Payload(ms[1..])
  }

  function EncodeBody(ms: seq<Bytes>): Bytes {
    if ms == [] then [] else Le32(|ms[0]|) + ms[0] + EncodeBody(ms[1..])
  }

  function Encode(ms: seq<Bytes>): Bytes {
    Le32(|ms|) + EncodeBody(ms)
  }

  /** The sizes that survive the casts to `u32`. */
  ghost predicate Fits(ms: seq<Bytes>) {
    |ms| < U32_SPAN && FitsEach(ms)
  }

  ghost predicate FitsEach(ms: seq<Bytes>) {
    forall i :: 0 <= i < |ms| ==> |ms[i]| < U32_SPAN
  }

  function DecodeBody(b: Bytes, n: nat): Result<seq<Bytes>, DecodeError>
    decreases n
  {
    if n == 0 then Ok([])
    else if |b| < 4 then Err(IncompleteBatch)
    else
      var len := FromLe32(b[..4]);
      if |b| < 4 + len then Err(IncompleteMessage)
      else
        match DecodeBody(b[4 + len..], n - 1)
        case Ok(rest) => Ok([b[4..4 + len]] + rest)
        case Err(e) => Err(e)
  }

  function Decode(b: Bytes): Result<seq<Bytes>, DecodeError> {
    if |b| < 4 then Err(BatchTooSmall) else DecodeBody(b[4..], FromLe32(b[..4]))
  }

  lemma {:induction false} EncodedLength(ms: seq<Bytes>)
    ensures |Encode(ms)| == 4 + 4 * |ms| + Payload(ms)
  {
    if ms == [] {
    } else {
      EncodedLength(ms[1..]);
    }
  }

  lemma Pieces(a: Bytes, b: Bytes, c: Bytes, d: Bytes)
    ensures var s := (a + b + c) + d;
            s[..|a|] == a && s[|a|..|a| + |b|] == b && s[|a| + |b|..] == c + d
  {
  }

  /** Where the first message of an encoded list lies. */
  lemma EncodedHead(ms: seq<Bytes>, junk: Bytes)
    requires ms != []
    ensures var b := EncodeBody(ms) + junk; var len := |ms[0]|;
            && |b| >= 4 + len && b[..4] == Le32(len) && b[4..4 + len] == ms[0]
            && b[4 + len..] == EncodeBody(ms[1..]) + junk
  {
    hide Le32;
    var word, rest := Le32(|ms[0]|), EncodeBody(ms[1..]);
    assert EncodeBody(ms) == word + ms[0] + rest;
    hide EncodeBody;
    Pieces(word, ms[0], rest, junk);
  }

  lemma {:induction false} DecodeBodyComplete(ms: seq<Bytes>, junk: Bytes)
    requires FitsEach(ms)
    ensures DecodeBody(EncodeBody(ms) + junk, |ms|) == Ok(ms)
  {
    hide Le32, FromLe32;
    if ms == [] {
    } else {
      EncodedHead(ms, junk);
      hide EncodeBody;
      WordRoundTrip(|ms[0]|);
      DecodeBodyComplete(ms[1..], junk);
      assert [ms[0]] + ms[1..] == ms;
    }
  }

  lemma {:induction false} DecodeBodySound(b: Bytes, n: nat)
    requires DecodeBody(b, n).Ok?
    ensures var ms := DecodeBody(b, n).value; |ms| == n && FitsEach(ms) && EncodeBody(ms) <= b
    decreases n
  {
    hide Le32, FromLe32;
    if n == 0 {
    } else {
      var ms := DecodeBody(b, n).value;
      var len := FromLe32(b[..4]);
      DecodeBodySound(b[4 + len..], n - 1);
      WordCanonical(b[..4]);
      assert ms[1..] == DecodeBody(b[4 + len..], n - 1).value;
      assert b == b[..4] + b[4..4 + len] + b[4 + len..];
    }
  }

  /** The parser accepts exactly the inputs that begin with the encoding of messages
      whose sizes fit, and returns those messages. */
  lemma DecodeExact(b: Bytes, ms: seq<Bytes>)
    ensures Decode(b) == Ok(ms) <==> Fits(ms) && Encode(ms) <= b
  {
    hide Le32, FromLe32;
    if Fits(ms) && Encode(ms) <= b {
      var junk := b[|Encode(ms)|..];
      assert b[..4] == Encode(ms)[..4] == Le32(|ms|);
      WordRoundTrip(|ms|);
      assert b[4..] == EncodeBody(ms) + junk;
      DecodeBodyComplete(ms, junk);
    }
    if Decode(b) == Ok(ms) {
      var n := FromLe32(b[..4]);
      DecodeBodySound(b[4..], n);
      WordCanonical(b[..4]);
      assert b == b[..4] + b[4..];
    }
  }

  /** Encoding followed by parsing is the identity exactly on messages whose sizes fit. */
  lemma RoundTripIff(ms: seq<Bytes>)
    ensures Decode(Encode(ms)) == Ok(ms) <==> Fits(ms)
  {
    DecodeExact(Encode(ms), ms);
  }

  /** No bytes at all, as an empty flush returns them, are not a batch. */
  lemma EmptyIsNotABatch()
    ensures Decode([]) == Err(BatchTooSmall)
  {
  }

  /** No legal batch is a proper prefix of another. */
  lemma PrefixFree(a: seq<Bytes>, b: seq<Bytes>)
    requires Fits(a) && Fits(b) && Encode(a) <= Encode(b)
    ensures a == b
  {
    DecodeExact(Encode(b), a);
    DecodeExact(Encode(b), b);
  }

  /** A legal batch cut short anywhere is refused. */
  lemma TruncationRejected(ms: seq<Bytes>, k: nat)
    requires Fits(ms) && k < |Encode(ms)|
    ensures Decode(Encode(ms)[..k]).Err?
  {
    var cut := Encode(ms)[..k];
    if Decode(cut).Ok? {
      var got := Decode(cut).value;
      DecodeExact(cut, got);
      PrefixFree(got, ms);
      assert false;
    }
  }

  lemma {:induction false} CutBody(ms: seq<Bytes>, i: nat, b: Bytes)
    requires FitsEach(ms) && i < |ms| && b <= EncodeBody(ms)
    requires |EncodeBody(ms[..i])| <= |b| < |EncodeBody(ms[..i])| + 4 + |ms[i]|
    ensures DecodeBody(b, |ms|)
            == Err(if |b| < |EncodeBody(ms[..i])| + 4 then IncompleteBatch else IncompleteMessage)
  {
    hide Le32, FromLe32;
    var len := |ms[0]|;
    EncodedHead(ms, []);
    assert EncodeBody(ms) + [] == EncodeBody(ms);
    WordRoundTrip(len);
    assert |b| >= 4 ==> b[..4] == Le32(len);
    if i == 0 {
    } else {
      assert ms[..i][1..] == ms[1..][..i - 1];
      CutBody(ms[1..], i - 1, b[4 + len..]);
    }
  }

  /** Where it is cut decides the error: in the count, in the length before message `i`, or in
      message `i` itself. */
  lemma TruncationKind(ms: seq<Bytes>, i: nat, k: nat)
    requires Fits(ms) && k < |Encode(ms)|
    ensures k < 4 ==> Decode(Encode(ms)[..k]) == Err(BatchTooSmall)
    ensures i < |ms| && |Encode(ms[..i])| <= k < |Encode(ms[..i])| + 4 + |ms[i]| ==>
              Decode(Encode(ms)[..k])
              == Err(if k < |Encode(ms[..i])| + 4 then IncompleteBatch else IncompleteMessage)
  {
    hide Le32, FromLe32;
    if i < |ms| && |Encode(ms[..i])| <= k < |Encode(ms[..i])| + 4 + |ms[i]| {
      WordRoundTrip(|ms|);
      assert Encode(ms)[..k][..4] == Le32(|ms|);
      assert Encode(ms)[..k][4..] == EncodeBody(ms)[..k - 4];
      CutBody(ms, i, EncodeBody(ms)[..k - 4]);
    }
  }

  /** A message of 2^32 bytes comes back as an empty one. */
  lemma OversizeMessageIsLost(m: Bytes)
    requires |m| == U32_SPAN
    ensures Decode(Encode([m])) == Ok([[]])
  {
    assert Le32(|m|) == Le32(0);
    assert EncodeBody([m]) == Le32(0) + m;
    assert EncodeBody([[]]) == Le32(0) + [] + EncodeBody([]);
    assert Encode([[]]) <= Encode([m]);
    DecodeExact(Encode([m]), [[]]);
  }

  /** Whatever comes out of one encoded batch, it is never more messages than went in. */
  lemma DecodeNeverInvents(ms: seq<Bytes>)
    requires Decode(Encode(ms)).Ok?
    ensures |Decode(Encode(ms)).value| <= |ms|
  {
    hide Le32, FromLe32;
    DecodeBodySound(Encode(ms)[4..], FromLe32(Encode(ms)[..4]));
    assert Encode(ms)[..4] == Le32(|ms|);
    WordRoundTrip(|ms|);
  }

  lemma {:induction false} PayloadAppend(a: seq<Bytes>, b: seq<Bytes>)
    ensures Payload(a + b) == Payload(a) + Payload(b)
  {
    if a == [] {
      assert a + b == b;
    } else {
      assert (a + b)[1..] == a[1..] + b;
      PayloadAppend(a[1..], b);
    }
  }

  lemma SliceOfSuffix(b: Bytes, at: nat, len: nat)
    requires at + 4 + len <= |b|
    ensures b[at..][4..4 + len] == b[at + 4..at + 4 + len]
    ensures b[at..][4 + len..] == b[at + 4 + len..]
  {
  }

  /** Parses a batch with a moving cursor. */
  method Unbatch(batch: Bytes) returns (r: Result<seq<Bytes>, DecodeError>)
    ensures r == Decode(batch)
  {
    hide Le32, FromLe32;
    if |batch| < 4 {
      return Err(BatchTooSmall);
    }
    var numMessages := FromLe32(batch[0..4]);
    var cursor := 4;
    var messages: seq<Bytes> := [];
    assert batch[0..4] == batch[..4];
    assert forall rest: seq<Bytes> :: messages + rest == rest;
    for i := 0 to numMessages
      invariant 4 <= cursor <= |batch|
      invariant Decode(batch) == match DecodeBody(batch[cursor..], numMessages - i)
                                 case Ok(rest) => Ok(messages + rest)
                                 case Err(e) => Err(e)
    {
      if cursor + 4 > |batch| {
        return Err(IncompleteBatch);
      }
      ghost var rest := batch[cursor..];
      var len: nat := FromLe32(batch[cursor..cursor + 4]);
      assert rest[..4] == batch[cursor..cursor + 4];
      cursor := cursor + 4;
      if cursor + len > |batch| {
        return Err(IncompleteMessage);
      }
      var message := batch[cursor..cursor + len];
      SliceOfSuffix(batch, cursor - 4, len);
      cursor := cursor + len;
      ghost var tail := DecodeBody(batch[cursor..], numMessages - i - 1);
      assert tail.Ok? ==> messages + ([message] + tail.value) == (messages + [message]) + tail.value;
      messages := messages + [message];
    }
    assert messages + [] == messages;
    return Ok(messages);
  }
}

/** The one-byte frame around Snappy. */
module Compressor {
  import opened Prelude

  const COMPRESSION_THRESHOLD := 1024

  datatype IoError = InvalidData | Codec

  /** The Snappy library, known only through its two entry points. */
  datatype Snappy = Snappy(compress: Bytes -> Option<Bytes>, decompress: Bytes -> Option<Bytes>)

  ghost predicate Lossless(c: Snappy) {
    forall x :: c.compress(x).Some? ==> c.decompress(c.compress(x).value) == Some(x)
  }

  datatype Stats = Stats(bytesIn: nat, bytesOut: nat, bytesDecompressed: nat,
                         compressed: nat, decompressed: nat, skipped: nat)

  function Frame(c: Snappy, data: Bytes): Result<Bytes, IoError> {
    if |data| < COMPRESSION_THRESHOLD then Ok([0] + data)
    else match c.compress(data)
      case None => Err(Codec)
      case Some(z) => Ok(if |z| >= |data| then [0] + data else [1] + z)
  }

  function Unframe(c: Snappy, frame: Bytes): Result<Bytes, IoError> {
    if frame == [] then Err(InvalidData)
    else if frame[0] != 1 then Ok(frame[1..])
    else match c.decompress(frame[1..])
      case None => Err(Codec)
      case Some(x) => Ok(x)
  }

  /** Unframing undoes framing, and a frame costs at most one byte. */
  lemma FrameRoundTrip(c: Snappy, data: Bytes)
    requires Lossless(c) && Frame(c, data).Ok?
    ensures Unframe(c, Frame(c, data).value) == Ok(data)
    ensures 1 <= |Frame(c, data).value| <= |data| + 1
  {
    var w := Frame(c, data).value;
    assert w[0] == 0 ==> w[1..] == data;
    assert w[0] == 1 ==> Some(w[1..]) == c.compress(data);
  }

  /** Framing keeps whatever is shorter: from 1024 bytes on a frame is one byte longer than the
      shorter of the message and its compressed form; below, the codec is not consulted. */
  lemma FrameExact(c: Snappy, c': Snappy, data: Bytes)
    ensures |data| >= 1024 ==>
              (Frame(c, data).Ok? <==> c.compress(data).Some?) && (Frame(c, data).Err? ==> Frame(c, data) == Err(Codec))
    ensures |data| >= 1024 && c.compress(data).Some? ==>
              |Frame(c, data).value| == 1 + Min(|data|, |c.compress(data).value|)
    ensures |data| < 1024 ==> Frame(c, data) == Frame(c', data) && Frame(c, data).Ok?
  {
  }

  /** Which frames unframe to what: every flag but 1 marks plain bytes. */
  lemma UnframeIff(c: Snappy, frame: Bytes, data: Bytes)
    ensures Unframe(c, frame) == Ok(data)
            <==> || (frame != [] && frame == [frame[0]] + data && frame[0] != 1)
                 || exists z: Bytes :: frame == [1] + z && c.decompress(z) == Some(data)
    ensures Unframe(c, frame) == Err(InvalidData) <==> frame == []
    ensures Unframe(c, frame) == Err(Codec) <==> exists z: Bytes :: frame == [1] + z && c.decompress(z).None?
  {
    if frame != [] {
      assert frame == [frame[0]] + frame[1..];
      assert forall z: Bytes :: frame == [1] + z ==> frame[1..] == z;
    }
  }

  class MessageCompressor {
    const codec: Snappy
    var stats: Stats

    constructor (codec: Snappy)
      ensures this.codec == codec && stats == Stats(0, 0, 0, 0, 0, 0)
    {
      this.codec := codec;
      stats := Stats(0, 0, 0, 0, 0, 0);
    }

    /** Every framed message is either skipped or shrunk, and only shrunk ones are measured. */
    method Compress(data: Bytes) returns (r: Result<Bytes, IoError>)
      modifies this
      ensures r == Frame(codec, data)
      ensures r.Err? ==> stats == old(stats)
      ensures r.Ok? && r.value == [0] + data ==> stats == old(stats).(skipped := old(stats.skipped) + 1)
      ensures r.Ok? && r.value != [0] + data ==>
                stats == old(stats).(bytesIn := old(stats.bytesIn) + |data|,
                                     bytesOut := old(stats.bytesOut) + |r.value| - 1,
                                     compressed := old(stats.compressed) + 1)
      ensures old(stats.bytesOut) <= old(stats.bytesIn) ==> stats.bytesOut <= stats.bytesIn
    {
      if |data| < COMPRESSION_THRESHOLD {
        stats := stats.(skipped := stats.skipped + 1);
        return Ok([0] + data);
      }
      var z := codec.compress(data);
      if z.None? {
        return Err(Codec);
      }
      if |z.value| >= |data| {
        stats := stats.(skipped := stats.skipped + 1);
        return Ok([0] + data);
      }
      stats := stats.(bytesIn := stats.bytesIn + |data|,
                      bytesOut := stats.bytesOut + |z.value|,
                      compressed := stats.compressed + 1);
      r := Ok([1] + z.value);
      assert r.value[0] != ([0] + data)[0];
    }

    method Decompress(frame: Bytes) returns (r: Result<Bytes, IoError>)
      modifies this
      ensures r == Unframe(codec, frame)
      ensures stats == if r.Ok? && frame[0] == 1
                       then old(stats).(bytesDecompressed := old(stats.bytesDecompressed) + |r.value|,
                                        decompressed := old(stats.decompressed) + 1)
                       else old(stats)
    {
      if |frame| == 0 {
        return Err(InvalidData);
      }
      var isCompressed := frame[0] == 1;
      var payload := frame[1..];
      if !isCompressed {
        return Ok(payload);
      }
      var x := codec.decompress(payload);
      if x.None? {
        return Err(Codec);
      }
      stats := stats.(bytesDecompressed := stats.bytesDecompressed + |x.value|,
                      decompressed := stats.decompressed + 1);
      return Ok(x.value);
    }
  }
}
