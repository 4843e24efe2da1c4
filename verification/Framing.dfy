/** Length-prefixed frames on a byte stream. */
module Framing {
  import opened Prelude
  import opened Encodings
  import opened Protocol

  const MAX_FRAME_LEN := 64 * 1024

  /** The protobuf codec, as the two functions it is. */
  datatype Codec = Codec(encode: Envelope -> Bytes, decode: Bytes -> Option<Envelope>)

  datatype ReadError = Closed | IoFailed | FrameTooLarge | ZeroLength | DecodeFailed

  /** What can be sent: a body of 1 to 65536 bytes that decodes to what was encoded. */
  ghost predicate Sendable(codec: Codec, e: Envelope) {
    && 1 <= |codec.encode(e)| <= MAX_FRAME_LEN
    && codec.decode(codec.encode(e)) == Some(e)
  }

  ghost predicate AllSendable(codec: Codec, es: seq<Envelope>) {
    forall i :: 0 <= i < |es| ==> Sendable(codec, es[i])
  }

  /** The bytes of one frame. */
  function Frame(body: Bytes): (f: Bytes)
    ensures |f| == 4 + |body|
  {
    U32Bytes(|body|) + body
  }

  function FrameAll(codec: Codec, es: seq<Envelope>): Bytes {
    if es == [] then [] else FrameAll(codec, es[..|es| - 1]) + Frame(codec.encode(es[|es| - 1]))
  }

  /**
   The first frame of a stream that ends after `s`, and what is left of it. `ending` is what reading on
   past the last byte reports: that the peer closed, or that the transport failed.
   */
  function ReadFrame(codec: Codec, s: Bytes, ending: ReadError): (r: (Result<Envelope, ReadError>, Bytes))
    ensures r.0.Ok? ==> |r.1| < |s|
  {
    if |s| < 4 then (Err(ending), [])
    else
      var len, rest := U32Of(s[..4]), s[4..];
      if len > MAX_FRAME_LEN then (Err(FrameTooLarge), rest)
      else if len == 0 then (Err(ZeroLength), rest)
      else if |rest| < len then (Err(ending), [])
      else match codec.decode(rest[..len])
        case None => (Err(DecodeFailed), rest[len..])
        case Some(e) => (Ok(e), rest[len..])
  }

  /** Everything the reader task delivers: the envelopes up to the first error, and that error. */
  function ReadAll(codec: Codec, s: Bytes, ending: ReadError): (seq<Envelope>, ReadError)
    decreases |s|
  {
    match ReadFrame(codec, s, ending)
    case (Err(e), _) => ([], e)
    case (Ok(envelope), rest) => var (es, e) := ReadAll(codec, rest, ending); ([envelope] + es, e)
  }

  /** A byte stream: what has been written and not read yet, and how it ends. */
  class ByteStream {
    var bytes: Bytes
    const ending: ReadError

    constructor (ending: ReadError)
      ensures bytes == [] && this.ending == ending
    {
      bytes, this.ending := [], ending;
    }

    /** Takes bytes until the transport fails, after `room` of them. */
    method WriteBytes(data: Bytes, room: nat) returns (left: nat, ok: bool)
      modifies this
      ensures ok == (|data| <= room)
      ensures bytes == old(bytes) + (if ok then data else data[..room])
      ensures left == if ok then room - |data| else 0
    {
      ok := |data| <= room;
      bytes := bytes + (if ok then data else data[..room]);
      left := if ok then room - |data| else 0;
    }

    /**
     Appends a frame, or nothing at all when the envelope is too large for one; a transport that fails
     after `room` bytes leaves a proper prefix of the frame behind.
     */
    method WriteEnvelope(codec: Codec, e: Envelope, room: nat) returns (ok: bool)
      modifies this
      ensures ok == (|codec.encode(e)| <= MAX_FRAME_LEN && |Frame(codec.encode(e))| <= room)
      ensures bytes == if |codec.encode(e)| > MAX_FRAME_LEN then old(bytes)
                       else if ok then old(bytes) + Frame(codec.encode(e))
                       else old(bytes) + Frame(codec.encode(e))[..room]
    {
      var body := codec.encode(e);
      if |body| > MAX_FRAME_LEN {
        return false;
      }
      var prefix, left := U32Bytes(|body|), 0;
      left, ok := WriteBytes(prefix, room);
      if !ok {
        assert Frame(body)[..room] == prefix[..room];
        return;
      }
      left, ok := WriteBytes(body, left);
      assert !ok ==> Frame(body)[..room] == prefix + body[..room - 4];
    }

    /** `read_exact`: the end of the stream in the middle consumes what was there. */
    method ReadExact(n: nat) returns (r: Result<Bytes, ReadError>)
      modifies this
      ensures n <= |old(bytes)| ==> r == Ok(old(bytes)[..n]) && bytes == old(bytes)[n..]
      ensures n > |old(bytes)| ==> r == Err(ending) && bytes == []
    {
      var buffer: Bytes := [];
      while |buffer| < n && bytes != []
        invariant |buffer| <= n && old(bytes) == buffer + bytes
        decreases n - |buffer|
      {
        buffer := buffer + [bytes[0]];
        bytes := bytes[1..];
      }
      r := if |buffer| < n then Err(ending) else Ok(buffer);
    }

    /** Reads one frame; the length is checked before anything is allocated for it. */
    method ReadEnvelope(codec: Codec) returns (r: Result<Envelope, ReadError>)
      modifies this
      ensures (r, bytes) == ReadFrame(codec, old(bytes), ending)
    {
      var prefix := ReadExact(4);
      if prefix.Err? {
        return Err(prefix.error);
      }
      var len := U32Of(prefix.value);
      if len > MAX_FRAME_LEN {
        return Err(FrameTooLarge);
      }
      if len == 0 {
        return Err(ZeroLength);
      }
      var body := ReadExact(len);
      if body.Err? {
        return Err(body.error);
      }
      var decoded := codec.decode(body.value);
      r := if decoded.Some? then Ok(decoded.value) else Err(DecodeFailed);
    }
  }

  // ---- what the two directions promise each other ---------------------------------------------

  lemma FirstFrame(codec: Codec, e: Envelope, rest: Bytes, ending: ReadError)
    requires Sendable(codec, e)
    ensures ReadFrame(codec, Frame(codec.encode(e)) + rest, ending) == (Ok(e), rest)
  {
    var body := codec.encode(e);
    var s := Frame(body) + rest;
    assert s[..4] == U32Bytes(|body|);
    assert s[4..] == body + rest;
    assert (body + rest)[..|body|] == body && (body + rest)[|body|..] == rest;
    U32RoundTrip(|body|);
  }

  lemma {:induction false} FrameAllFront(codec: Codec, es: seq<Envelope>)
    requires es != []
    ensures FrameAll(codec, es) == Frame(codec.encode(es[0])) + FrameAll(codec, es[1..])
  {
    if |es| > 1 {
      var front, last := es[..|es| - 1], es[|es| - 1];
      FrameAllFront(codec, front);
      assert front[1..] == es[1..][..|es| - 2];
      assert FrameAll(codec, es[1..]) == FrameAll(codec, es[1..][..|es| - 2]) + Frame(codec.encode(last));
    }
  }

  /** The frame a cut falls into is lost whole, and nothing before it is. */
  lemma CutFirst(codec: Codec, e: Envelope, s: Bytes, ending: ReadError)
    requires Sendable(codec, e) && s < Frame(codec.encode(e))
    ensures ReadAll(codec, s, ending) == ([], ending)
  {
    var body := codec.encode(e);
    if |s| >= 4 {
      assert s[..4] == Frame(body)[..4] == U32Bytes(|body|);
      U32RoundTrip(|body|);
    }
  }

  /** `n` frames lie wholly within the first `k` bytes, and they are what is read. */
  ghost predicate CutAt(codec: Codec, es: seq<Envelope>, k: nat, n: nat, ending: ReadError) {
    && n <= |es| && |FrameAll(codec, es[..n])| <= k <= |FrameAll(codec, es)|
    && (n < |es| ==> k < |FrameAll(codec, es[..n + 1])|)
    && ReadAll(codec, FrameAll(codec, es)[..k], ending) == (es[..n], ending)
  }

  lemma CutInFirst(codec: Codec, es: seq<Envelope>, k: nat, ending: ReadError)
    requires AllSendable(codec, es) && es != [] && k < |Frame(codec.encode(es[0]))|
    ensures CutAt(codec, es, k, 0, ending)
  {
    var first := Frame(codec.encode(es[0]));
    FrameAllFront(codec, es);
    assert FrameAll(codec, es)[..k] == first[..k];
    CutFirst(codec, es[0], first[..k], ending);
    PrefixLength(codec, es, 0);
  }

  lemma ReadAfterFirst(codec: Codec, es: seq<Envelope>, k: nat, m: nat, ending: ReadError)
    requires AllSendable(codec, es) && es != [] && k >= |Frame(codec.encode(es[0]))|
    requires CutAt(codec, es[1..], k - |Frame(codec.encode(es[0]))|, m, ending)
    ensures k <= |FrameAll(codec, es)|
    ensures ReadAll(codec, FrameAll(codec, es)[..k], ending) == ([es[0]] + es[1..][..m], ending)
  {
    var first := Frame(codec.encode(es[0]));
    FrameAllFront(codec, es);
    CutOfSum(first, FrameAll(codec, es[1..]), k);
    ReadPast(codec, es[0], FrameAll(codec, es[1..])[..k - |first|], es[1..][..m], ending);
  }

  lemma LengthAfterFirst(codec: Codec, es: seq<Envelope>, k: nat, m: nat)
    requires es != [] && m <= |es| - 1 && |FrameAll(codec, es[1..][..m])| <= k - |Frame(codec.encode(es[0]))|
    requires m < |es| - 1 ==> k - |Frame(codec.encode(es[0]))| < |FrameAll(codec, es[1..][..m + 1])|
    ensures |FrameAll(codec, es[..m + 1])| <= k
    ensures m + 1 < |es| ==> k < |FrameAll(codec, es[..m + 2])|
  {
    PrefixLength(codec, es, m);
    if m + 1 < |es| {
      PrefixLength(codec, es, m + 1);
    }
  }

  lemma CutAfterFirst(codec: Codec, es: seq<Envelope>, k: nat, m: nat, ending: ReadError)
    requires AllSendable(codec, es) && es != [] && k >= |Frame(codec.encode(es[0]))|
    requires CutAt(codec, es[1..], k - |Frame(codec.encode(es[0]))|, m, ending)
    ensures CutAt(codec, es, k, m + 1, ending)
  {
    ReadAfterFirst(codec, es, k, m, ending);
    LengthAfterFirst(codec, es, k, m);
    assert es[..m + 1] == [es[0]] + es[1..][..m];
  }

  /**
   Any cut of a stream of frames reads back as the frames that lie wholly before the cut, in order,
   and then as the ending of the stream. `k` is the length that arrived and `n` the number of whole frames in it.
   */
  lemma {:induction false} CutReadsAsPrefix(codec: Codec, es: seq<Envelope>, k: nat, ending: ReadError) returns (n: nat)
    requires AllSendable(codec, es) && k <= |FrameAll(codec, es)|
    ensures CutAt(codec, es, k, n, ending)
    decreases |es|
  {
    if es == [] {
      n := 0;
    } else if k < |Frame(codec.encode(es[0]))| {
      n := 0;
      CutInFirst(codec, es, k, ending);
    } else {
      FrameAllFront(codec, es);
      var m := CutReadsAsPrefix(codec, es[1..], k - |Frame(codec.encode(es[0]))|, ending);
      n := m + 1;
      CutAfterFirst(codec, es, k, m, ending);
    }
  }

  lemma ReadPast(codec: Codec, e: Envelope, rest: Bytes, es: seq<Envelope>, ending: ReadError)
    requires Sendable(codec, e) && ReadAll(codec, rest, ending) == (es, ending)
    ensures ReadAll(codec, Frame(codec.encode(e)) + rest, ending) == ([e] + es, ending)
  {
    FirstFrame(codec, e, rest, ending);
  }

  lemma CutOfSum(first: Bytes, tail: Bytes, k: nat)
    requires |first| <= k <= |first| + |tail|
    ensures (first + tail)[..k] == first + tail[..k - |first|]
  {
  }

  lemma PrefixLength(codec: Codec, es: seq<Envelope>, m: nat)
    requires m < |es|
    ensures |FrameAll(codec, es[..m + 1])| == |Frame(codec.encode(es[0]))| + |FrameAll(codec, es[1..][..m])|
  {
    FrameAllFront(codec, es[..m + 1]);
    assert es[..m + 1][1..] == es[1..][..m];
  }

  /** The whole stream reads back as exactly the envelopes written, then the ending. */
  lemma {:induction false} StreamRoundTrip(codec: Codec, es: seq<Envelope>, ending: ReadError)
    requires AllSendable(codec, es)
    ensures ReadAll(codec, FrameAll(codec, es), ending) == (es, ending)
  {
    var s := FrameAll(codec, es);
    var n := CutReadsAsPrefix(codec, es, |s|, ending);
    assert s[..|s|] == s;
    if n < |es| {
      PrefixesGrow(codec, es, n + 1);
    }
    assert es[..|es|] == es;
  }

  lemma {:induction false} PrefixesGrow(codec: Codec, es: seq<Envelope>, n: nat)
    requires n <= |es|
    ensures |FrameAll(codec, es[..n])| <= |FrameAll(codec, es)|
    decreases |es| - n
  {
    if n < |es| {
      assert es[..n + 1][..n] == es[..n];
      PrefixesGrow(codec, es, n + 1);
    } else {
      assert es[..n] == es;
    }
  }
}
