/** Length-prefixed frames, cut out of a byte stream that arrives in chunks of any size. */
module Frames {
  import opened Ids
  import opened Records
  import opened Keys
  import opened LittleEndian

  const MAX_BODY: nat := 16 * 1024 * 1024
  /** What one `next_frame` answers. */
  datatype Answer = Frame(bytes: Bytes) | End | MidFrame | TooLarge(have: nat)

  // ---- The unchunked meaning ------------------------------------------------------------------------------

  function Concat(chunks: seq<Bytes>): Bytes {
    if chunks == [] then [] else chunks[0] + Concat(chunks[1..])
  }

  /** The answer as a function of the bytes that are left, and the bytes left after it. */
  function Parse(rem: Bytes): (Answer, Bytes) {
    if rem == [] then (End, rem)
    else if |rem| < 4 then (MidFrame, rem)
    else
      var len := FromLe(rem[..4]);
      if len > MAX_BODY then (TooLarge(len), rem)
      else if |rem| < 4 + len then (MidFrame, rem)
      else (Frame(rem[4..4 + len]), rem[4 + len..])
  }

  /** The frame and what follows it, taken from the buffered part alone. */
  lemma CutFrame(buf: Bytes, rest: Bytes, len: nat)
    requires 4 + len <= |buf|
    ensures buf[4..][..len] == (buf + rest)[4..4 + len]
    ensures (if |buf[4..]| > len then buf[4..][len..] else []) + rest == (buf + rest)[4 + len..]
  {
    assert buf[4..][len..] + rest == (buf + rest)[4 + len..];
  }

  // ---- The reader -------------------------------------------------------------------------------------------

  class FrameReader {
    /** What the transport has yet to deliver. */
    var body: seq<Bytes>
    /** What has arrived and no frame has taken yet. */
    var buf: Bytes
    /** No chunk will follow. */
    var done: bool

    ghost predicate Valid()
      reads this
    {
      done ==> body == []
    }

    ghost function Remaining(): Bytes
      reads this
    {
      buf + Concat(body)
    }

    constructor (chunks: seq<Bytes>)
      ensures Valid() && Remaining() == Concat(chunks)
    {
      body := chunks;
      buf := [];
      done := false;
    }

    /** `fill`: pull chunks until `n` bytes are buffered. `End` is the clean end of stream; `Frame` says the bytes are
        there. */
    method Fill(n: nat) returns (r: Answer)
      requires Valid()
      modifies this
      ensures Valid() && Remaining() == old(Remaining()) && old(buf) <= buf
      ensures r == if n <= |Remaining()| then Frame([]) else if Remaining() == [] then End else MidFrame
      ensures r.Frame? ==> n <= |buf|
    {
      while |buf| < n
        invariant Valid() && Remaining() == old(Remaining()) && old(buf) <= buf
        decreases |body|
      {
        if done || body == [] {
          done := true;
          if buf == [] { return End; }
          return MidFrame;
        }
        buf := buf + body[0];
        body := body[1..];
      }
      return Frame([]);
    }

    /** `next_frame`: the answer depends on the bytes alone, never on how they were chunked. */
    method NextFrame() returns (r: Answer)
      requires Valid()
      modifies this
      ensures Valid() && r == Parse(old(Remaining())).0 && Remaining() == Parse(old(Remaining())).1
    {
      var filled := Fill(4);
      if !filled.Frame? { return filled; }
      assert buf[..4] == Remaining()[..4];
      var len := FromLe(buf[..4]);
      if len > MAX_BODY { return TooLarge(len); }
      filled := Fill(4 + len);
      if !filled.Frame? { return MidFrame; }
      var frame := buf[4..];
      CutFrame(buf, Concat(body), len);
      buf := if |frame| > len then frame[len..] else [];
      r := Frame(frame[..len]);
    }
  }

  // ---- Whole streams --------------------------------------------------------------------------------------------

  /** A whole stream: its frames, and how it ended. */
  function ReadAll(rem: Bytes): (seq<Bytes>, Answer)
    decreases |rem|
  {
    var (a, rest) := Parse(rem);
    if a.Frame? then var (later, end) := ReadAll(rest); ([a.bytes] + later, end) else ([], a)
  }

  /** Calling `next_frame` until it stops answering frames. */
  method Drain(reader: FrameReader) returns (frames: seq<Bytes>, end: Answer)
    requires reader.Valid()
    modifies reader
    ensures (frames, end) == ReadAll(old(reader.Remaining()))
    ensures !end.Frame? && reader.Valid()
  {
    frames := [];
    ghost var start := reader.Remaining();
    var more := true;
    end := End;
    assert frames + ReadAll(start).0 == ReadAll(start).0;
    while more
      invariant reader.Valid()
      invariant more ==> ReadAll(start) == (frames + ReadAll(reader.Remaining()).0, ReadAll(reader.Remaining()).1)
      invariant !more ==> ReadAll(start) == (frames, end) && !end.Frame?
      decreases more, |reader.Remaining()|
    {
      ghost var before := reader.Remaining();
      var next := reader.NextFrame();
      if next.Frame? {
        ghost var later := ReadAll(reader.Remaining()).0;
        assert frames + ([next.bytes] + later) == (frames + [next.bytes]) + later;
        frames := frames + [next.bytes];
      } else {
        assert frames + [] == frames;
        end := next;
        more := false;
      }
    }
  }

  /** `write_frame`: the length, then the bytes; refused when the length does not fit 32 bits. */
  method WriteFrame(sink: Bytes, bytes: Bytes) returns (ok: bool, out: Bytes)
    ensures ok <==> |bytes| < TWO32
    ensures out == if ok then sink + Encoded(bytes) else sink
    ensures ok ==>
              var n := |bytes|;
              out == sink + [n % 256, n / 0x100 % 256, n / 0x1_0000 % 256, n / 0x100_0000] + bytes
  {
    if |bytes| >= TWO32 { return false, sink; }
    out := sink + Le(4, |bytes|);
    out := out + bytes;
    assert out == sink + Encoded(bytes);
    FourDigits(|bytes|);
    ok := true;
  }

  function Encoded(bytes: Bytes): Bytes {
    Le(4, |bytes|) + bytes
  }

  function EncodeAll(frames: seq<Bytes>): Bytes {
    if frames == [] then [] else Encoded(frames[0]) + EncodeAll(frames[1..])
  }

  predicate WithinCap(frames: seq<Bytes>) {
    forall i :: 0 <= i < |frames| ==> |frames[i]| <= MAX_BODY
  }

  lemma ParseEncoded(bytes: Bytes, rest: Bytes)
    requires |bytes| <= MAX_BODY
    ensures Parse(Encoded(bytes) + rest) == (Frame(bytes), rest)
  {
    FourBytes();
    FromLeOfLe(4, |bytes|);
    var rem := Encoded(bytes) + rest;
    assert rem[..4] == Le(4, |bytes|);
    assert rem[4..4 + |bytes|] == bytes && rem[4 + |bytes|..] == rest;
  }

  /** A stream cut inside a frame: whole frames before the cut, then an error. */
  lemma ParseCut(bytes: Bytes, cut: Bytes)
    requires |bytes| <= MAX_BODY && cut < Encoded(bytes) && cut != []
    ensures Parse(cut) == (MidFrame, cut)
  {
    FourBytes();
    FromLeOfLe(4, |bytes|);
    if |cut| >= 4 { assert cut[..4] == Encoded(bytes)[..4] == Le(4, |bytes|); }
  }

  /** Reassembly of the encoding of `frames` cut anywhere inside the frame after them. */
  lemma {:induction false} ReadsWholeThenCut(frames: seq<Bytes>, last: Bytes, cut: Bytes)
    requires WithinCap(frames) && |last| <= MAX_BODY && cut < Encoded(last)
    ensures ReadAll(EncodeAll(frames) + cut) == (frames, if cut == [] then End else MidFrame)
  {
    if frames == [] {
      assert EncodeAll(frames) + cut == cut;
      if cut != [] { ParseCut(last, cut); }
    } else {
      var rest := EncodeAll(frames[1..]) + cut;
      assert EncodeAll(frames) + cut == Encoded(frames[0]) + rest;
      ParseEncoded(frames[0], rest);
      ReadsWholeThenCut(frames[1..], last, cut);
      assert frames == [frames[0]] + frames[1..];
    }
  }

  /** The frames a writer accepts. */
  predicate Writable(frames: seq<Bytes>) {
    forall i :: 0 <= i < |frames| ==> |frames[i]| < TWO32
  }

  /** The first frame past the reader's cap, or the end. */
  function FirstOversized(frames: seq<Bytes>): (m: nat)
    ensures m <= |frames| && WithinCap(frames[..m]) && (m < |frames| ==> |frames[m]| > MAX_BODY)
  {
    if frames == [] || |frames[0]| > MAX_BODY then 0
    else
      var m := 1 + FirstOversized(frames[1..]);
      assert frames[..m] == [frames[0]] + frames[1..][..m - 1];
      m
  }

  lemma ParseOversized(bytes: Bytes, rest: Bytes)
    requires MAX_BODY < |bytes| < TWO32
    ensures Parse(Encoded(bytes) + rest).0 == TooLarge(|bytes|)
  {
    FourBytes();
    FromLeOfLe(4, |bytes|);
    assert (Encoded(bytes) + rest)[..4] == Le(4, |bytes|);
  }

  /** What is written reads as the frames before the first oversized one, which is then refused with its length. */
  lemma {:induction false} ReadsToFirstOversized(frames: seq<Bytes>)
    requires Writable(frames)
    ensures var m := FirstOversized(frames);
            ReadAll(EncodeAll(frames)) == (frames[..m], if m == |frames| then End else TooLarge(|frames[m]|))
  {
    if frames != [] {
      var rest := EncodeAll(frames[1..]);
      if |frames[0]| > MAX_BODY {
        ParseOversized(frames[0], rest);
      } else {
        ParseEncoded(frames[0], rest);
        ReadsToFirstOversized(frames[1..]);
        var m := FirstOversized(frames[1..]);
        assert frames[..m + 1] == [frames[0]] + frames[1..][..m];
      }
    }
  }

  /** For every list of frames a writer accepts and every split of its encoding into chunks, empty ones included, a
      reader answers exactly those frames and then a clean end if all are within the cap; otherwise the frames before
      the first that is not, and a refusal. */
  method RoundTrip(frames: seq<Bytes>, chunks: seq<Bytes>) returns (read: seq<Bytes>, end: Answer)
    requires Writable(frames) && Concat(chunks) == EncodeAll(frames)
    ensures read == frames && end == End <==> WithinCap(frames)
    ensures var m := FirstOversized(frames);
            read == frames[..m] && end == if m == |frames| then End else TooLarge(|frames[m]|)
  {
    ReadsToFirstOversized(frames);
    ghost var m := FirstOversized(frames);
    assert m == |frames| ==> frames[..m] == frames;
    var reader := new FrameReader(chunks);
    read, end := Drain(reader);
  }

  /** Every proper prefix of an encoding reads as the whole frames before the cut, then a clean end if the cut is a frame
      boundary and an error otherwise; never as anything else. */
  lemma {:induction false} CutReads(frames: seq<Bytes>, prefix: Bytes) returns (m: nat)
    requires WithinCap(frames) && prefix < EncodeAll(frames)
    ensures m < |frames| && EncodeAll(frames[..m]) <= prefix < EncodeAll(frames[..m + 1])
    ensures ReadAll(prefix) == (frames[..m], if prefix == EncodeAll(frames[..m]) then End else MidFrame)
  {
    var head := Encoded(frames[0]);
    if |prefix| < |head| {
      m := 0;
      FirstOnly(frames);
      assert prefix == EncodeAll(frames)[..|prefix|] == head[..|prefix|];
      ReadsWholeThenCut([], frames[0], prefix);
      assert EncodeAll([]) + prefix == prefix;
    } else {
      var rest := prefix[|head|..];
      assert prefix[..|head|] == EncodeAll(frames)[..|head|] == head;
      assert prefix == head + rest;
      assert rest < EncodeAll(frames[1..]);
      var k := CutReads(frames[1..], rest);
      ParseEncoded(frames[0], rest);
      m := k + 1;
      TakeMore(frames, k);
      TakeMore(frames, k + 1);
    }
  }

  lemma FirstOnly(frames: seq<Bytes>)
    requires frames != []
    ensures EncodeAll(frames[..0]) == [] && EncodeAll(frames[..1]) == Encoded(frames[0])
  {
  }

  lemma TakeMore(frames: seq<Bytes>, k: nat)
    requires k < |frames|
    ensures EncodeAll(frames[..k + 1]) == Encoded(frames[0]) + EncodeAll(frames[1..][..k])
    ensures frames[..k + 1] == [frames[0]] + frames[1..][..k]
  {
    assert frames[..k + 1][1..] == frames[1..][..k];
  }
}
