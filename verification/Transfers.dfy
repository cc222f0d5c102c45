/** Chunked transfers: the copy loop of the FTP upload, and the digest extension of SFTP.

The operating system may split reads as it likes: every read takes its size from `chosen`, an
arbitrary function of the read's number.  What fails, if anything does, is a parameter. */
module Transfers {
  import opened Numbers
  import opened Bytes
  import opened Options

  const BUFFER_SIZE: nat := 8192

  // ---- FTP upload ----

  /** The file after `data` has landed: from 0 on, what was there is gone; otherwise it is laid over. */
  ghost predicate Landed(content: seq<byte>, previous: Option<seq<byte>>, startPos: nat, data: seq<byte>) {
    if startPos == 0 then content == data
    else Overlaid(content, if previous.Some? then previous.value else [], startPos, data)
  }

  /** What can go wrong: a read fails, a write fails with some of its chunk on disk, or the final flush
      reports that only some of the last chunk has landed. */
  datatype Trouble = NoTrouble | ReadFails(at: nat) | WriteFails(at: nat, landed: nat) | FlushFails(landed: nat)

  function Part(chunk: seq<byte>, n: nat): seq<byte> {
    if n <= |chunk| then chunk[..n] else chunk
  }

  /** How many further reads bring data. */
  ghost function ReadsFrom(input: seq<byte>, copied: nat, round: nat, chosen: nat -> nat): nat
    decreases |input| - copied
  {
    var chunk := ShortRead(input, copied, BUFFER_SIZE, chosen(round));
    if chunk == [] then 0 else 1 + ReadsFrom(input, copied + |chunk|, round + 1, chosen)
  }

  /** The trouble comes in the way of an upload that takes so many reads, and one more to see the end. */
  predicate Strikes(trouble: Trouble, rounds: nat) {
    match trouble
    case NoTrouble => false
    case ReadFails(at) => at <= rounds
    case WriteFails(at, _) => at < rounds
    case FlushFails(_) => true
  }

  /** Nothing has gone wrong so far; `strikes` tells whether something will. */
  ghost predicate Coming(input: seq<byte>, copied: nat, round: nat, chosen: nat -> nat, trouble: Trouble, strikes: bool) {
    && (trouble.ReadFails? || trouble.WriteFails? ==> round <= trouble.at)
    && strikes == Strikes(trouble, round + ReadsFrom(input, copied, round, chosen))
  }

  /** One read of the input: a failure, a further stretch, or nothing at its end. */
  method ReadMore(input: seq<byte>, copied: nat, round: nat, chosen: nat -> nat, trouble: Trouble,
                  ghost sent: seq<byte>, ghost strikes: bool)
    returns (chunk: Option<seq<byte>>)
    requires sent <= input && |sent| == copied && Coming(input, copied, round, chosen, trouble, strikes)
    ensures chunk.None? ==> strikes
    ensures chunk == Some([]) ==> sent == input && (strikes <==> trouble.FlushFails?)
    ensures chunk.Some? && chunk.value != [] ==>
              && sent + chunk.value <= input
              && if trouble.WriteFails? && trouble.at == round then strikes
                 else Coming(input, copied + |chunk.value|, round + 1, chosen, trouble, strikes)
  {
    if trouble == ReadFails(round) {
      return None;
    }
    chunk := Some(ShortRead(input, copied, BUFFER_SIZE, chosen(round)));
  }

  /** The copy loop of `put`.  However the input is split, an upload from 0 replaces what the file held, and a
      resumed one lays the input over it from its start position on; whatever fails, as if only `sent`, a
      prefix, had been sent. */
  method Put(input: seq<byte>, previous: Option<seq<byte>>, startPos: nat, chosen: nat -> nat, trouble: Trouble)
    returns (written: Option<nat>, content: seq<byte>, ghost sent: seq<byte>)
    ensures sent <= input && (written.Some? ==> sent == input && written.value == |input|)
    ensures startPos == 0 ==> content == sent
    ensures startPos > 0 ==> Overlaid(content, if previous.Some? then previous.value else [], startPos, sent)
    ensures written.Some? <==> startPos < SEEK_LIMIT && !Strikes(trouble, ReadsFrom(input, 0, 0, chosen))
  {
    // Opening creates the file if it is missing, and truncates it for an upload from 0.
    content := if startPos == 0 || previous.None? then [] else previous.value;
    sent := [];
    if startPos > 0 && startPos >= SEEK_LIMIT {
      return None, content, [];
    }
    var before, last, copied, round := content, [], 0, 0;
    ghost var strikes := Strikes(trouble, ReadsFrom(input, 0, 0, chosen));
    ghost var sentBefore: seq<byte> := [];
    while true
      invariant sent == sentBefore + last && sent <= input && |sent| == copied
      invariant Coming(input, copied, round, chosen, trouble, strikes)
      invariant Landed(before, previous, startPos, sentBefore) && Landed(content, previous, startPos, sent)
      decreases |input| - copied
    {
      var read := ReadMore(input, copied, round, chosen, trouble, sent, strikes);
      if read.None? {
        return None, content, sent;
      }
      var chunk := read.value;
      if chunk == [] {
        break;
      }
      if trouble.WriteFails? && trouble.at == round {
        content, sent := LandPart(input, previous, startPos, sent, content, copied, chunk, trouble.landed);
        return None, content, sent;
      }
      before, last, sentBefore := content, chunk, sent;
      content := LandMore(previous, startPos, sent, content, copied, chunk);
      copied, sent := copied + |chunk|, sent + chunk;
      round := round + 1;
    }
    if trouble.FlushFails? {
      content, sent := LandPart(input, previous, startPos, sentBefore, before, copied - |last|, last, trouble.landed);
      return None, content, sent;
    }
    written := Some(copied);
  }

  /** Only a beginning of the chunk lands. */
  method LandPart(ghost input: seq<byte>, ghost previous: Option<seq<byte>>, startPos: nat, ghost sent: seq<byte>,
                  content: seq<byte>, copied: nat, chunk: seq<byte>, landed: nat)
    returns (more: seq<byte>, ghost sent': seq<byte>)
    requires Landed(content, previous, startPos, sent) && |sent| == copied && sent + chunk <= input
    ensures Landed(more, previous, startPos, sent') && sent' <= input
  {
    var part := Part(chunk, landed);
    PartSent(input, sent, chunk, part);
    more := LandMore(previous, startPos, sent, content, copied, part);
    sent' := sent + part;
  }

  lemma PartSent(input: seq<byte>, sent: seq<byte>, chunk: seq<byte>, part: seq<byte>)
    requires sent + chunk <= input && part <= chunk
    ensures sent + part <= input
  {
    assert sent + part <= sent + chunk;
  }

  /** `write_all` at the position of the file. */
  method WriteAll(content: seq<byte>, at: nat, data: seq<byte>) returns (after: seq<byte>)
    ensures Overlaid(after, content, at, data)
  {
    after := WriteAt(content, at, data);
    OverlaidExactly(after, content, at, data);
  }

  /** The next stretch of the input goes in behind what has landed. */
  method LandMore(ghost previous: Option<seq<byte>>, startPos: nat, ghost sent: seq<byte>,
                  content: seq<byte>, copied: nat, chunk: seq<byte>)
    returns (more: seq<byte>)
    requires Landed(content, previous, startPos, sent) && |sent| == copied
    ensures Landed(more, previous, startPos, sent + chunk)
  {
    more := WriteAll(content, startPos + copied, chunk);
    LandedNext(previous, startPos, sent, content, chunk, more);
  }

  lemma LandedNext(previous: Option<seq<byte>>, startPos: nat, sent: seq<byte>,
                   content: seq<byte>, chunk: seq<byte>, more: seq<byte>)
    requires Landed(content, previous, startPos, sent) && Overlaid(more, content, startPos + |sent|, chunk)
    ensures Landed(more, previous, startPos, sent + chunk)
  {
    if startPos == 0 {
      OverlaidEnds(more, content, |sent|, chunk);
    } else {
      OverlaidNext(if previous.Some? then previous.value else [], startPos, sent, content, chunk, more);
    }
  }

  // ---- Digest request ----

  datatype DigestRequest = DigestRequest(path: seq<byte>, offset: nat, length: nat)

  function Pow256(k: nat): (p: nat)
    ensures p > 0
  {
    if k == 0 then 1 else 256 * Pow256(k - 1)
  }

  function FromBe(s: seq<byte>): (v: nat)
    ensures v < Pow256(|s|)
  {
    if s == [] then 0 else FromBe(s[..|s| - 1]) * 256 + s[|s| - 1]
  }

  function ToBe(v: nat, width: nat): (s: seq<byte>)
    ensures |s| == width
  {
    if width == 0 then [] else ToBe(v / 256, width - 1) + [v % 256]
  }

  lemma {:induction false} BeRoundTrip(v: nat, width: nat)
    requires v < Pow256(width)
    ensures FromBe(ToBe(v, width)) == v
  {
    if width > 0 {
      BeRoundTrip(v / 256, width - 1);
      var s := ToBe(v, width);
      assert s[..width - 1] == ToBe(v / 256, width - 1);
    }
  }

  lemma {:induction false} BeInjective(s: seq<byte>)
    ensures ToBe(FromBe(s), |s|) == s
    decreases |s|
  {
    if s != [] {
      var front, last := s[..|s| - 1], s[|s| - 1];
      BeInjective(front);
      var v := FromBe(s);
      assert v == FromBe(front) * 256 + last;
      assert v / 256 == FromBe(front) && v % 256 == last;
      assert ToBe(v, |s|) == ToBe(v / 256, |s| - 1) + [v % 256];
      assert s == front + [last];
    }
  }

  lemma WordSizes()
    ensures Pow256(4) == 0x1_0000_0000 && Pow256(8) == 0x1_0000_0000_0000_0000
  {
    assert Pow256(2) == 0x1_0000;
    assert Pow256(4) == 256 * (256 * Pow256(2));
    assert Pow256(6) == 256 * (256 * Pow256(4));
    assert Pow256(8) == 256 * (256 * Pow256(6));
  }

  predicate Continuation(b: byte) {
    0x80 <= b <= 0xBF
  }

  /** Well-formed UTF-8 (section 4 of RFC 3629). */
  predicate ValidUtf8(s: seq<byte>) {
    || s == []
    || (s[0] <= 0x7F && ValidUtf8(s[1..]))
    || (|s| >= 2 && 0xC2 <= s[0] <= 0xDF && Continuation(s[1]) && ValidUtf8(s[2..]))
    || (|s| >= 3 && Continuation(s[2]) && ValidUtf8(s[3..]) &&
        (|| (s[0] == 0xE0 && 0xA0 <= s[1] <= 0xBF)
         || ((0xE1 <= s[0] <= 0xEC || 0xEE <= s[0] <= 0xEF) && Continuation(s[1]))
         || (s[0] == 0xED && 0x80 <= s[1] <= 0x9F)))
    || (|s| >= 4 && Continuation(s[2]) && Continuation(s[3]) && ValidUtf8(s[4..]) &&
        (|| (s[0] == 0xF0 && 0x90 <= s[1] <= 0xBF)
         || (0xF1 <= s[0] <= 0xF3 && Continuation(s[1]))
         || (s[0] == 0xF4 && 0x80 <= s[1] <= 0x8F)))
  }

  /** `width` bytes at `pos`, if the data reaches that far. */
  function Field(data: seq<byte>, pos: nat, width: nat): Option<seq<byte>> {
    if pos + width <= |data| then Some(data[pos..pos + width]) else None
  }

  function Number(field: Option<seq<byte>>): nat {
    if field.Some? then FromBe(field.value) else 0
  }

  /** Missing numbers read as 0; a missing or malformed path rejects the request. */
  function ParseDigestRequest(data: seq<byte>): Option<DigestRequest> {
    var size := Field(data, 0, 4);
    if size.None? then None
    else
      var pathLen := FromBe(size.value);
      var path := Field(data, 4, pathLen);
      if path.None? || !ValidUtf8(path.value) then None
      else
        var pos := 4 + pathLen;
        Some(DigestRequest(path.value, Number(Field(data, pos, 8)), Number(Field(data, pos + 8, 8))))
  }

  function EncodeDigestRequest(r: DigestRequest): seq<byte> {
    ToBe(|r.path|, 4) + r.path + ToBe(r.offset, 8) + ToBe(r.length, 8)
  }

  /** Parsing inverts the encoding, for every path under 2^32 bytes and every 64-bit range. */
  lemma DigestRequestRoundTrip(r: DigestRequest)
    requires |r.path| < 0x1_0000_0000 && ValidUtf8(r.path)
    requires r.offset < 0x1_0000_0000_0000_0000 && r.length < 0x1_0000_0000_0000_0000
    ensures ParseDigestRequest(EncodeDigestRequest(r)) == Some(r)
  {
    WordSizes();
    BeRoundTrip(|r.path|, 4);
    BeRoundTrip(r.offset, 8);
    BeRoundTrip(r.length, 8);
    Fields(ToBe(|r.path|, 4), r.path, ToBe(r.offset, 8), ToBe(r.length, 8));
  }

  /** Where the four fields of a request lie. */
  lemma Fields(size: seq<byte>, path: seq<byte>, offset: seq<byte>, length: seq<byte>)
    ensures var data := size + path + offset + length;
            var p0, p1 := |size|, |size| + |path|;
            var p2 := p1 + |offset|;
            && Field(data, 0, |size|) == Some(size)
            && Field(data, p0, |path|) == Some(path)
            && Field(data, p1, |offset|) == Some(offset)
            && Field(data, p2, |length|) == Some(length)
  {
    var data := size + path + offset + length;
    var p0, p1 := |size|, |size| + |path|;
    var p2 := p1 + |offset|;
    assert data[0..p0] == size;
    assert data[p0..p1] == path;
    assert data[p1..p2] == offset;
    assert data[p2..p2 + |length|] == length;
  }

  /** Exactly which messages are accepted, and as what: a length-prefixed well-formed path followed
      by any tail, whose first two 64-bit words are the numbers if they are all there. */
  lemma DigestRequestAccepted(data: seq<byte>, r: DigestRequest)
    ensures ParseDigestRequest(data) == Some(r) <==>
            && |r.path| < Pow256(4) && ValidUtf8(r.path)
            && exists tail :: && data == ToBe(|r.path|, 4) + r.path + tail
                              && r.offset == (if |tail| >= 8 then FromBe(tail[..8]) else 0)
                              && r.length == (if |tail| >= 16 then FromBe(tail[8..16]) else 0)
  {
    if ParseDigestRequest(data) == Some(r) {
      FormAccepted(data, r);
    }
    if |r.path| < Pow256(4) && ValidUtf8(r.path) {
      forall tail | && data == ToBe(|r.path|, 4) + r.path + tail
                    && r.offset == (if |tail| >= 8 then FromBe(tail[..8]) else 0)
                    && r.length == (if |tail| >= 16 then FromBe(tail[8..16]) else 0)
        ensures ParseDigestRequest(data) == Some(r)
      {
        AcceptedForm(data, ToBe(|r.path|, 4), r, tail);
      }
    }
  }

  lemma FormAccepted(data: seq<byte>, r: DigestRequest)
    requires ParseDigestRequest(data) == Some(r)
    ensures |r.path| < Pow256(4) && 4 + |r.path| <= |data|
    ensures var tail := data[4 + |r.path|..];
            && data == ToBe(|r.path|, 4) + r.path + tail
            && r.offset == (if |tail| >= 8 then FromBe(tail[..8]) else 0)
            && r.length == (if |tail| >= 16 then FromBe(tail[8..16]) else 0)
  {
    var n, size := |r.path|, data[0..4];
    BeInjective(size);
    assert data == size + r.path + data[4 + n..];
    TailNumbers(data, n, data[4 + n..]);
  }

  lemma AcceptedForm(data: seq<byte>, size: seq<byte>, r: DigestRequest, tail: seq<byte>)
    requires |r.path| < Pow256(4) && ValidUtf8(r.path) && size == ToBe(|r.path|, 4)
    requires data == size + r.path + tail
    requires r.offset == (if |tail| >= 8 then FromBe(tail[..8]) else 0)
    requires r.length == (if |tail| >= 16 then FromBe(tail[8..16]) else 0)
    ensures ParseDigestRequest(data) == Some(r)
  {
    var n := |r.path|;
    BeRoundTrip(n, 4);
    Fields(size, r.path, tail, []);
    assert data == size + r.path + tail + [];
    assert tail == data[4 + n..];
    TailNumbers(data, n, tail);
  }

  lemma TailNumbers(data: seq<byte>, n: nat, tail: seq<byte>)
    requires 4 + n <= |data| && tail == data[4 + n..]
    ensures Number(Field(data, 4 + n, 8)) == if |tail| >= 8 then FromBe(tail[..8]) else 0
    ensures Number(Field(data, 12 + n, 8)) == if |tail| >= 16 then FromBe(tail[8..16]) else 0
  {
    if |tail| >= 8 {
      assert tail[..8] == data[4 + n..12 + n];
    }
    if |tail| >= 16 {
      assert tail[8..16] == data[12 + n..20 + n];
    }
  }

  // ---- Digest of a file ----

  /** The part of a file a digest is over; length 0 means to the end. */
  function DigestRange(file: seq<byte>, offset: nat, length: nat): seq<byte> {
    var lo := if offset <= |file| then offset else |file|;
    var hi := if length == 0 || |file| <= offset + length then |file| else offset + length;
    file[lo..hi]
  }

  /** `stream` is what lies in the file from `offset` on. */
  ghost predicate Streamed(file: seq<byte>, offset: nat, stream: seq<byte>) {
    stream != [] ==> offset + |stream| <= |file| && stream == file[offset..offset + |stream|]
  }

  lemma Adjacent(s: seq<byte>, i: nat, j: nat, k: nat)
    requires i <= j <= k <= |s|
    ensures s[i..j] + s[j..k] == s[i..k]
  {
  }

  lemma StreamChunk(file: seq<byte>, offset: nat, stream: seq<byte>, chunk: seq<byte>)
    requires Streamed(file, offset, stream) && Streamed(file, offset + |stream|, chunk)
    ensures Streamed(file, offset, stream + chunk)
  {
    if stream == [] {
      assert stream + chunk == chunk;
    } else if chunk == [] {
      assert stream + chunk == stream;
    } else {
      Adjacent(file, offset, offset + |stream|, offset + |stream| + |chunk|);
    }
  }

  /** The range of a digest, byte by byte: from the offset on, as many bytes as asked for and there are. */
  lemma DigestRangeBytes(file: seq<byte>, offset: nat, length: nat)
    ensures var range := DigestRange(file, offset, length);
            && |range| == (if |file| <= offset then 0
                           else if length == 0 then |file| - offset
                           else Min(length, |file| - offset))
            && forall i :: 0 <= i < |range| ==> range[i] == file[offset + i]
  {
  }

  /** Streaming is over at the end of the file, or once the whole length has been streamed. */
  lemma StreamDone(file: seq<byte>, offset: nat, length: nat, stream: seq<byte>)
    requires Streamed(file, offset, stream) && (length > 0 ==> |stream| <= length)
    requires (length > 0 && |stream| == length) || |file| <= offset + |stream|
    ensures stream == DigestRange(file, offset, length)
  {
  }

  /** The loop of `digest_file`.  The result is the stream fed to the hash function. */
  method DigestFile(file: seq<byte>, offset: nat, length: nat, chosen: nat -> nat, failsAt: int)
    returns (hashed: Option<seq<byte>>)
    ensures hashed.Some? ==> hashed.value == DigestRange(file, offset, length)
    ensures failsAt < 0 && offset < SEEK_LIMIT ==> hashed.Some?
  {
    if offset >= SEEK_LIMIT {
      return None;
    }
    var stream: seq<byte> := [];
    var remaining, readNo := length, 0;
    while true
      invariant 0 <= remaining && (remaining == 0 <==> length == 0)
      invariant length > 0 ==> remaining == length - |stream|
      invariant Streamed(file, offset, stream)
      decreases |file| - |stream|
    {
      var want := if remaining == 0 || BUFFER_SIZE <= remaining then BUFFER_SIZE else remaining;
      if readNo == failsAt {
        return None;
      }
      var chunk := ShortRead(file, offset + |stream|, want, chosen(readNo));
      StreamChunk(file, offset, stream, chunk);
      readNo := readNo + 1;
      if chunk == [] {
        break;
      }
      stream := stream + chunk;
      if remaining > 0 {
        remaining := remaining - |chunk|;
        if remaining == 0 {
          break;
        }
      }
    }
    StreamDone(file, offset, length, stream);
    hashed := Some(stream);
  }
}
