/** Byte strings as the file system stores them: short reads and writes at an offset. */
module Bytes {
  import opened Numbers

  type byte = x: int | 0 <= x < 256

  /** Seeking to an offset that does not fit a signed 64-bit integer is refused. */
  const SEEK_LIMIT: nat := 0x8000_0000_0000_0000

  function Zeros(n: nat): (z: seq<byte>)
    ensures |z| == n && forall i :: 0 <= i < n ==> z[i] == 0
  {
    seq(n, _ => 0)
  }

  /** What a file holds after `data` is written at `pos`: a gap is filled with zeros, and writing
      nothing does nothing, not even when `pos` is past the end. */
  function WriteAt(content: seq<byte>, pos: nat, data: seq<byte>): (r: seq<byte>)
    ensures |r| == if data == [] || pos + |data| <= |content| then |content| else pos + |data|
  {
    if data == [] then content
    else
      var padded := if |content| < pos then content + Zeros(pos - |content|) else content;
      padded[..pos] + data + if pos + |data| <= |padded| then padded[pos + |data|..] else []
  }

  /** The same, byte by byte: the new bytes, around them the old ones, and zeros in a gap. */
  lemma WriteAtByte(content: seq<byte>, pos: nat, data: seq<byte>, i: nat)
    requires i < |WriteAt(content, pos, data)|
    ensures WriteAt(content, pos, data)[i] ==
              if pos <= i < pos + |data| then data[i - pos] else if i < |content| then content[i] else 0
  {
  }

  /** `after` is `before` with `data` laid over it at `at`: nothing if there is no data; otherwise long enough
      to hold it, with the data in its place, the old bytes around it, and zeros in a gap. */
  ghost predicate Overlaid(after: seq<byte>, before: seq<byte>, at: nat, data: seq<byte>) {
    if data == [] then after == before
    else
      && |after| == Max(|before|, at + |data|)
      && forall i :: 0 <= i < |after| ==>
           after[i] == if at <= i < at + |data| then data[i - at] else if i < |before| then before[i] else 0
  }

  /** Writing lays over, and nothing else does. */
  lemma OverlaidExactly(after: seq<byte>, before: seq<byte>, at: nat, data: seq<byte>)
    ensures Overlaid(after, before, at, data) <==> after == WriteAt(before, at, data)
  {
    var written := WriteAt(before, at, data);
    forall i: nat | i < |written|
      ensures written[i] == if at <= i < at + |data| then data[i - at] else if i < |before| then before[i] else 0
    {
      WriteAtByte(before, at, data, i);
    }
  }

  /** Laying over in two adjacent pieces. */
  lemma OverlaidNext(before: seq<byte>, at: nat, a: seq<byte>, mid: seq<byte>, b: seq<byte>, after: seq<byte>)
    requires Overlaid(mid, before, at, a) && Overlaid(after, mid, at + |a|, b)
    ensures Overlaid(after, before, at, a + b)
  {
    OverlaidExactly(mid, before, at, a);
    OverlaidExactly(after, mid, at + |a|, b);
    OverlaidExactly(after, before, at, a + b);
    WriteAtCompose(before, at, a, b);
  }

  /** Laying over from the end on is appending, and from the start on, what is as long or longer replaces. */
  lemma OverlaidEnds(after: seq<byte>, before: seq<byte>, at: nat, data: seq<byte>)
    requires Overlaid(after, before, at, data)
    ensures at == |before| ==> after == before + data
    ensures at == 0 && |before| <= |data| ==> after == data
  {
  }

  /** Two adjacent writes are one write: the law behind every chunked copy. */
  lemma WriteAtCompose(content: seq<byte>, pos: nat, a: seq<byte>, b: seq<byte>)
    ensures WriteAt(WriteAt(content, pos, a), pos + |a|, b) == WriteAt(content, pos, a + b)
  {
    if a == [] {
      assert a + b == b;
    } else {
      var l, r := WriteAt(WriteAt(content, pos, a), pos + |a|, b), WriteAt(content, pos, a + b);
      forall i: nat | i < |l|
        ensures l[i] == r[i]
      {
        WriteAtByte(content, pos, a + b, i);
        WriteAtByte(WriteAt(content, pos, a), pos + |a|, b, i);
        if i < |WriteAt(content, pos, a)| {
          WriteAtByte(content, pos, a, i);
        }
      }
    }
  }

  /** Appending is writing at the end. */
  lemma WriteAtEnd(content: seq<byte>, data: seq<byte>)
    ensures WriteAt(content, |content|, data) == content + data
  {
  }

  /** How far a write grows a file. */
  function Growth(content: seq<byte>, pos: nat, data: seq<byte>): nat {
    |WriteAt(content, pos, data)| - |content|
  }

  /** A write grows a file by no more than it carries exactly when it leaves no gap. */
  lemma GrowthWithinData(content: seq<byte>, pos: nat, data: seq<byte>)
    ensures Growth(content, pos, data) <= |data| <==> data == [] || pos <= |content|
  {
  }

  /** A read at `offset` of at most `max` bytes; `chosen` stands for how many of the available bytes
      the operating system hands over, which is at least one unless there are none. */
  function ShortRead(content: seq<byte>, offset: nat, max: nat, chosen: nat): (r: seq<byte>)
    ensures |r| <= max
    ensures r == [] <==> max == 0 || |content| <= offset
    ensures r != [] ==> offset + |r| <= |content| && r == content[offset..offset + |r|]
  {
    if max == 0 || |content| <= offset then []
    else
      var available := if |content| - offset <= max then |content| - offset else max;
      var n := if chosen == 0 then 1 else if chosen <= available then chosen else available;
      content[offset..offset + n]
  }
}
