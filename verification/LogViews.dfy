/** Bounded views of logs: the tail reader of wftpd/src/logs.rs and the ring buffers of
common/src/tracing_logger.rs and common/src/server/file_logger.rs.  Each is proved against the full
history it forgets. */
module LogViews {
  import opened Numbers
  import opened Options

  /** The last `count` elements, or all if there are fewer. */
  function Last<T>(s: seq<T>, count: nat): (r: seq<T>)
    ensures |r| == Min(count, |s|)
  {
    s[|s| - Min(count, |s|)..]
  }

  function Reverse<T>(s: seq<T>): (r: seq<T>)
    ensures |r| == |s| && forall i :: 0 <= i < |s| ==> r[i] == s[|s| - 1 - i]
  {
    seq(|s|, i requires 0 <= i < |s| => s[|s| - 1 - i])
  }

  /** `Last` is the end of the sequence of the right length, and the only one. */
  lemma LastIsSuffix<T>(front: seq<T>, back: seq<T>)
    ensures Last(front + back, |back|) == back
  {
  }

  lemma Split<T>(s: seq<T>, count: nat) returns (front: seq<T>)
    ensures s == front + Last(s, count)
  {
    front := s[..|s| - Min(count, |s|)];
  }

  lemma LastOfLast<T>(s: seq<T>, a: nat, b: nat)
    ensures Last(Last(s, a), b) == Last(s, Min(a, b))
  {
    var f := Split(s, a);
    var g := Split(Last(s, a), b);
    var r := Last(Last(s, a), b);
    assert s == (f + g) + r;
    LastIsSuffix(f + g, r);
    assert |r| == Min(Min(a, b), |s|);
    assert Last(s, |r|) == Last(s, Min(a, b));
  }

  /** Pushing one element and dropping the oldest beyond `cap` keeps the last `cap`. */
  lemma LastOfPushed<T>(s: seq<T>, x: T, cap: nat)
    requires cap > 0
    ensures Last(s + [x], cap) == (if |Last(s, cap)| >= cap then Last(s, cap)[1..] else Last(s, cap)) + [x]
  {
  }

  // ---- Tail of a file ----

  /** What the tail reader holds after some lines. */
  function Held(lines: seq<string>, count: nat): seq<string> {
    if lines == [] then []
    else
      var pushed := Held(lines[..|lines| - 1], count) + [lines[|lines| - 1]];
      if |pushed| > count * 2 then pushed[|pushed| - count..] else pushed
  }

  /** `a` is the end of `s`. */
  ghost predicate EndsWith<T(!new)>(s: seq<T>, a: seq<T>) {
    exists front :: s == front + a
  }

  /** What is held ends the lines read, suffices for the answer, and is at most twice as long. */
  ghost predicate HoldsEnough(lines: seq<string>, held: seq<string>, count: nat) {
    EndsWith(lines, held) && Min(count, |lines|) <= |held| <= 2 * count
  }

  lemma LastOfEnd<T(!new)>(s: seq<T>, a: seq<T>, count: nat)
    requires EndsWith(s, a) && Min(count, |s|) <= |a|
    ensures Last(a, count) == Last(s, count) && EndsWith(s, Last(a, count))
  {
    var front :| s == front + a;
    var skipped := Split(a, count);
    var r := Last(a, count);
    assert s == (front + skipped) + r;
    LastIsSuffix(front + skipped, r);
    assert |r| == Min(count, |s|);
  }

  lemma EndPushed<T(!new)>(s: seq<T>, a: seq<T>, x: T)
    requires EndsWith(s, a)
    ensures EndsWith(s + [x], a + [x])
  {
    var front :| s == front + a;
    assert s + [x] == front + (a + [x]);
  }

  lemma HeldMore(front: seq<string>, line: string, held: seq<string>, count: nat)
    requires HoldsEnough(front, held, count)
    ensures var pushed := held + [line];
            HoldsEnough(front + [line], if |pushed| > count * 2 then pushed[|pushed| - count..] else pushed, count)
  {
    EndPushed(front, held, line);
    var pushed := held + [line];
    if |pushed| > count * 2 {
      LastOfEnd(front + [line], pushed, count);
      assert Last(pushed, count) == pushed[|pushed| - count..];
    }
  }

  /** At every step the reader holds at most twice the count, and always the last `count` lines. */
  lemma {:induction false} HeldIsRecent(lines: seq<string>, count: nat)
    ensures HoldsEnough(lines, Held(lines, count), count)
    decreases |lines|
  {
    if lines == [] {
      assert lines == [] + Held(lines, count);
    } else {
      var front, line := lines[..|lines| - 1], lines[|lines| - 1];
      HeldIsRecent(front, count);
      assert lines == front + [line];
      HeldMore(front, line, Held(front, count), count);
    }
  }

  method TailLines(lines: seq<string>, count: nat) returns (tail: seq<string>)
    ensures tail == Last(lines, count)
  {
    tail := [];
    for i := 0 to |lines|
      invariant tail == Held(lines[..i], count)
    {
      HeldNext(lines, i, count);
      tail := tail + [lines[i]];
      if |tail| > count * 2 {
        var drainTo := |tail| - count;
        tail := tail[drainTo..];
      }
    }
    TailOfHeld(lines, count);
    if |tail| > count {
      tail := tail[|tail| - count..];
    }
  }

  lemma HeldNext(lines: seq<string>, i: nat, count: nat)
    requires i < |lines|
    ensures var pushed := Held(lines[..i], count) + [lines[i]];
            Held(lines[..i + 1], count) == if |pushed| > count * 2 then pushed[|pushed| - count..] else pushed
  {
    assert lines[..i + 1][..i] == lines[..i];
  }

  lemma TailOfHeld(lines: seq<string>, count: nat)
    ensures Last(Held(lines[..|lines|], count), count) == Last(lines, count)
  {
    assert lines[..|lines|] == lines;
    HeldIsRecent(lines, count);
    LastOfEnd(lines, Held(lines, count), count);
  }

  /** The parsed entries of some lines; lines that do not parse are skipped. */
  function Parsed<E>(lines: seq<string>, parse: string -> Option<E>): seq<E> {
    if lines == [] then []
    else
      var e := parse(lines[|lines| - 1]);
      Parsed(lines[..|lines| - 1], parse) + if e.Some? then [e.value] else []
  }

  /** The entries are what some lines give, in the order of the lines; `at` tells which. */
  ghost predicate PickedAt<E>(lines: seq<string>, parse: string -> Option<E>, entries: seq<E>, at: seq<nat>) {
    && |at| == |entries|
    && (forall i, j :: 0 <= i < j < |at| ==> at[i] < at[j])
    && (forall i :: 0 <= i < |at| ==> at[i] < |lines| && parse(lines[at[i]]) == Some(entries[i]))
  }

  /** No line that parses is missing. */
  ghost predicate AllPicked<E>(lines: seq<string>, parse: string -> Option<E>, at: seq<nat>) {
    forall k: nat :: k < |lines| && parse(lines[k]).Some? ==> k in at
  }

  lemma PickNext<E>(lines: seq<string>, line: string, parse: string -> Option<E>, entries: seq<E>, at: seq<nat>)
    requires PickedAt(lines, parse, entries, at)
    ensures parse(line).None? ==> PickedAt(lines + [line], parse, entries, at)
    ensures parse(line).Some? ==> PickedAt(lines + [line], parse, entries + [parse(line).value], at + [|lines|])
  {
  }

  lemma AllWithNext<E>(lines: seq<string>, line: string, parse: string -> Option<E>, at: seq<nat>, at': seq<nat>)
    requires AllPicked(lines, parse, at) && at <= at' && (parse(line).Some? ==> |lines| in at')
    ensures AllPicked(lines + [line], parse, at')
  {
    forall k: nat | k < |lines| + 1 && parse((lines + [line])[k]).Some?
      ensures k in at'
    {
      if k < |lines| {
        assert lines[k] == (lines + [line])[k];
        var i :| 0 <= i < |at| && at[i] == k;
        assert at'[i] == k;
      }
    }
  }

  /** The entries are exactly what the lines that parse give, in the order of the lines. */
  lemma {:induction false} ParsedExactly<E>(lines: seq<string>, parse: string -> Option<E>) returns (at: seq<nat>)
    ensures PickedAt(lines, parse, Parsed(lines, parse), at) && AllPicked(lines, parse, at)
    decreases |lines|
  {
    at := [];
    if lines != [] {
      var front, line := lines[..|lines| - 1], lines[|lines| - 1];
      assert lines == front + [line];
      var before := ParsedExactly(front, parse);
      PickNext(front, line, parse, Parsed(front, parse), before);
      at := if parse(line).Some? then before + [|front|] else before;
      AllWithNext(front, line, parse, before, at);
    }
  }

  /** `read_program_log` and `read_file_op_log`, which differ in how they parse. */
  method ReadLog<E>(lines: seq<string>, count: nat, parse: string -> Option<E>) returns (entries: seq<E>)
    ensures entries == Parsed(Last(lines, count), parse)
  {
    var tail := TailLines(lines, count);
    entries := [];
    for i := 0 to |tail|
      invariant entries == Parsed(tail[..i], parse)
    {
      assert tail[..i + 1][..i] == tail[..i];
      var e := parse(tail[i]);
      if e.Some? {
        entries := entries + [e.value];
      }
    }
    assert tail[..|tail|] == tail;
  }

  lemma {:induction false} ParsedAppend<E>(a: seq<string>, b: seq<string>, parse: string -> Option<E>)
    ensures Parsed(a + b, parse) == Parsed(a, parse) + Parsed(b, parse)
    ensures |Parsed(b, parse)| <= |b|
    decreases |b|
  {
    if b == [] {
      assert a + b == a;
    } else {
      ParsedAppend(a, b[..|b| - 1], parse);
      assert (a + b)[..|a + b| - 1] == a + b[..|b| - 1];
    }
  }

  /** Reading the last `count` lines gives a stretch at the end of all entries.  It is the last `count`
      entries exactly when nothing older than those lines parses, or all of those lines do. */
  lemma ReadLogIsSuffix<E(!new)>(lines: seq<string>, count: nat, parse: string -> Option<E>)
    ensures var all, read := Parsed(lines, parse), Parsed(Last(lines, count), parse);
            && |read| <= Min(count, |all|) && read == Last(all, |read|)
            && (read == Last(all, count) <==>
                  |read| == count || Parsed(lines[..|lines| - Min(count, |lines|)], parse) == [])
  {
    var older := lines[..|lines| - Min(count, |lines|)];
    var recent := Last(lines, count);
    assert lines == older + recent;
    ParsedAppend(older, recent, parse);
    ParsedAppend([], lines, parse);
    assert |Last(Parsed(lines, parse), count)| == Min(count, |Parsed(lines, parse)|);
  }

  // ---- Ring buffers ----

  /** The buffer of program logs.  `history` is everything ever pushed.  A capacity of zero still keeps the latest
      entry. */
  class LogBuffer<T> {
    var entries: seq<T>
    const capacity: nat
    ghost var history: seq<T>

    ghost predicate Valid()
      reads this
    {
      entries == Last(history, Max(capacity, 1))
    }

    constructor (capacity: nat)
      ensures Valid() && history == [] && this.capacity == capacity
    {
      this.capacity := capacity;
      entries, history := [], [];
    }

    method Push(entry: T)
      requires Valid()
      modifies this
      ensures Valid() && history == old(history) + [entry]
    {
      LastOfPushed(history, entry, Max(capacity, 1));
      if |entries| >= capacity {
        if |entries| > 0 {
          entries := entries[1..];
        }
      }
      entries := entries + [entry];
      history := history + [entry];
    }

    /** The last min(count, kept, total) pushes, oldest first. */
    method Recent(count: nat) returns (recent: seq<T>)
      requires Valid()
      ensures recent == Last(history, Min(count, Max(capacity, 1)))
    {
      LastOfLast(history, Max(capacity, 1), count);
      var skip := if |entries| > count then |entries| - count else 0;
      recent := entries[skip..];
    }
  }

  const MAX_BUFFER_SIZE: nat := 2000

  /** The buffer of file operations. */
  class FileLogger<T> {
    var buffer: seq<T>
    ghost var history: seq<T>

    ghost predicate Valid()
      reads this
    {
      buffer == Last(history, 2000)
    }

    constructor ()
      ensures Valid() && history == []
    {
      buffer, history := [], [];
    }

    method Log(entry: T)
      requires Valid()
      modifies this
      ensures Valid() && history == old(history) + [entry]
    {
      LastOfPushed(history, entry, MAX_BUFFER_SIZE);
      if |buffer| >= MAX_BUFFER_SIZE {
        buffer := buffer[1..];
      }
      buffer := buffer + [entry];
      history := history + [entry];
    }

    /** The last min(count, 2000, total) operations, newest first. */
    method GetRecentLogs(count: nat) returns (recent: seq<T>)
      requires Valid()
      ensures recent == Reverse(Last(history, Min(count, 2000)))
    {
      LastOfLast(history, MAX_BUFFER_SIZE, count);
      var reversed := Reverse(buffer);
      recent := reversed[..Min(count, |buffer|)];
      ReverseTake(buffer, count);
    }
  }

  lemma ReverseTake<T>(s: seq<T>, count: nat)
    ensures Reverse(s)[..Min(count, |s|)] == Reverse(Last(s, count))
  {
  }
}
