/** What REALPATH prints, sent back: when the answer resolves to the same path, when it leads to the same
place, and when REALPATH of it prints the same again. */
module Readback {
  import opened Options
  import opened Paths
  import opened FileTree
  import opened Landing

  // ---- What is printed ----

  /** A printed text reads as these components, with the last one trimmed. */
  ghost predicate ReadsAs(shown: string, rest: Path) {
    if rest == [] then shown == "/"
    else
      var n := |rest| - 1;
      var l := Spelling(rest[n]);
      && Segment(l) == [rest[n]] && '/' !in l
      && Read(shown) == Text(true, rest[..n] + Segment(TrimEnd(l)))
      && (TrimEnd(l) == l ==> Trim(shown) == shown)
  }

  lemma SegmentsRead(segs: seq<string>, rest: Path, shown: string)
    requires Tight(segs) && BodyOfSegments(segs) == rest && shown == "/" + JoinSlash(segs)
    ensures ReadsAs(shown, rest)
  {
    var trunk := TightForm(segs, rest);
    if rest != [] {
      ReadBack(trunk, Spelling(rest[|rest| - 1]));
    }
  }

  lemma NamesRead(names: seq<string>, rest: Path)
    requires ValidNames(names) && rest == Normals(names)
    ensures ReadsAs(Virtual(rest), rest)
  {
    if names != [] {
      var n := |names| - 1;
      assert names[n] in names && ValidName(names[n]);
      VirtualReadBack(names);
      LastName(names);
    }
  }

  /** What is printed of any accepted text reads as the components that follow home, with the last one
      trimmed; from the component loop it is the plain spelling of names. */
  lemma ShownReads(home: Path, path: string, rest: Path)
    requires CanonicalHome(home) && SftpResolve(home, path).Resolved? && rest == Below(home, Read(path))
    ensures Realpath(home, path).Some?
    ensures ReadsAs(Realpath(home, path).value, rest)
  {
    var t := Read(path);
    ReadIsPlain(path);
    if NamesHome(home, t) {
      RemainderIsPlain(home, t);
      var segs := SpelledIsTight(Trim(path), |home| - 1);
      SegmentsRead(segs, rest, "/" + JoinSlash(segs));
    } else {
      NormalizeKeepsNames(t.body);
      NamesRead(Normalize(t.body).value, rest);
    }
  }

  // ---- The same path ----

  /** No part of the last component is trimmed away. */
  predicate Untrimmed(rest: Path)
    requires rest != []
  {
    !EndsInWhitespace(Spelling(rest[|rest| - 1]))
  }

  /** The remainders whose printed form resolves to the same path. */
  predicate ReadsBackAs(home: Path, rest: Path) {
    rest != [] ==>
      Untrimmed(rest) && if home <= [RootDir] + rest then |home| == 1 else ParentDir !in rest
  }

  lemma UntrimmedRest(home: Path, rest: Path)
    requires CanonicalHome(home) && Plain(rest)
    ensures SftpPlace(home, Text(true, rest)) == Resolved(home + rest)
        <==> if home <= [RootDir] + rest then |home| == 1 else ParentDir !in rest
  {
    var t := Text(true, rest);
    if NamesHome(home, t) {
      SamePath(home, Remainder(home, t), rest);
      if |home| == 1 {
        assert Remainder(home, t) == rest;
      }
    } else {
      if ParentDir !in rest {
        NormalizePlain(rest);
      }
      if Normalize(rest).Some? {
        SamePath(home, Normals(Normalize(rest).value), rest);
        assert ParentDir !in Normals(Normalize(rest).value);
      }
    }
  }

  /** With its last name trimmed, a remainder is placed somewhere else. */
  lemma TrimmedRest(home: Path, front: Path, l: string, trimmed: string)
    requires CanonicalHome(home) && Plain(front) && l != trimmed
    ensures SftpPlace(home, Text(true, front + Segment(trimmed))) != Resolved(home + (front + [Normal(l)]))
  {
    var body, rest := front + Segment(trimmed), front + [Normal(l)];
    var t := Text(true, body);
    if NamesHome(home, t) {
      SamePath(home, Remainder(home, t), rest);
      assert rest[|front|] == Normal(l);
      assert |home| == 1 ==> Remainder(home, t) == body;
    } else if Normalize(body).Some? {
      var stack := Normalize(body).value;
      SamePath(home, Normals(stack), rest);
      if Normals(stack) == rest {
        FrontOfNames(stack, front, l);
        TrimmedStack(stack, trimmed, body);
      }
    }
  }

  lemma FrontOfNames(stack: seq<string>, front: Path, l: string)
    requires Normals(stack) == front + [Normal(l)]
    ensures stack != [] && front == Normals(stack[..|stack| - 1]) && stack[|stack| - 1] == l
  {
    var n := |stack| - 1;
    assert |Normals(stack)| == |stack|;
    assert Normals(stack)[n] == Normal(l);
    assert front == Normals(stack)[..n] == Normals(stack[..n]);
  }

  lemma TrimmedOrNot(l: string)
    ensures TrimEnd(l) == l <==> !EndsInWhitespace(l)
  {
    if EndsInWhitespace(l) {
      TrimEndPart(l[..|l| - 1]);
    }
  }

  lemma ShownPlace(home: Path, rest: Path, front: Path, last: Component)
    requires CanonicalHome(home) && rest == front + [last] && Plain(rest) && Segment(Spelling(last)) == [last]
    ensures SftpPlace(home, Text(true, front + Segment(TrimEnd(Spelling(last))))) == Resolved(home + rest)
        <==> ReadsBackAs(home, rest)
  {
    var l := Spelling(last);
    TrimmedOrNot(l);
    if EndsInWhitespace(l) {
      PlainFront(front, last);
      TrimmedRest(home, front, l, TrimEnd(l));
    } else {
      UntrimmedRest(home, rest);
    }
  }

  lemma PlainFront(front: Path, last: Component)
    requires Plain(front + [last])
    ensures Plain(front) && (last.Normal? || last.ParentDir?)
  {
    assert forall c :: c in front ==> c in front + [last];
    assert last in front + [last];
  }

  /** What comes back when the answer is sent again: home for home, else what its reading is placed at. */
  ghost predicate ComesBackAs(home: Path, rest: Path, again: Resolution) {
    if rest == [] then again == Resolved(home)
    else
      var n := |rest| - 1;
      && Segment(Spelling(rest[n])) == [rest[n]]
      && again == SftpPlace(home, Text(true, rest[..n] + Segment(TrimEnd(Spelling(rest[n])))))
  }

  lemma SentAgain(home: Path, path: string)
    requires CanonicalHome(home) && SftpResolve(home, path).Resolved?
    ensures Realpath(home, path).Some?
    ensures var rest := Below(home, Read(path));
            && SftpResolve(home, path) == Resolved(home + rest) && Plain(rest)
            && ComesBackAs(home, rest, SftpResolve(home, Realpath(home, path).value))
  {
    BelowForm(home, path);
    ShownReads(home, path, Below(home, Read(path)));
    RootRoundTrip(home);
  }

  lemma ComesBackSame(home: Path, rest: Path, again: Resolution)
    requires CanonicalHome(home) && Plain(rest) && ComesBackAs(home, rest, again)
    ensures again == Resolved(home + rest) <==> ReadsBackAs(home, rest)
  {
    if rest == [] {
      assert home + rest == home;
    } else {
      var n := |rest| - 1;
      SplitAtLast(rest);
      ShownPlace(home, rest, rest[..n], rest[n]);
    }
  }

  /** REALPATH round trip, for every accepted text: what is printed resolves to the same path exactly when the
      last component has no trailing white space and what follows home in the path does not begin with home's
      own names and has no parent step, or home is the root. */
  lemma RealpathRoundTrip(home: Path, path: string)
    requires CanonicalHome(home) && SftpResolve(home, path).Resolved?
    ensures Realpath(home, path).Some?
    ensures SftpResolve(home, Realpath(home, path).value) == SftpResolve(home, path)
        <==> ReadsBackAs(home, Below(home, Read(path)))
  {
    SentAgain(home, path);
    ComesBackSame(home, Below(home, Read(path)), SftpResolve(home, Realpath(home, path).value));
  }

  // ---- The same place ----

  ghost predicate LeadsTo(r: Resolution, l: Loc) {
    r.Resolved? && RootWalk(r.path) == l
  }

  /** The remainders whose printed form leads to the same place: the printed text begins with home's names and
      climbs above the root of what it is taken for, or else never climbs. */
  ghost predicate LeadsBack(home: Path, rest: Path) {
    rest != [] ==>
      Untrimmed(rest)
      && if home <= [RootDir] + rest then CourseOf(rest).climb >= |home| - 1 else NeverAbove(rest)
  }

  /** Where an absolute text with these components is placed. */
  lemma PlacedAt(home: Path, body: Path)
    requires CanonicalHome(home) && Plain(body)
    ensures var r := SftpPlace(home, Text(true, body));
            if home <= [RootDir] + body then LeadsTo(r, CourseOf(body).names)
            else if CourseOf(body).climb == 0 then LeadsTo(r, NamesOf(home) + CourseOf(body).names)
            else !r.Resolved?
  {
    CourseIsNormalize(body);
    if home <= [RootDir] + body {
      FromRoot(body);
      assert home + Remainder(home, Text(true, body)) == [RootDir] + body;
    } else if CourseOf(body).climb == 0 {
      NormalizeKeepsNames(body);
      FromHome(home, CourseOf(body).names);
    }
  }

  lemma FromHome(home: Path, names: seq<string>)
    requires CanonicalHome(home) && ValidNames(names)
    ensures RootWalk(home + Normals(names)) == NamesOf(home) + names
  {
    PlainNames(names);
    WalkByCourse(home, Normals(names));
    NormalizeNames(names);
    CourseIsNormalize(Normals(names));
  }

  lemma UntrimmedLeads(home: Path, rest: Path)
    requires CanonicalHome(home) && Plain(rest)
    ensures LeadsTo(SftpPlace(home, Text(true, rest)), RootWalk(home + rest))
        <==> if home <= [RootDir] + rest then CourseOf(rest).climb >= |home| - 1 else NeverAbove(rest)
  {
    var l, c := NamesOf(home), CourseOf(rest);
    PlacedAt(home, rest);
    WalkByCourse(home, rest);
    CourseOfAccepted(rest);
    if home <= [RootDir] + rest {
      SameTail(Climbed(l, c.climb), c.names);
    } else {
      assert Climbed(l, 0) == l;
    }
  }

  lemma SameTail(l: Loc, names: seq<string>)
    ensures l + names == names <==> l == []
  {
    assert |l + names| == |l| + |names|;
    assert [] + names == names;
  }

  lemma TrimmedLeads(home: Path, front: Path, l: string, trimmed: string)
    requires CanonicalHome(home) && Plain(front) && l != trimmed && Plain(front + Segment(trimmed))
    ensures !LeadsTo(SftpPlace(home, Text(true, front + Segment(trimmed))), RootWalk(home + (front + [Normal(l)])))
  {
    var body := front + Segment(trimmed);
    PlacedAt(home, body);
    WalkByCourse(home, front);
    FurtherWalk(home, front, Normal(l));
    TrimmedCourse(front, trimmed);
    OtherEnd(NamesOf(home), CourseOf(front), CourseOf(body), l);
  }

  lemma TrimmedCourse(front: Path, trimmed: string)
    ensures var c, d := CourseOf(front), CourseOf(front + Segment(trimmed));
            && (d.climb == 0 ==> c.climb == 0)
            && (|d.names| <= |c.names| || (d == c.(names := c.names + [trimmed])))
  {
    if Segment(trimmed) == [] {
      assert front + [] == front;
    } else {
      FurtherCourse(front, Segment(trimmed)[0]);
      assert front + Segment(trimmed) == front + [Segment(trimmed)[0]];
    }
  }

  /** One name more, or another name at the end, is another place. */
  lemma OtherEnd(home: Loc, c: Course, d: Course, l: string)
    requires d.climb == 0 ==> c.climb == 0
    requires |d.names| <= |c.names| || (exists x :: x != l && d == c.(names := c.names + [x]))
    ensures d.names != Climbed(home, c.climb) + c.names + [l]
    ensures d.climb == 0 ==> home + d.names != Climbed(home, c.climb) + c.names + [l]
  {
    var place := Climbed(home, c.climb) + c.names + [l];
    assert place[|place| - 1] == l;
    if |d.names| > |c.names| {
      var x :| x != l && d == c.(names := c.names + [x]);
      assert d.names[|d.names| - 1] == x;
      assert (home + d.names)[|home + d.names| - 1] == x;
    }
  }

  lemma ComesBackThere(home: Path, rest: Path, again: Resolution)
    requires CanonicalHome(home) && Plain(rest) && ComesBackAs(home, rest, again)
    ensures LeadsTo(again, RootWalk(home + rest)) <==> LeadsBack(home, rest)
  {
    if rest != [] {
      var n := |rest| - 1;
      SplitAtLast(rest);
      ShownLeads(home, rest, rest[..n], rest[n], again);
    } else {
      HomeComesBack(home, rest, again);
    }
  }

  lemma SplitAtLast(rest: Path)
    requires rest != []
    ensures rest == rest[..|rest| - 1] + [rest[|rest| - 1]]
  {
  }

  lemma HomeComesBack(home: Path, rest: Path, again: Resolution)
    requires rest == [] && again == Resolved(home)
    ensures LeadsTo(again, RootWalk(home + rest)) && LeadsBack(home, rest)
  {
    assert home + rest == home;
  }

  /** Whatever the path, exactly when the answer of REALPATH, sent back, leads to the same place. */
  lemma RealpathSamePlace(home: Path, path: string)
    requires CanonicalHome(home) && SftpResolve(home, path).Resolved?
    ensures Realpath(home, path).Some?
    ensures LeadsTo(SftpResolve(home, Realpath(home, path).value), RootWalk(SftpResolve(home, path).path))
        <==> LeadsBack(home, Below(home, Read(path)))
  {
    SentAgain(home, path);
    ComesBackThere(home, Below(home, Read(path)), SftpResolve(home, Realpath(home, path).value));
  }

  lemma ShownLeads(home: Path, rest: Path, front: Path, last: Component, again: Resolution)
    requires CanonicalHome(home) && rest == front + [last] && Plain(rest) && Segment(Spelling(last)) == [last]
    requires again == SftpPlace(home, Text(true, front + Segment(TrimEnd(Spelling(last)))))
    ensures LeadsTo(again, RootWalk(home + rest)) <==> LeadsBack(home, rest)
  {
    var l := Spelling(last);
    TrimmedOrNot(l);
    if EndsInWhitespace(l) {
      PlainFront(front, last);
      TrimmedPlain(front, l);
      TrimmedLeads(home, front, l, TrimEnd(l));
    } else {
      UntrimmedLeads(home, rest);
    }
  }

  lemma TrimmedPlain(front: Path, l: string)
    requires Plain(front) && '/' !in l
    ensures Plain(front + Segment(TrimEnd(l)))
  {
    TrimmedName(l);
  }

  // ---- The same answer ----

  /** Every segment is a component: no doubled slashes and no dots in between. */
  predicate WithoutGaps(segs: seq<string>) {
    forall seg :: seg in segs ==> Segment(seg) != []
  }

  /** The segments that are printed of a text whose first components are home's. */
  function Printed(home: Path, path: string): seq<string>
    requires home != []
  {
    UpToLast(After(Split(Trim(path)), |home| - 1))
  }

  lemma {:induction false} GaplessAreNames(segs: seq<string>, names: seq<string>)
    requires BodyOfSegments(segs) == Normals(names) && WithoutGaps(segs)
    ensures segs == names
    decreases |segs|
  {
    if segs != [] {
      assert segs[0] in segs && Segment(segs[0]) != [];
      assert Normals(names)[0] == Segment(segs[0])[0];
      assert Normals(names)[1..] == Normals(names[1..]);
      assert BodyOfSegments(segs[1..]) == Normals(names)[1..];
      GaplessAreNames(segs[1..], names[1..]);
    } else {
      assert |Normals(names)| == 0;
    }
  }

  /** The spelling is the plain one exactly when it has no gaps. */
  lemma PlainSpelling(segs: seq<string>, names: seq<string>)
    requires Tight(segs) && BodyOfSegments(segs) == Normals(names) && ValidNames(names) && names != []
    ensures "/" + JoinSlash(segs) == Virtual(Normals(names)) <==> WithoutGaps(segs)
  {
    VirtualJoins(names);
    assert segs != [] by {
      assert |Normals(names)| > 0;
    }
    SplitJoined(segs);
    SplitJoined(names);
    SamePath("/", JoinSlash(segs), JoinSlash(names));
    if WithoutGaps(segs) {
      GaplessAreNames(segs, names);
    }
  }

  /** REALPATH of what it has printed prints the same again exactly when the request did not spell out home,
      or spelled what follows without doubled slashes and dots, or home is the root.  What is printed of a
      spelled-out home keeps its doubled slashes; printed from names, they are gone. */
  lemma RealpathIdempotent(home: Path, path: string, names: seq<string>)
    requires CanonicalHome(home) && ValidNames(names) && ReadsBack(home, names)
    requires SftpResolve(home, path) == Resolved(home + Normals(names))
    ensures Realpath(home, path).Some?
    ensures var shown := Realpath(home, path).value;
            Realpath(home, shown) == Some(shown)
            <==> (NamesHome(home, Read(path)) ==> |home| == 1 || WithoutGaps(Printed(home, path)))
  {
    BelowForm(home, path);
    SamePath(home, Below(home, Read(path)), Normals(names));
    ShownReads(home, path, Normals(names));
    if names == [] {
      HomeAgain(home, path);
    } else {
      var n := |names| - 1;
      LastName(names);
      assert names[n] in names && ValidName(names[n]);
      TrimmedOrNot(names[n]);
      NamesAgain(home, path, names);
    }
  }

  /** Home itself is printed as a slash, and so is the slash. */
  lemma HomeAgain(home: Path, path: string)
    requires CanonicalHome(home) && SftpResolve(home, path) == Resolved(home)
    ensures Realpath(home, path) == Some("/") && Realpath(home, "/") == Some("/")
    ensures NamesHome(home, Read(path)) ==> WithoutGaps(Printed(home, path))
  {
    BelowForm(home, path);
    assert home + [] == home;
    SamePath(home, Below(home, Read(path)), []);
    ShownReads(home, path, []);
    RootRoundTrip(home);
    BelowForm(home, "/");
    SamePath(home, Below(home, Read("/")), []);
    ShownReads(home, "/", []);
    if NamesHome(home, Read(path)) {
      PrintedForm(home, path);
    }
  }

  lemma PrintedForm(home: Path, path: string)
    requires home != [] && NamesHome(home, Read(path))
    ensures var segs := Printed(home, path);
            && Tight(segs) && BodyOfSegments(segs) == Remainder(home, Read(path))
            && Realpath(home, path) == Some("/" + JoinSlash(segs))
            && (Remainder(home, Read(path)) == [] ==> segs == [])
  {
    ReadIsPlain(path);
    RemainderIsPlain(home, Read(path));
    var segs := SpelledIsTight(Trim(path), |home| - 1);
    var _ := TightForm(segs, Remainder(home, Read(path)));
  }

  lemma NamesAgain(home: Path, path: string, names: seq<string>)
    requires CanonicalHome(home) && ValidNames(names) && ReadsBack(home, names) && names != []
    requires SftpResolve(home, path) == Resolved(home + Normals(names)) && Below(home, Read(path)) == Normals(names)
    requires Realpath(home, path).Some? && Read(Realpath(home, path).value) == Text(true, Normals(names))
    requires Trim(Realpath(home, path).value) == Realpath(home, path).value
    ensures var shown := Realpath(home, path).value;
            Realpath(home, shown) == Some(shown)
            <==> (NamesHome(home, Read(path)) ==> |home| == 1 || WithoutGaps(Printed(home, path)))
  {
    var shown := Realpath(home, path).value;
    NormalizeNames(names);
    if NamesHome(home, Read(path)) {
      PrintedForm(home, path);
      var segs := Printed(home, path);
      PlainSpelling(segs, names);
      if |home| == 1 {
        TightAgain(segs);
      }
    } else {
      SameNames(Normalize(Read(path).body).value, names);
      if |home| == 1 {
        VirtualSpelled(names);
      }
    }
  }

  /** A family of requests whose answer is not a fixed point: a spelled-out home and a doubled slash. */
  lemma GapsVanish(h: string, a: string, b: string)
    requires ValidName(h) && ValidName(a) && ValidName(b) && a != h && !EndsInWhitespace(b)
    ensures var home, path := [RootDir, Normal(h)], JoinSlash(["", h, a, "", b]);
            && CanonicalHome(home) && SftpResolve(home, path) == Resolved(home + Normals([a, b]))
            && Realpath(home, path) == Some("/" + JoinSlash([a, "", b]))
            && Realpath(home, Realpath(home, path).value) != Realpath(home, path)
  {
    var home, path, names := [RootDir, Normal(h)], JoinSlash(["", h, a, "", b]), [a, b];
    GappedText(h, a, b);
    GappedPlace(h, a, b);
    assert "" in Printed(home, path);
    assert !(home <= [RootDir] + Normals(names)) by {
      assert ([RootDir] + Normals(names))[1] == Normal(a);
    }
    RealpathIdempotent(home, path, names);
  }

  lemma GappedText(h: string, a: string, b: string)
    requires ValidName(h) && ValidName(a) && ValidName(b) && !EndsInWhitespace(b)
    ensures var segs := ["", h, a, "", b];
            && Trim(JoinSlash(segs)) == JoinSlash(segs) && IsAbsolute(JoinSlash(segs)) && Split(JoinSlash(segs)) == segs
  {
    var front := ["", h, a, ""];
    assert ["", h, a, "", b] == front + [b];
    SplitJoined(front + [b]);
    JoinAfterSlash([h, a, ""]);
    assert [""] + [h, a, ""] == front;
    JoinMore(front, b);
    TrimmedOrNot(b);
    TrimLast(JoinSlash(front) + "/", b);
  }

  lemma GappedSegments(h: string, a: string, b: string)
    requires ValidName(h) && ValidName(a) && ValidName(b)
    ensures var segs := ["", h, a, "", b];
            && BodyOfSegments(segs) == [Normal(h), Normal(a), Normal(b)] && UpToLast(After(segs, 1)) == [a, "", b]
  {
    var s2, s3, s4 := [h, a, "", b], [a, "", b], ["", b];
    OneBody(b);
    assert s4[1..] == [b] && BodyOfSegments(s4) == [Normal(b)];
    assert s3[1..] == s4 && BodyOfSegments(s3) == [Normal(a), Normal(b)];
    assert s2[1..] == s3 && BodyOfSegments(s2) == [Normal(h), Normal(a), Normal(b)];
    assert ["", h, a, "", b][1..] == s2;
    assert After(s3, 0) == s3 && After(s2, 1) == s3;
  }

  lemma GappedPlace(h: string, a: string, b: string)
    requires ValidName(h) && ValidName(a) && ValidName(b) && !EndsInWhitespace(b)
    ensures var home, path := [RootDir, Normal(h)], JoinSlash(["", h, a, "", b]);
            && Read(path) == Text(true, [Normal(h), Normal(a), Normal(b)])
            && SftpResolve(home, path) == Resolved(home + Normals([a, b]))
            && Printed(home, path) == [a, "", b] && Realpath(home, path) == Some("/" + JoinSlash([a, "", b]))
  {
    var home, path := [RootDir, Normal(h)], JoinSlash(["", h, a, "", b]);
    GappedText(h, a, b);
    BodyBySegments(path);
    GappedSegments(h, a, b);
    GappedRead(home, path, h, a, b);
    PrintedForm(home, path);
  }

  lemma GappedRead(home: Path, path: string, h: string, a: string, b: string)
    requires home == [RootDir, Normal(h)] && Read(path) == Text(true, [Normal(h), Normal(a), Normal(b)])
    ensures NamesHome(home, Read(path)) && SftpResolve(home, path) == Resolved(home + Normals([a, b]))
  {
    var t := Read(path);
    assert [RootDir] + t.body == home + Normals([a, b]);
    assert Remainder(home, t) == Normals([a, b]);
  }
}
