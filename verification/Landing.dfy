/** Where the texts that the SFTP resolver accepts lead.

The resolver works on text; the operating system walks the resulting path from the root.  A text that
spells out the home directory is passed on as it is, parent steps and all, so that walk may leave home. */
module Landing {
  import opened Options
  import opened Paths
  import opened FileTree

  // ---- The walk from the root ----

  /** One component further; above the root there is only the root. */
  function Enter(d: Loc, step: Component): Loc {
    match step
    case Normal(name) => d + [name]
    case ParentDir => if d == [] then [] else Above(d)
    case CurDir => d
    case RootDir => []
  }

  /** Where a path leads by its components alone. */
  function RootWalk(p: Path): Loc {
    if p == [] then [] else Enter(RootWalk(p[..|p| - 1]), p[|p| - 1])
  }

  /** Without links, the operating system goes where the components say. */
  lemma {:induction false} LocateIsLexical(fs: Fs, p: Path)
    ensures Locate(fs, p).At? ==> Locate(fs, p).loc == RootWalk(p)
    decreases |p|
  {
    if p != [] {
      LocateIsLexical(fs, p[..|p| - 1]);
      if p == [RootDir] {
        assert RootWalk(p) == [];
      }
    }
  }

  /** The first `n` parts of the path, from its start at the root, all lead to directories. */
  ghost predicate DirsUpTo(fs: Fs, p: Path, n: nat)
    requires n <= |p|
  {
    p != [] && p[0] == RootDir && forall k :: 0 < k < n ==> fs.IsDir(RootWalk(p[..k]))
  }

  /** A part of the path leads to a file, and all parts before it to directories. */
  ghost predicate FileAfter(fs: Fs, p: Path, k: nat) {
    0 < k < |p| && DirsUpTo(fs, p, k) && fs.IsFile(RootWalk(p[..k]))
  }

  ghost predicate Obstructed(fs: Fs, p: Path) {
    exists k: nat :: FileAfter(fs, p, k)
  }

  lemma PartsOfFront(fs: Fs, p: Path, n: nat)
    requires 0 < n < |p|
    ensures DirsUpTo(fs, p[..|p| - 1], n) <==> DirsUpTo(fs, p, n)
    ensures p[..|p| - 1][..n] == p[..n]
  {
    var front := p[..|p| - 1];
    forall k | 0 < k <= n
      ensures front[..k] == p[..k]
    {
    }
    assert front[..n] == p[..n];
    assert front != [] && front[0] == p[0];
  }

  lemma ObstructedBefore(fs: Fs, p: Path)
    requires |p| > 1
    ensures Obstructed(fs, p) <==> Obstructed(fs, p[..|p| - 1]) || FileAfter(fs, p, |p| - 1)
  {
    var front := p[..|p| - 1];
    forall k: nat | 0 < k < |p| - 1
      ensures FileAfter(fs, front, k) <==> FileAfter(fs, p, k)
    {
      PartsOfFront(fs, p, k);
    }
    if k: nat :| FileAfter(fs, p, k) {
      assert k < |p| - 1 ==> FileAfter(fs, front, k);
    }
    if k: nat :| FileAfter(fs, front, k) {
      assert FileAfter(fs, p, k);
    }
  }

  /** Exactly which paths the operating system finds a place for: those that start at the root and all of
      whose proper parts lead to directories, whether or not the place itself exists.  Any other path is not
      found, unless a file is in the way. */
  lemma {:induction false} LocateExactly(fs: Fs, p: Path)
    ensures Locate(fs, p).At? <==> DirsUpTo(fs, p, |p|)
    ensures Locate(fs, p).At? ==> Locate(fs, p).loc == RootWalk(p)
    ensures Locate(fs, p).Fails? ==> Locate(fs, p).error == if Obstructed(fs, p) then OtherError else NotFound
    decreases |p|
  {
    LocateIsLexical(fs, p);
    if |p| > 1 {
      var front := p[..|p| - 1];
      LocateExactly(fs, front);
      PartsOfFront(fs, p, |p| - 1);
      ObstructedBefore(fs, p);
    }
  }

  lemma {:induction false} HomeWalk(home: Path)
    requires CanonicalHome(home)
    ensures RootWalk(home) == NamesOf(home)
    decreases |home|
  {
    if |home| == 1 {
      assert home == [RootDir];
    } else {
      var front := home[..|home| - 1];
      assert CanonicalHome(front);
      HomeWalk(front);
      assert NamesOf(home) == NamesOf(front) + [home[|home| - 1].name];
    }
  }

  // ---- Climbing ----

  /** A relative walk in short: how many levels it climbs above its start, and the names it then enters. */
  datatype Course = Course(climb: nat, names: seq<string>)

  function Further(c: Course, step: Component): Course {
    match step
    case Normal(name) => c.(names := c.names + [name])
    case ParentDir => if c.names == [] then c.(climb := c.climb + 1) else c.(names := c.names[..|c.names| - 1])
    case _ => c
  }

  function CourseOf(cs: Path): Course {
    if cs == [] then Course(0, []) else Further(CourseOf(cs[..|cs| - 1]), cs[|cs| - 1])
  }

  /** What is left of a place after climbing. */
  function Climbed(l: Loc, climb: nat): Loc {
    if climb <= |l| then l[..|l| - climb] else []
  }

  /** Walking on from anywhere: climb as far as the course says, then enter its names. */
  lemma {:induction false} WalkOn(p: Path, cs: Path)
    requires Plain(cs)
    ensures RootWalk(p + cs) == Climbed(RootWalk(p), CourseOf(cs).climb) + CourseOf(cs).names
    decreases |cs|
  {
    if cs == [] {
      assert p + cs == p;
    } else {
      var front, step := cs[..|cs| - 1], cs[|cs| - 1];
      assert step in cs && cs == front + [step];
      WalkOn(p, front);
      WalkStep(p, front, step);
    }
  }

  lemma WalkByCourse(home: Path, cs: Path)
    requires CanonicalHome(home) && Plain(cs)
    ensures RootWalk(home + cs) == Climbed(NamesOf(home), CourseOf(cs).climb) + CourseOf(cs).names
  {
    HomeWalk(home);
    WalkOn(home, cs);
  }

  lemma WalkStep(p: Path, front: Path, step: Component)
    requires step.Normal? || step.ParentDir?
    requires RootWalk(p + front) == Climbed(RootWalk(p), CourseOf(front).climb) + CourseOf(front).names
    ensures var c := CourseOf(front + [step]);
            RootWalk(p + (front + [step])) == Climbed(RootWalk(p), c.climb) + c.names
  {
    CourseStep(RootWalk(p), CourseOf(front), step);
    FurtherWalk(p, front, step);
    FurtherCourse(front, step);
  }

  lemma FurtherCourse(front: Path, step: Component)
    ensures CourseOf(front + [step]) == Further(CourseOf(front), step)
  {
    assert (front + [step])[..|front|] == front;
  }

  lemma FurtherWalk(home: Path, front: Path, step: Component)
    ensures RootWalk(home + (front + [step])) == Enter(RootWalk(home + front), step)
  {
    var p := home + (front + [step]);
    assert p[..|p| - 1] == home + front;
  }

  lemma CourseStep(l: Loc, c: Course, step: Component)
    requires step.Normal? || step.ParentDir?
    ensures Enter(Climbed(l, c.climb) + c.names, step) == Climbed(l, Further(c, step).climb) + Further(c, step).names
  {
  }

  /** A walk that never climbs above its start is the one the component loop accepts. */
  lemma {:induction false} CourseOfAccepted(cs: Path)
    requires Plain(cs)
    ensures CourseOf(cs).climb == 0 <==> NeverAbove(cs)
    ensures NeverAbove(cs) ==> Normalize(cs) == Some(CourseOf(cs).names)
  {
    CourseIsNormalize(cs);
    NormalizeSucceeds(cs);
  }

  lemma {:induction false} CourseIsNormalize(cs: Path)
    requires Plain(cs)
    ensures Normalize(cs) == if CourseOf(cs).climb == 0 then Some(CourseOf(cs).names) else None
    decreases |cs|
  {
    if cs != [] {
      assert cs[|cs| - 1] in cs;
      CourseIsNormalize(cs[..|cs| - 1]);
    }
  }

  /** A walk from home ends at or below home exactly when the names it enters after climbing begin with
      the names of home it climbed over. */
  predicate Returns(home: Loc, c: Course) {
    home[|Climbed(home, c.climb)|..] <= c.names
  }

  lemma LandsBelow(home: Loc, c: Course)
    ensures home <= Climbed(home, c.climb) + c.names <==> Returns(home, c)
  {
    var kept := Climbed(home, c.climb);
    assert home == kept + home[|kept|..];
    PrefixTail(kept, home[|kept|..], c.names);
  }

  lemma PrefixTail(start: Loc, a: Loc, b: Loc)
    ensures start + a <= start + b <==> a <= b
  {
    if a <= b {
      assert b == a + b[|a|..];
      assert start + b == start + a + b[|a|..];
    } else if |a| <= |b| {
      var i :| 0 <= i < |a| && a[i] != b[i];
      assert (start + a)[|start| + i] == a[i] && (start + b)[|start| + i] == b[i];
    }
  }

  // ---- What the resolver lets through ----

  /** The components that follow home in what the resolver returns. */
  function Below(home: Path, t: Text): Path {
    if NamesHome(home, t) then Remainder(home, t)
    else if Normalize(t.body).Some? then Normals(Normalize(t.body).value)
    else []
  }

  lemma BelowForm(home: Path, path: string)
    requires CanonicalHome(home) && SftpResolve(home, path).Resolved?
    ensures SftpResolve(home, path).path == home + Below(home, Read(path)) && Plain(Below(home, Read(path)))
    ensures !NamesHome(home, Read(path)) ==> CourseOf(Below(home, Read(path))) == Course(0, Normalize(Read(path).body).value)
  {
    var t := Read(path);
    ReadIsPlain(path);
    if NamesHome(home, t) {
      RemainderIsPlain(home, t);
    } else {
      var stack := Normalize(t.body).value;
      NormalizeKeepsNames(t.body);
      NormalizeNames(stack);
      assert Plain(Normals(stack));
      CourseIsNormalize(Normals(stack));
    }
  }

  /** Where every accepted text leads: home is climbed as far as the text says, and then the names follow.
      The place lies at or below home exactly when the names return to it; unless the text spells out the
      home directory and its remainder climbs, the place is home followed by plain names. */
  lemma SftpLanding(home: Path, fs: Fs, path: string)
    requires CanonicalHome(home) && SftpResolve(home, path).Resolved?
    ensures var course, p := CourseOf(Below(home, Read(path))), SftpResolve(home, path).path;
            var place := Climbed(NamesOf(home), course.climb) + course.names;
            && RootWalk(p) == place && (Locate(fs, p).At? ==> Locate(fs, p).loc == place)
            && (NamesOf(home) <= place <==> Returns(NamesOf(home), course))
            && (course.climb == 0 <==> (NamesHome(home, Read(path)) ==> NeverAbove(Remainder(home, Read(path)))))
            && (course.climb == 0 ==> place == NamesOf(home) + course.names)
  {
    var rest := Below(home, Read(path));
    BelowForm(home, path);
    WalkByCourse(home, rest);
    LocateIsLexical(fs, home + rest);
    LandsBelow(NamesOf(home), CourseOf(rest));
    ClimbsExactly(home, path);
    assert Climbed(NamesOf(home), 0) == NamesOf(home);
  }

  lemma ClimbsExactly(home: Path, path: string)
    requires CanonicalHome(home) && SftpResolve(home, path).Resolved?
    ensures CourseOf(Below(home, Read(path))).climb == 0
        <==> (NamesHome(home, Read(path)) ==> NeverAbove(Remainder(home, Read(path))))
  {
    BelowForm(home, path);
    CourseOfAccepted(Below(home, Read(path)));
  }

  /** Every place passed on the way lies at or below home. */
  ghost predicate EveryStepBelow(home: Path, cs: Path)
    requires CanonicalHome(home)
  {
    forall k :: 0 <= k <= |cs| ==> NamesOf(home) <= RootWalk(home + cs[..k])
  }

  /** No step of the walk leaves home exactly when the remainder never climbs above it, or home is the root. */
  lemma StepsBelowExactly(home: Path, cs: Path)
    requires CanonicalHome(home) && Plain(cs)
    ensures EveryStepBelow(home, cs) <==> NeverAbove(cs) || |home| == 1
  {
    if |home| == 1 {
      assert NamesOf(home) == [];
    } else if NeverAbove(cs) {
      forall k | 0 <= k <= |cs|
        ensures NamesOf(home) <= RootWalk(home + cs[..k])
      {
        NeverAbovePrefix(cs, k);
        CourseOfAccepted(cs[..k]);
        WalkByCourse(home, cs[..k]);
      }
    } else {
      CourseOfAccepted(cs);
      assert cs[..|cs|] == cs;
      var k := FirstClimb(cs, |cs|);
      WalkByCourse(home, cs[..k]);
      assert |RootWalk(home + cs[..k])| < |NamesOf(home)|;
    }
  }

  lemma NeverAbovePrefix(cs: Path, k: nat)
    requires k <= |cs| && NeverAbove(cs)
    ensures NeverAbove(cs[..k])
  {
    forall j | 0 <= j <= k
      ensures Depth(cs[..k][..j]) >= 0
    {
      assert cs[..k][..j] == cs[..j];
    }
  }

  /** A walk that climbs stands, at some point, right above where it started. */
  lemma {:induction false} FirstClimb(cs: Path, n: nat) returns (k: nat)
    requires n <= |cs| && CourseOf(cs[..n]).climb > 0
    ensures k <= n && CourseOf(cs[..k]) == Course(1, [])
    decreases n
  {
    assert cs[..n][..n - 1] == cs[..n - 1];
    if CourseOf(cs[..n - 1]).climb > 0 {
      k := FirstClimb(cs, n - 1);
    } else {
      k := n;
    }
  }

  // ---- Texts that lead elsewhere ----

  /** A text that spells out home, climbs one level above it and enters a name there. */
  function SpelledBeside(home: Path, name: string): string
    requires home != []
  {
    Virtual(home[1..]) + "/" + ".." + "/" + name
  }

  lemma HomeNames(home: Path)
    requires CanonicalHome(home)
    ensures home == [RootDir] + Normals(NamesOf(home)) && ValidNames(NamesOf(home))
  {
  }

  lemma BesideText(names: seq<string>, name: string)
    requires ValidNames(names) && names != [] && ValidName(name) && !EndsInWhitespace(name)
    ensures Read(Virtual(Normals(names)) + "/" + ".." + "/" + name) == Text(true, Normals(names) + [ParentDir] + [Normal(name)])
  {
    var spelled := Virtual(Normals(names));
    BodyOfTrunk(names);
    BodyOfLonger(spelled, "..");
    BodyOfLonger(spelled + "/" + "..", name);
    TrimLast(spelled + "/" + ".." + "/", name);
    assert TrimEnd(name) == name;
  }

  /** It is accepted, leads beside home, and so does not land in it. */
  lemma BesideHome(home: Path, name: string)
    requires CanonicalHome(home) && |home| > 1 && ValidName(name) && !EndsInWhitespace(name) && name != home[|home| - 1].name
    ensures SftpResolve(home, SpelledBeside(home, name)) == Resolved(home + [ParentDir] + [Normal(name)])
    ensures RootWalk(home + [ParentDir] + [Normal(name)]) == Above(NamesOf(home)) + [name]
    ensures !(NamesOf(home) <= Above(NamesOf(home)) + [name])
  {
    var names := NamesOf(home);
    HomeNames(home);
    assert home[1..] == Normals(names);
    BesideText(names, name);
    BesideRemainder(home, name);
    BesideWalk(home, name);
    BesideIsOutside(names, name);
  }

  lemma BesideIsOutside(names: seq<string>, name: string)
    requires names != [] && name != names[|names| - 1]
    ensures !(names <= Above(names) + [name])
  {
    assert (Above(names) + [name])[|names| - 1] == name;
  }

  lemma BesideRemainder(home: Path, name: string)
    requires CanonicalHome(home)
    ensures var t := Text(true, Normals(NamesOf(home)) + [ParentDir] + [Normal(name)]);
            NamesHome(home, t) && home + Remainder(home, t) == home + [ParentDir] + [Normal(name)]
  {
    HomeNames(home);
    var t := Text(true, Normals(NamesOf(home)) + [ParentDir] + [Normal(name)]);
    assert [RootDir] + t.body == home + [ParentDir] + [Normal(name)];
  }

  lemma BesideWalk(home: Path, name: string)
    requires CanonicalHome(home) && |home| > 1
    ensures RootWalk(home + [ParentDir] + [Normal(name)]) == Above(NamesOf(home)) + [name]
  {
    HomeWalk(home);
    var up := home + [ParentDir];
    assert up[..|up| - 1] == home;
    assert (up + [Normal(name)])[..|up|] == up;
  }

  lemma HomeFront(home: Path)
    requires CanonicalHome(home) && |home| > 1
    ensures var front := home[..|home| - 1];
            && CanonicalHome(front) && NamesOf(front) == Above(NamesOf(home))
            && NamesOf(home) == NamesOf(front) + [home[|home| - 1].name]
  {
  }

  lemma {:induction false} LocateHome(fs: Fs, home: Path)
    requires CanonicalHome(home) && fs.Valid() && fs.IsDir(NamesOf(home))
    ensures Locate(fs, home) == At(NamesOf(home))
    decreases |home|
  {
    if |home| == 1 {
      assert home == [RootDir];
    } else {
      var front, names := home[..|home| - 1], NamesOf(home);
      HomeFront(home);
      assert fs.IsDir(Above(names));
      LocateHome(fs, front);
    }
  }

  lemma LocateBeside(fs: Fs, home: Path, name: string)
    requires CanonicalHome(home) && |home| > 1 && fs.Valid() && fs.IsDir(NamesOf(home))
    ensures Locate(fs, home + [ParentDir] + [Normal(name)]) == At(Above(NamesOf(home)) + [name])
    ensures fs.IsDir(Above(NamesOf(home)))
  {
    LocateHome(fs, home);
    var up := home + [ParentDir];
    assert up[..|up| - 1] == home;
    assert (up + [Normal(name)])[..|up|] == up;
    assert Locate(fs, up) == At(Above(NamesOf(home)));
  }

  // ---- Absolute link targets ----

  lemma FromRoot(body: Path)
    requires Plain(body)
    ensures RootWalk([RootDir] + body) == CourseOf(body).names
  {
    WalkOn([RootDir], body);
    assert [RootDir][..0] == [];
    assert RootWalk([RootDir]) == [];
  }

  /** Absolute targets, which the check reads as texts of the session and the operating system as paths from
      the root: exactly which are accepted, and exactly which of all absolute targets lead at or below home. */
  lemma AbsoluteTarget(home: Path, link: Path, target: string)
    requires CanonicalHome(home) && IsAbsolute(target)
    ensures TargetVerdict(home, link, target) == Accepted <==> NamesHome(home, Read(target)) || NeverAbove(Read(target).body)
    ensures NamesOf(home) <= RootWalk(Components(target)) <==> NamesOf(home) <= CourseOf(Body(target)).names
  {
    ReadIsPlain(target);
    NormalizeSucceeds(Read(target).body);
    BodyIsRelative(target);
    FromRoot(Body(target));
  }

  /** The accepted ones lead at or below home, all of them, exactly if home is the root: under any other home
      the target that names one entry of the root is taken for an entry of home. */
  lemma AbsoluteTargetsStayExactly(home: Path, link: Path)
    requires CanonicalHome(home)
    ensures (forall target :: IsAbsolute(target) && TargetVerdict(home, link, target) == Accepted ==>
               NamesOf(home) <= RootWalk(Components(target))) <==> |home| == 1
  {
    if |home| == 1 {
      assert NamesOf(home) == [];
    } else {
      var name := if home[1].name == "a" then "b" else "a";
      RootTarget(home, link, name);
      assert IsAbsolute(Virtual(Normals([name])));
    }
  }

  lemma RootTarget(home: Path, link: Path, name: string)
    requires CanonicalHome(home) && |home| > 1 && ValidName(name) && !EndsInWhitespace(name) && name != home[1].name
    ensures var target := Virtual(Normals([name]));
            && IsAbsolute(target) && TargetVerdict(home, link, target) == Accepted
            && RootWalk(Components(target)) == [name] && !(NamesOf(home) <= [name])
  {
    RootText(name);
    RootEntry(home, link, Virtual(Normals([name])), name);
  }

  lemma RootEntry(home: Path, link: Path, target: string, name: string)
    requires CanonicalHome(home) && |home| > 1 && ValidName(name) && name != home[1].name
    requires IsAbsolute(target) && Body(target) == [Normal(name)] && Read(target) == Text(true, [Normal(name)])
    ensures TargetVerdict(home, link, target) == Accepted
    ensures RootWalk(Components(target)) == [name] && !(NamesOf(home) <= [name])
  {
    OneName(name);
    AbsoluteTarget(home, link, target);
    FromRoot([Normal(name)]);
    assert NamesOf(home)[0] == home[1].name;
  }

  lemma RootText(name: string)
    requires ValidName(name) && !EndsInWhitespace(name)
    ensures var target := Virtual(Normals([name]));
            IsAbsolute(target) && Body(target) == [Normal(name)] && Read(target) == Text(true, [Normal(name)])
  {
    BodyOfTrunk([name]);
    VirtualReadBack([name]);
    assert Normals([name]) == [Normal(name)];
    assert Normals([name][..0]) + Segment(name) == [Normal(name)];
  }

  lemma OneName(name: string)
    ensures NeverAbove([Normal(name)]) && CourseOf([Normal(name)]) == Course(0, [name])
  {
    var cs := [Normal(name)];
    assert cs[..0] == [];
    NormalizeSucceeds(cs);
  }

  lemma PlainNames(names: seq<string>)
    requires ValidNames(names)
    ensures Plain(Normals(names))
  {
  }
}
