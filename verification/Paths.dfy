/** Lexical path resolution: `resolve` of the SFTP handler (sftp/src/ops/mod.rs) and of the FTP storage
backend (ftp/src/storage.rs), REALPATH, and the check on symlink targets (sftp/src/ops/protocol.rs).

A path is the sequence of its components, which is what the source compares, strips and joins. */
module Paths {
  import opened Options

  datatype Component = RootDir | CurDir | ParentDir | Normal(name: string)

  type Path = seq<Component>

  datatype Resolution = Resolved(path: Path) | Rejected | NoRoot

  // ---- Strings and components ----

  /** The text after the last slash. */
  function Last(s: string): (l: string)
    ensures |l| <= |s| && '/' !in l
  {
    if s == "" || s[|s| - 1] == '/' then "" else Last(s[..|s| - 1]) + [s[|s| - 1]]
  }

  /** One segment between slashes; empty segments and dots vanish. */
  function Segment(seg: string): Path {
    if seg == "" || seg == "." then [] else if seg == ".." then [ParentDir] else [Normal(seg)]
  }

  /** The components of a text, apart from a leading slash or dot. */
  function Body(s: string): Path
    decreases |s|
  {
    var l := Last(s);
    if |l| == |s| then Segment(l) else Body(s[..|s| - |l| - 1]) + Segment(l)
  }

  predicate IsAbsolute(s: string) {
    s != "" && s[0] == '/'
  }

  function Components(s: string): Path {
    if IsAbsolute(s) then [RootDir] + Body(s)
    else if s == "." || "./" <= s then [CurDir] + Body(s)
    else Body(s)
  }

  lemma {:induction false} BodyAfterSlash(s: string)
    requires IsAbsolute(s)
    ensures Body(s) == Body(s[1..])
    decreases |s|
  {
    var t, l := s[1..], Last(s);
    LastAfterSlash(s);
    LastIsShort(s);
    var front := s[..|s| - |l| - 1];
    if |l| == |t| {
      assert front == "";
    } else {
      assert front[1..] == t[..|t| - |l| - 1];
      BodyAfterSlash(front);
    }
  }

  lemma {:induction false} LastIsShort(s: string)
    requires IsAbsolute(s)
    ensures |Last(s)| < |s|
    decreases |s|
  {
    if |s| > 1 {
      LastIsShort(s[..|s| - 1]);
    }
  }

  lemma {:induction false} LastAfterSlash(s: string)
    requires IsAbsolute(s)
    ensures Last(s) == Last(s[1..])
    decreases |s|
  {
    if |s| > 1 && s[|s| - 1] != '/' {
      LastAfterSlash(s[..|s| - 1]);
      assert s[..|s| - 1][1..] == s[1..][..|s| - 2];
    }
  }

  function TrimSlashes(s: string): (r: string)
    ensures !IsAbsolute(r) && Body(r) == Body(s)
  {
    if IsAbsolute(s) then
      BodyAfterSlash(s);
      TrimSlashes(s[1..])
    else s
  }

  /** Unicode White_Space. */
  predicate IsWhitespace(c: char) {
    var u := c as int;
    || 0x09 <= u <= 0x0D || u == 0x20 || u == 0x85 || u == 0xA0 || u == 0x1680
    || 0x2000 <= u <= 0x200A || u == 0x2028 || u == 0x2029 || u == 0x202F || u == 0x205F || u == 0x3000
  }

  function TrimStart(s: string): string {
    if s != "" && IsWhitespace(s[0]) then TrimStart(s[1..]) else s
  }

  function TrimEnd(s: string): string {
    if s != "" && IsWhitespace(s[|s| - 1]) then TrimEnd(s[..|s| - 1]) else s
  }

  function Trim(s: string): string {
    TrimEnd(TrimStart(s))
  }

  /** `Path::join`: an absolute text replaces the base. */
  function Join(base: Path, s: string): Path {
    if IsAbsolute(s) || base == [] then Components(s) else base + Body(s)
  }

  function StripPrefix(p: Path, prefix: Path): Option<Path> {
    if prefix <= p then Some(p[|prefix|..]) else None
  }

  /** What `strip_prefix(..).unwrap_or(..)` leaves to walk over. */
  function Relative(p: Path, prefix: Path): Path {
    if prefix <= p then p[|prefix|..] else p
  }

  function Normals(names: seq<string>): Path {
    seq(|names|, i requires 0 <= i < |names| => Normal(names[i]))
  }

  predicate ValidName(name: string) {
    name != "" && name != "." && name != ".." && '/' !in name
  }

  ghost predicate ValidNames(names: seq<string>) {
    forall n :: n in names ==> ValidName(n)
  }

  /** A canonical home: absolute, without dots.  Login canonicalises the home directory. */
  ghost predicate CanonicalHome(home: Path) {
    home != [] && home[0] == RootDir && forall i :: 1 <= i < |home| ==> home[i].Normal? && ValidName(home[i].name)
  }

  // ---- The component loop ----

  /** The stack of names after walking over components, or None once the walk leaves the top. */
  function Normalize(cs: Path): Option<seq<string>> {
    if cs == [] then Some([])
    else
      var r := Normalize(cs[..|cs| - 1]);
      if r.None? then None
      else
        match cs[|cs| - 1]
        case Normal(name) => Some(r.value + [name])
        case CurDir => r
        case ParentDir => if r.value == [] then None else Some(r.value[..|r.value| - 1])
        case RootDir => None
  }

  lemma {:induction false} FailedPrefix(cs: Path, k: nat)
    requires k <= |cs| && Normalize(cs[..k]).None?
    ensures Normalize(cs).None?
    decreases |cs|
  {
    if k < |cs| {
      assert cs[..|cs| - 1][..k] == cs[..k];
      FailedPrefix(cs[..|cs| - 1], k);
    } else {
      assert cs[..k] == cs;
    }
  }

  /** One turn of the loop. */
  lemma NormalizeStep(cs: Path, i: nat)
    requires i < |cs| && Normalize(cs[..i]).Some?
    ensures var stack := Normalize(cs[..i]).value;
            match cs[i]
            case Normal(name) => Normalize(cs[..i + 1]) == Some(stack + [name])
            case CurDir => Normalize(cs[..i + 1]) == Some(stack)
            case ParentDir =>
              if stack == [] then Normalize(cs).None? else Normalize(cs[..i + 1]) == Some(stack[..|stack| - 1])
            case RootDir => Normalize(cs).None?
  {
    assert cs[..i + 1][..i] == cs[..i];
    if Normalize(cs[..i + 1]).None? {
      FailedPrefix(cs, i + 1);
    }
  }

  /** What pushing and popping do to a path below `top`. */
  lemma StackEnds(top: Path, stack: seq<string>)
    ensures top + Normals(stack) == top <==> stack == []
    ensures stack != [] ==>
              var n := |stack| - 1;
              && (top + Normals(stack))[..|top| + n] == top + Normals(stack[..n])
              && top + Normals(stack) == top + Normals(stack[..n]) + [Normal(stack[n])]
  {
    assert |top + Normals(stack)| == |top| + |stack|;
  }

  /** The loop over a relative path that all three walks share, from `top` down. */
  function Walk(top: Path, cs: Path): Resolution {
    var r := Normalize(cs);
    if r.Some? then Resolved(top + Normals(r.value)) else Rejected
  }

  method WalkComponents(top: Path, cs: Path) returns (r: Resolution)
    ensures r == Walk(top, cs)
  {
    var normalized := top;
    ghost var stack := [];
    for i := 0 to |cs|
      invariant Normalize(cs[..i]) == Some(stack) && normalized == top + Normals(stack)
    {
      NormalizeStep(cs, i);
      StackEnds(top, stack);
      match cs[i]
      case Normal(seg) =>
        normalized := normalized + [Normal(seg)];
        stack := stack + [seg];
        StackEnds(top, stack);
      case CurDir =>
      case ParentDir =>
        if normalized == top {
          return Rejected;
        }
        normalized := normalized[..|normalized| - 1];
        stack := stack[..|stack| - 1];
      case RootDir =>
        return Rejected;
    }
    assert cs[..|cs|] == cs;
    r := Resolved(normalized);
  }

  // ---- SFTP ----

  /** A text as the SFTP resolver reads it. */
  datatype Text = Text(absolute: bool, body: Path)

  function Read(path: string): Text {
    var stripped := Trim(path);
    Text(IsAbsolute(stripped), Body(stripped))
  }

  /** The early return: an absolute text that spells out the home directory. */
  predicate NamesHome(home: Path, t: Text) {
    t.absolute && home <= [RootDir] + t.body
  }

  /** What the early return joins to home as it is. */
  function Remainder(home: Path, t: Text): Path
    requires NamesHome(home, t)
  {
    ([RootDir] + t.body)[|home|..]
  }

  function SftpPlace(home: Path, t: Text): Resolution {
    if NamesHome(home, t) then Resolved(home + Remainder(home, t)) else Walk(home, t.body)
  }

  function SftpResolve(home: Path, path: string): Resolution {
    SftpPlace(home, Read(path))
  }

  /** The relative part that the source walks over is the body of the text. */
  lemma JoinedBody(home: Path, rest: string)
    requires home != [] && !IsAbsolute(rest)
    ensures Relative(Join(home, rest), home) == Body(rest)
  {
    assert (home + Body(rest))[|home|..] == Body(rest);
  }

  /** Only the root itself is spelled out by slashes alone, and then there is nothing to walk over. */
  lemma SlashesOnly(home: Path, t: Text)
    requires home != [] && t.absolute && t.body == []
    ensures SftpPlace(home, t) == Walk(home, [])
  {
    assert home + Normals([]) == home;
    if NamesHome(home, t) {
      assert home == [RootDir];
      assert home + Remainder(home, t) == home;
    }
  }

  method ResolveSftp(home: Path, path: string) returns (r: Resolution)
    requires home != []
    ensures r == SftpResolve(home, path)
  {
    var stripped := Trim(path);
    ghost var t := Read(path);
    var base;
    if IsAbsolute(stripped) {
      var rest := TrimSlashes(stripped);
      if rest != "" {
        var within := StripPrefix(Components(stripped), home);
        if within.Some? {
          return Resolved(home + within.value);
        }
      } else {
        SlashesOnly(home, t);
      }
      JoinedBody(home, rest);
      base := Join(home, rest);
    } else {
      JoinedBody(home, stripped);
      base := Join(home, stripped);
    }
    r := WalkComponents(home, Relative(base, home));
  }

  // ---- FTP ----

  function FtpResolve(root: Option<Path>, path: string): Resolution {
    if root.None? then NoRoot else Walk(root.value, Body(path))
  }

  method ResolveFtp(root: Option<Path>, path: string) returns (r: Resolution)
    ensures r == FtpResolve(root, path)
  {
    if root.None? {
      return NoRoot;
    }
    FtpWalkedText(path);
    r := WalkComponents(root.value, Relative(Components(path), [RootDir]));
  }

  // ---- What the loop computes ----

  /** How a component changes the distance from the top. */
  function Rise(c: Component): int {
    match c
    case Normal(_) => 1
    case ParentDir => -1
    case _ => 0
  }

  function Depth(cs: Path): int {
    if cs == [] then 0 else Depth(cs[..|cs| - 1]) + Rise(cs[|cs| - 1])
  }

  /** No prefix has more parent steps than names, and nothing jumps to the root. */
  ghost predicate NeverAbove(cs: Path) {
    && RootDir !in cs
    && forall k :: 0 <= k <= |cs| ==> Depth(cs[..k]) >= 0
  }

  /** The name at `i` is entered and never left again. */
  ghost predicate Survives(cs: Path, i: nat) {
    && i < |cs| && cs[i].Normal?
    && forall j :: i < j <= |cs| ==> Depth(cs[..j]) > Depth(cs[..i])
  }

  /** Some name is entered at depth `k` and never left again. */
  ghost predicate EnteredAt(cs: Path, k: nat, name: string) {
    exists i: nat :: Survives(cs, i) && Depth(cs[..i]) == k && cs[i] == Normal(name)
  }

  lemma PrefixOfPrefix(cs: Path)
    requires cs != []
    ensures forall k :: 0 <= k < |cs| ==> cs[..|cs| - 1][..k] == cs[..k]
  {
  }

  /** The walk succeeds exactly when it never climbs above its start; its depth is then its height. */
  lemma {:induction false} NormalizeSucceeds(cs: Path)
    ensures Normalize(cs).Some? <==> NeverAbove(cs)
    ensures Normalize(cs).Some? ==> |Normalize(cs).value| == Depth(cs)
    decreases |cs|
  {
    if cs != [] {
      var front, last := cs[..|cs| - 1], cs[|cs| - 1];
      NormalizeSucceeds(front);
      PrefixOfPrefix(cs);
      assert cs == front + [last] && cs[..|cs|] == cs;
      assert NeverAbove(front) ==>
          (NeverAbove(cs) <==> last != RootDir && Depth(cs) >= 0) by {
        if NeverAbove(front) && last != RootDir && Depth(cs) >= 0 {
          forall k | 0 <= k <= |cs| ensures Depth(cs[..k]) >= 0 {
            if k < |cs| {
              assert front[..k] == cs[..k];
            }
          }
        }
      }
      if NeverAbove(cs) {
        forall k | 0 <= k <= |front| ensures Depth(front[..k]) >= 0 {
          assert front[..k] == cs[..k];
        }
        assert NeverAbove(front);
      }
    }
  }

  lemma {:induction false} NamesSurvive(cs: Path, i: nat)
    requires Normalize(cs).Some? && Survives(cs, i)
    ensures 0 <= Depth(cs[..i]) < |Normalize(cs).value|
    ensures Normalize(cs).value[Depth(cs[..i])] == cs[i].name
    decreases |cs|
  {
    var n := |cs| - 1;
    var front := cs[..n];
    PrefixOfPrefix(cs);
    assert cs[..|cs|] == cs;
    NormalizeSucceeds(cs);
    NormalizeSucceeds(front);
    assert Depth(cs[..i]) >= 0;
    if i < n {
      assert Survives(front, i) by {
        forall j | i < j <= n ensures Depth(front[..j]) > Depth(front[..i]) {
          assert front[..j] == cs[..j] && front[..i] == cs[..i];
        }
      }
      NamesSurvive(front, i);
    }
  }

  lemma {:induction false} StackIsSurvivors(cs: Path, k: nat) returns (i: nat)
    requires Normalize(cs).Some? && k < |Normalize(cs).value|
    ensures Survives(cs, i) && Depth(cs[..i]) == k
    decreases |cs|
  {
    var n := |cs| - 1;
    var front := cs[..n];
    PrefixOfPrefix(cs);
    assert cs[..|cs|] == cs;
    NormalizeSucceeds(cs);
    NormalizeSucceeds(front);
    if k < |Normalize(front).value| {
      i := StackIsSurvivors(front, k);
      forall j | i < j <= |cs| ensures Depth(cs[..j]) > Depth(cs[..i]) {
        assert front[..i] == cs[..i] && Depth(front[..n]) > Depth(front[..i]);
        if j <= n {
          assert front[..j] == cs[..j] && Depth(front[..j]) > Depth(front[..i]);
        } else {
          assert front[..n] == front;
        }
      }
    } else {
      i := n;
    }
  }

  /** What the component loop computes, without the loop: it succeeds exactly on walks that never climb
      above their start, and the name at depth k of the result is the one entered at depth k and never
      left again. */
  lemma NormalizeCharacterised(cs: Path)
    ensures Normalize(cs).Some? <==> NeverAbove(cs)
    ensures Normalize(cs).Some? ==>
              var stack := Normalize(cs).value;
              && |stack| == Depth(cs)
              && (forall i: nat :: Survives(cs, i) ==>
                    0 <= Depth(cs[..i]) < |stack| && stack[Depth(cs[..i])] == cs[i].name)
              && (forall k :: 0 <= k < |stack| ==> EnteredAt(cs, k, stack[k]))
  {
    NormalizeSucceeds(cs);
    if Normalize(cs).Some? {
      forall i: nat | Survives(cs, i)
        ensures 0 <= Depth(cs[..i]) < |Normalize(cs).value| && Normalize(cs).value[Depth(cs[..i])] == cs[i].name
      {
        NamesSurvive(cs, i);
      }
      var stack := Normalize(cs).value;
      forall k | 0 <= k < |stack|
        ensures EnteredAt(cs, k, stack[k])
      {
        var i := StackIsSurvivors(cs, k);
        NamesSurvive(cs, i);
      }
    }
  }

  /** Names are passed through as they are. */
  lemma {:induction false} NormalizeNames(names: seq<string>)
    ensures Normalize(Normals(names)) == Some(names)
    decreases |names|
  {
    if names != [] {
      var front := names[..|names| - 1];
      NormalizeNames(front);
      assert Normals(names)[..|names| - 1] == Normals(front);
      assert names == front + [names[|names| - 1]];
    }
  }

  lemma {:induction false} NormalizeKeepsNames(cs: Path)
    requires Normalize(cs).Some?
    requires forall c :: c in cs && c.Normal? ==> ValidName(c.name)
    ensures ValidNames(Normalize(cs).value)
    decreases |cs|
  {
    if cs != [] {
      NormalizeKeepsNames(cs[..|cs| - 1]);
    }
  }

  lemma {:induction false} LastOfLonger(a: string, seg: string)
    requires '/' !in seg
    ensures Last(seg) == seg && Last(a + "/" + seg) == seg
    decreases |seg|
  {
    var whole := a + "/" + seg;
    if seg != "" {
      LastOfLonger(a, seg[..|seg| - 1]);
      assert whole[..|whole| - 1] == a + "/" + seg[..|seg| - 1];
      assert seg == seg[..|seg| - 1] + [seg[|seg| - 1]];
    }
  }

  /** A segment after a slash adds its component at the end. */
  lemma BodyOfLonger(a: string, seg: string)
    requires '/' !in seg
    ensures Body(seg) == Segment(seg) && Body(a + "/" + seg) == Body(a) + Segment(seg)
  {
    LastOfLonger(a, seg);
    var whole := a + "/" + seg;
    assert whole[..|whole| - |seg| - 1] == a;
  }

  lemma {:induction false} BodyIsRelative(s: string)
    ensures forall c :: c in Body(s) ==> c.ParentDir? || (c.Normal? && ValidName(c.name))
    decreases |s|
  {
    var l := Last(s);
    if |l| < |s| {
      BodyIsRelative(s[..|s| - |l| - 1]);
    }
  }

  // ---- Where the resolvers put a path ----

  /** Components of a text, which are names and parent steps. */
  ghost predicate Plain(cs: Path) {
    forall c :: c in cs ==> c.ParentDir? || (c.Normal? && ValidName(c.name))
  }

  ghost predicate OnlyNames(cs: Path) {
    forall c :: c in cs ==> c.Normal? && ValidName(c.name)
  }

  lemma ReadIsPlain(path: string)
    ensures Plain(Read(path).body)
  {
    BodyIsRelative(Trim(path));
  }

  lemma WalkForm(home: Path, cs: Path)
    requires Plain(cs)
    ensures Walk(home, cs).Resolved? <==> NeverAbove(cs)
    ensures Walk(home, cs).Resolved? ==>
              exists names :: ValidNames(names) && Normalize(cs) == Some(names) && Walk(home, cs) == Resolved(home + Normals(names))
  {
    NormalizeSucceeds(cs);
    if Normalize(cs).Some? {
      NormalizeKeepsNames(cs);
    }
  }

  /** The normalising branch accepts exactly the texts that never climb above home, and then gives
      home followed by plain names. */
  lemma SftpResolveForm(home: Path, path: string)
    requires !NamesHome(home, Read(path))
    ensures SftpResolve(home, path).Resolved? <==> NeverAbove(Read(path).body)
    ensures SftpResolve(home, path).Resolved? ==>
              exists names :: ValidNames(names) && SftpResolve(home, path) == Resolved(home + Normals(names))
  {
    ReadIsPlain(path);
    WalkForm(home, Read(path).body);
  }

  /** Which texts take the early return: the absolute ones whose components are those of home, followed by any
      others.  They resolve to just these components. */
  lemma EarlyReturnExactly(home: Path, path: string)
    ensures NamesHome(home, Read(path)) <==>
              IsAbsolute(Trim(path)) && exists rest: Path :: Components(Trim(path)) == home + rest
    ensures NamesHome(home, Read(path)) ==> SftpResolve(home, path) == Resolved(Components(Trim(path)))
  {
    var cs := Components(Trim(path));
    if home <= cs {
      assert cs == home + cs[|home|..];
    }
  }

  ghost predicate NamesBelow(home: Path, p: Path) {
    home <= p && OnlyNames(p[|home|..])
  }

  /** Which results are home followed by plain names: all but those of the early return with a parent
      step in the remainder, which is joined as it is. */
  lemma SftpResolvePlain(home: Path, path: string)
    requires home != [] && SftpResolve(home, path).Resolved?
    ensures NamesBelow(home, SftpResolve(home, path).path) <==>
            (NamesHome(home, Read(path)) ==> ParentDir !in Remainder(home, Read(path)))
  {
    var t := Read(path);
    ReadIsPlain(path);
    if NamesHome(home, t) {
      RemainderIsPlain(home, t);
      NamesBelowTail(home, Remainder(home, t));
    } else {
      WalkForm(home, t.body);
      NamesBelowTail(home, Normals(Normalize(t.body).value));
    }
  }

  lemma NamesBelowTail(home: Path, rest: Path)
    ensures NamesBelow(home, home + rest) <==> OnlyNames(rest)
  {
    assert (home + rest)[|home|..] == rest;
  }

  lemma RemainderIsPlain(home: Path, t: Text)
    requires home != [] && NamesHome(home, t) && Plain(t.body)
    ensures |home| - 1 <= |t.body| && Remainder(home, t) == t.body[|home| - 1..]
    ensures Plain(Remainder(home, t))
  {
    assert ([RootDir] + t.body)[|home|..] == t.body[|home| - 1..];
  }

  lemma FtpWalkedText(path: string)
    ensures Normalize(Relative(Components(path), [RootDir])) == Normalize(Body(path))
  {
    var cs := Components(path);
    BodyIsRelative(path);
    if IsAbsolute(path) {
      assert cs[1..] == Body(path);
    } else {
      assert !([RootDir] <= cs) by {
        assert cs == Body(path) && cs != [] ==> cs[0] in Body(path);
        assert cs != [] ==> cs[0] != RootDir;
      }
      if cs != Body(path) {
        CurDirVanishes(Body(path));
      }
    }
  }

  lemma {:induction false} CurDirVanishes(cs: Path)
    ensures Normalize([CurDir] + cs) == Normalize(cs)
    decreases |cs|
  {
    var all := [CurDir] + cs;
    if cs == [] {
      assert all[..0] == [];
    } else {
      CurDirVanishes(cs[..|cs| - 1]);
      assert all[..|all| - 1] == [CurDir] + cs[..|cs| - 1];
    }
  }

  /** The two resolvers agree on a text without outer whitespace exactly when SFTP does not take its
      early return, or takes it with the root as home and no parent step in the text. */
  lemma ResolversAgree(home: Path, path: string)
    requires CanonicalHome(home) && Trim(path) == path
    ensures FtpResolve(Some(home), path) == SftpResolve(home, path) <==>
            (NamesHome(home, Read(path)) ==> |home| == 1 && ParentDir !in Remainder(home, Read(path)))
  {
    ReadIsPlain(path);
    var t := Read(path);
    if NamesHome(home, t) {
      PlacesAgree(home, t);
    }
  }

  lemma PlacesAgree(home: Path, t: Text)
    requires CanonicalHome(home) && Plain(t.body) && NamesHome(home, t)
    ensures Walk(home, t.body) == SftpPlace(home, t) <==> |home| == 1 && ParentDir !in Remainder(home, t)
  {
    var cs, rest := t.body, Remainder(home, t);
    RemainderIsPlain(home, t);
    if Walk(home, cs) == Resolved(home + rest) {
      var stack := Normalize(cs).value;
      SamePath(home, Normals(stack), rest);
      PlainSuffix(home, cs, stack);
      assert ParentDir !in Normals(stack);
    }
    if |home| == 1 && ParentDir !in rest {
      NormalizePlain(cs);
    }
  }

  lemma SamePath<T>(top: seq<T>, a: seq<T>, b: seq<T>)
    ensures top + a == top + b <==> a == b
  {
    assert (top + a)[|top|..] == a && (top + b)[|top|..] == b;
  }

  lemma NormalizePlain(cs: Path)
    requires forall c :: c in cs ==> c.Normal?
    ensures Normalize(cs).Some? && Normals(Normalize(cs).value) == cs
  {
    var names := seq(|cs|, i requires 0 <= i < |cs| => if cs[i].Normal? then cs[i].name else "");
    assert Normals(names) == cs by {
      forall i | 0 <= i < |cs| ensures Normals(names)[i] == cs[i] {
        assert cs[i] in cs;
      }
    }
    NormalizeNames(names);
  }

  /** If walking over home's own names and then `stack` gave `stack` again, home has no names. */
  lemma PlainSuffix(home: Path, cs: Path, stack: seq<string>)
    requires CanonicalHome(home) && home <= [RootDir] + cs && cs[|home| - 1..] == Normals(stack)
    requires Normalize(cs) == Some(stack)
    ensures |home| == 1
  {
    var homeNames := seq(|home| - 1, i requires 0 <= i < |home| - 1 => home[i + 1].name);
    assert cs == Normals(homeNames + stack) by {
      forall i | 0 <= i < |cs| ensures cs[i] == Normals(homeNames + stack)[i] {
        assert ([RootDir] + cs)[i + 1] == cs[i];
        if i < |home| - 1 {
          assert cs[i] == home[i + 1];
        } else {
          assert cs[i] == Normals(stack)[i - (|home| - 1)];
        }
      }
    }
    NormalizeNames(homeNames + stack);
  }

  // ---- REALPATH ----

  function Spelling(c: Component): string {
    match c
    case RootDir => "/"
    case CurDir => "."
    case ParentDir => ".."
    case Normal(name) => name
  }

  /** The texts of all components, each followed by a slash. */
  function Slashed(p: Path): string {
    if p == [] then "" else Slashed(p[..|p| - 1]) + Spelling(p[|p| - 1]) + "/"
  }

  /** A relative path as a client sees it. */
  function Virtual(rel: Path): string {
    if rel == [] then "/" else "/" + Slashed(rel[..|rel| - 1]) + Spelling(rel[|rel| - 1])
  }

  /** The segments of a text between its slashes, empty ones included. */
  function Split(s: string): seq<string>
    decreases |s|
  {
    var l := Last(s);
    if |l| == |s| then [l] else Split(s[..|s| - |l| - 1]) + [l]
  }

  function JoinSlash(segs: seq<string>): string {
    if segs == [] then ""
    else if |segs| == 1 then segs[0]
    else JoinSlash(segs[..|segs| - 1]) + "/" + segs[|segs| - 1]
  }

  /** The segments from component `k` on; empty segments and dots before it go, too. */
  function After(segs: seq<string>, k: nat): seq<string> {
    if segs == [] then []
    else if Segment(segs[0]) == [] then After(segs[1..], k)
    else if k == 0 then segs
    else After(segs[1..], k - 1)
  }

  /** Without the empty segments and dots at the end. */
  function UpToLast(segs: seq<string>): seq<string> {
    if segs == [] || Segment(segs[|segs| - 1]) != [] then segs else UpToLast(segs[..|segs| - 1])
  }

  /** What `strip_prefix` leaves of a text whose first `k` components are the prefix, as it is spelled. */
  function Spelled(s: string, k: nat): string {
    JoinSlash(UpToLast(After(Split(s), k)))
  }

  /** REALPATH: the resolved path as seen from home.  A path the component loop has built is printed by its
      names; the remainder of a text that spells out home is printed as it is spelled. */
  function Realpath(home: Path, path: string): Option<string>
    requires home != []
  {
    if NamesHome(home, Read(path)) then Some("/" + Spelled(Trim(path), |home| - 1))
    else
      var r := Normalize(Read(path).body);
      if r.Some? then Some(Virtual(Normals(r.value))) else None
  }

  lemma LastName(names: seq<string>)
    requires names != []
    ensures var front, last := names[..|names| - 1], names[|names| - 1];
            && Normals(names) == Normals(front) + [Normal(last)]
            && Normals(names)[..|names| - 1] == Normals(front)
            && Slashed(Normals(names)) == Slashed(Normals(front)) + last + "/"
            && Virtual(Normals(names)) == "/" + Slashed(Normals(front)) + last
  {
    var front := names[..|names| - 1];
    assert Normals(names)[..|names| - 1] == Normals(front);
  }

  lemma {:induction false} BodyOfSlashed(names: seq<string>, seg: string)
    requires ValidNames(names) && '/' !in seg
    ensures Body(Slashed(Normals(names)) + seg) == Normals(names) + Segment(seg)
    decreases |names|
  {
    if names == [] {
      BodyOfLonger("", seg);
      assert Slashed(Normals(names)) + seg == seg && Normals(names) + Segment(seg) == Segment(seg);
    } else {
      var front, last := names[..|names| - 1], names[|names| - 1];
      assert ValidName(last);
      LastName(names);
      BodyOfSlashed(front, last);
      BodyOfLonger(Slashed(Normals(front)) + last, seg);
    }
  }

  /** Trimming the end only touches the last segment. */
  lemma {:induction false} TrimEndOfLonger(s: string, seg: string)
    requires s != "" && !IsWhitespace(s[|s| - 1])
    ensures TrimEnd(s + seg) == s + TrimEnd(seg)
    decreases |seg|
  {
    if seg == "" {
      assert s + seg == s;
    } else {
      var whole := s + seg;
      assert whole[..|whole| - 1] == s + seg[..|seg| - 1];
      if IsWhitespace(seg[|seg| - 1]) {
        TrimEndOfLonger(s, seg[..|seg| - 1]);
      }
    }
  }

  lemma {:induction false} TrimEndPart(s: string)
    ensures TrimEnd(s) <= s
  {
    if s != "" && IsWhitespace(s[|s| - 1]) {
      TrimEndPart(s[..|s| - 1]);
    }
  }

  lemma {:induction false} TrimStartSplit(s: string) returns (lead: string)
    ensures s == lead + TrimStart(s) && forall c :: c in lead ==> IsWhitespace(c)
    ensures TrimStart(s) != "" ==> !IsWhitespace(TrimStart(s)[0])
  {
    lead := "";
    if s != "" && IsWhitespace(s[0]) {
      lead := TrimStartSplit(s[1..]);
      lead := [s[0]] + lead;
      assert s == [s[0]] + s[1..];
    }
  }

  lemma {:induction false} TrimEndSplit(s: string) returns (tail: string)
    ensures s == TrimEnd(s) + tail && forall c :: c in tail ==> IsWhitespace(c)
    ensures TrimEnd(s) != "" ==> !IsWhitespace(TrimEnd(s)[|TrimEnd(s)| - 1])
  {
    tail := "";
    if s != "" && IsWhitespace(s[|s| - 1]) {
      var front := s[..|s| - 1];
      tail := TrimEndSplit(front);
      tail := tail + [s[|s| - 1]];
      assert s == front + [s[|s| - 1]];
    }
  }

  /** Trimming takes off the white space at both ends, all of it and nothing else. */
  lemma TrimExactly(s: string) returns (lead: string, tail: string)
    ensures s == lead + Trim(s) + tail && forall c :: c in lead + tail ==> IsWhitespace(c)
    ensures Trim(s) != "" ==> !IsWhitespace(Trim(s)[0]) && !IsWhitespace(Trim(s)[|Trim(s)| - 1])
  {
    lead := TrimStartSplit(s);
    tail := TrimEndSplit(TrimStart(s));
    assert Trim(s) != "" ==> Trim(s)[0] == TrimStart(s)[0];
  }

  lemma TrimLast(lead: string, last: string)
    requires IsAbsolute(lead) && lead[|lead| - 1] == '/'
    ensures Trim(lead + last) == lead + TrimEnd(last)
  {
    assert !IsWhitespace('/');
    TrimEndOfLonger(lead, last);
    assert (lead + last)[0] == '/';
  }

  lemma TrimmedName(name: string)
    requires '/' !in name
    ensures '/' !in TrimEnd(name)
  {
    TrimEndPart(name);
    assert forall i :: 0 <= i < |TrimEnd(name)| ==> TrimEnd(name)[i] == name[i];
  }

  /** How a text reads back whose last segment follows a slash. */
  lemma ReadBack(trunk: string, l: string)
    requires (trunk == "" || IsAbsolute(trunk)) && '/' !in l
    ensures Read(trunk + "/" + l) == Text(true, Body(trunk) + Segment(TrimEnd(l)))
    ensures TrimEnd(l) == l ==> Trim(trunk + "/" + l) == trunk + "/" + l
  {
    TrimLast(trunk + "/", l);
    TrimmedName(l);
    BodyOfLonger(trunk, TrimEnd(l));
  }

  /** What comes before the last name of a printed path. */
  function Trunk(front: seq<string>): string {
    if front == [] then "" else Virtual(Normals(front))
  }

  lemma VirtualSplit(names: seq<string>)
    requires names != []
    ensures Virtual(Normals(names)) == Trunk(names[..|names| - 1]) + "/" + names[|names| - 1]
  {
    var front := names[..|names| - 1];
    LastName(names);
    if front != [] {
      LastName(front);
    }
  }

  lemma {:induction false} BodyOfTrunk(front: seq<string>)
    requires ValidNames(front)
    ensures Body(Trunk(front)) == Normals(front) && (Trunk(front) == "" || IsAbsolute(Trunk(front)))
    decreases |front|
  {
    if front != [] {
      var last := front[|front| - 1];
      assert last in front && ValidName(last);
      BodyOfTrunk(front[..|front| - 1]);
      VirtualSplit(front);
      BodyOfLonger(Trunk(front[..|front| - 1]), last);
      LastName(front);
    }
  }

  /** How the printed form of a path below home reads back. */
  lemma VirtualReadBack(stack: seq<string>)
    requires ValidNames(stack) && stack != []
    ensures var n := |stack| - 1;
            var t := Trim(Virtual(Normals(stack)));
            && Read(Virtual(Normals(stack))) == Text(true, Normals(stack[..n]) + Segment(TrimEnd(stack[n])))
            && (TrimEnd(stack[n]) == stack[n] ==> t == Virtual(Normals(stack)))
  {
    var n := |stack| - 1;
    BodyOfTrunk(stack[..n]);
    VirtualSplit(stack);
    assert stack[n] in stack && ValidName(stack[n]);
    ReadBack(Trunk(stack[..n]), stack[n]);
  }

  predicate EndsInWhitespace(name: string) {
    name != "" && IsWhitespace(name[|name| - 1])
  }

  /** The names whose printed path reads back as the same location. */
  predicate ReadsBack(home: Path, names: seq<string>) {
    names != [] ==>
      && !EndsInWhitespace(names[|names| - 1])
      && (home <= [RootDir] + Normals(names) ==> |home| == 1)
  }

  /** A text that reads as some names with the last one trimmed resolves to the location of those names
      exactly when they read back. */
  lemma ShownRoundTrip(home: Path, names: seq<string>, shown: string)
    requires CanonicalHome(home) && ValidNames(names) && names != []
    requires Read(shown) == Text(true, Normals(names[..|names| - 1]) + Segment(TrimEnd(names[|names| - 1])))
    ensures SftpResolve(home, shown) == Resolved(home + Normals(names)) <==> ReadsBack(home, names)
  {
    var n := |names| - 1;
    assert names[n] in names && ValidName(names[n]);
    TrimEndPart(names[n]);
    if EndsInWhitespace(names[n]) {
      TrimEndPart(names[n][..|names[n]| - 1]);
      TrimmedElsewhere(home, names, TrimEnd(names[n]));
    } else {
      LastName(names);
      UntrimmedPlace(home, names);
    }
  }

  lemma RootRoundTrip(home: Path)
    requires CanonicalHome(home)
    ensures SftpResolve(home, "/") == Resolved(home) && Trim("/") == "/" && Read("/") == Text(true, [])
  {
    assert Trim("/") == "/" by {
      assert !IsWhitespace('/');
    }
    BodyAfterSlash("/");
    SlashesOnly(home, Read("/"));
    assert home + Normals([]) == home;
  }

  /** A printed path below home resolves to the same location exactly when its last name has no
      trailing whitespace and its names do not begin with home's own. */
  lemma VirtualRoundTrip(home: Path, names: seq<string>)
    requires CanonicalHome(home) && ValidNames(names)
    ensures SftpResolve(home, Virtual(Normals(names))) == Resolved(home + Normals(names)) <==> ReadsBack(home, names)
  {
    if names == [] {
      RootRoundTrip(home);
      assert home + Normals([]) == home;
    } else {
      VirtualReadBack(names);
      ShownRoundTrip(home, names, Virtual(Normals(names)));
    }
  }

  lemma UntrimmedPlace(home: Path, names: seq<string>)
    requires CanonicalHome(home) && names != []
    ensures SftpPlace(home, Text(true, Normals(names))) == Resolved(home + Normals(names))
        <==> (home <= [RootDir] + Normals(names) ==> |home| == 1)
  {
    var t := Text(true, Normals(names));
    NormalizeNames(names);
    if NamesHome(home, t) {
      var rest := Remainder(home, t);
      SamePath(home, rest, Normals(names));
      if |home| == 1 {
        assert rest == Normals(names);
      }
    }
  }

  /** With its last name trimmed, a path is placed somewhere else. */
  lemma TrimmedElsewhere(home: Path, names: seq<string>, trimmed: string)
    requires CanonicalHome(home) && names != [] && trimmed != names[|names| - 1]
    ensures SftpPlace(home, Text(true, Normals(names[..|names| - 1]) + Segment(trimmed))) != Resolved(home + Normals(names))
  {
    var body := Normals(names[..|names| - 1]) + Segment(trimmed);
    var t := Text(true, body);
    if NamesHome(home, t) {
      SamePath(home, Remainder(home, t), Normals(names));
      TrimmedRemainder(home, names, trimmed, body);
    } else {
      TrimmedStack(names, trimmed, body);
      if Normalize(body).Some? {
        SamePath(home, Normals(Normalize(body).value), Normals(names));
      }
    }
  }

  lemma TrimmedRemainder(home: Path, names: seq<string>, trimmed: string, body: Path)
    requires CanonicalHome(home) && names != [] && trimmed != names[|names| - 1]
    requires body == Normals(names[..|names| - 1]) + Segment(trimmed) && NamesHome(home, Text(true, body))
    ensures Remainder(home, Text(true, body)) != Normals(names)
  {
    var n := |names| - 1;
    assert Normals(names)[n] == Normal(names[n]);
    assert |home| == 1 ==> Remainder(home, Text(true, body)) == body;
  }

  lemma TrimmedStack(names: seq<string>, trimmed: string, body: Path)
    requires names != [] && trimmed != names[|names| - 1]
    requires body == Normals(names[..|names| - 1]) + Segment(trimmed)
    ensures Normalize(body).Some? ==> Normals(Normalize(body).value) != Normals(names)
  {
    var n := |names| - 1;
    var front := names[..n];
    NormalizeNames(front);
    assert body[..n] == Normals(front);
    if Segment(trimmed) == [] {
      assert body == Normals(front);
    } else {
      assert body[..n + 1] == body;
      NormalizeStep(body, n);
    }
    if Normalize(body).Some? {
      var stack := Normalize(body).value;
      assert |stack| == n + 1 ==> Normals(stack)[n] != Normals(names)[n];
    }
  }

  ghost predicate SlashFree(segs: seq<string>) {
    forall seg :: seg in segs ==> '/' !in seg
  }

  function BodyOfSegments(segs: seq<string>): Path {
    if segs == [] then [] else Segment(segs[0]) + BodyOfSegments(segs[1..])
  }

  lemma {:induction false} BodyOfAppend(segs: seq<string>, l: string)
    ensures BodyOfSegments(segs + [l]) == BodyOfSegments(segs) + Segment(l)
    decreases |segs|
  {
    var more := segs + [l];
    if segs == [] {
      assert more == [l] && [l][1..] == [];
    } else {
      BodyOfAppend(segs[1..], l);
      assert more[1..] == segs[1..] + [l];
    }
  }

  lemma {:induction false} BodyBySegments(s: string)
    ensures Body(s) == BodyOfSegments(Split(s))
    decreases |s|
  {
    var l := Last(s);
    if |l| == |s| {
      OneBody(l);
    } else {
      var front := s[..|s| - |l| - 1];
      BodyBySegments(front);
      BodyOfAppend(Split(front), l);
      assert Split(s) == Split(front) + [l] && Body(s) == Body(front) + Segment(l);
    }
  }

  lemma OneBody(l: string)
    ensures BodyOfSegments([l]) == Segment(l)
  {
    assert [l][1..] == [];
  }

  lemma {:induction false} SplitSlashFree(s: string)
    ensures SlashFree(Split(s))
    decreases |s|
  {
    var l := Last(s);
    if |l| < |s| {
      SplitSlashFree(s[..|s| - |l| - 1]);
    }
  }

  lemma SplitOne(l: string)
    requires '/' !in l
    ensures Split(l) == [l]
  {
    LastOfLonger("", l);
  }

  lemma SplitLonger(a: string, l: string)
    requires '/' !in l
    ensures Split(a + "/" + l) == Split(a) + [l]
  {
    LastOfLonger(a, l);
    var s := a + "/" + l;
    assert s[..|s| - |l| - 1] == a;
  }

  lemma {:induction false} SplitJoined(segs: seq<string>)
    requires segs != [] && SlashFree(segs)
    ensures Split(JoinSlash(segs)) == segs
    decreases |segs|
  {
    var front, l := segs[..|segs| - 1], segs[|segs| - 1];
    assert l in segs;
    if |segs| == 1 {
      SplitOne(l);
    } else {
      SplitJoined(front);
      SplitLonger(JoinSlash(front), l);
    }
  }

  lemma JoinMore(front: seq<string>, l: string)
    requires front != []
    ensures JoinSlash(front + [l]) == JoinSlash(front) + "/" + l
  {
    assert (front + [l])[..|front|] == front;
  }

  lemma {:induction false} JoinAfterSlash(segs: seq<string>)
    requires segs != []
    ensures "/" + JoinSlash(segs) == JoinSlash([""] + segs)
    decreases |segs|
  {
    var front, l := segs[..|segs| - 1], segs[|segs| - 1];
    assert segs == front + [l];
    if front == [] {
      JoinMore([""], l);
      assert JoinSlash([""]) + "/" == "/";
    } else {
      JoinAfterSlash(front);
      JoinMore(front, l);
      JoinMore([""] + front, l);
      assert [""] + segs == [""] + front + [l];
      Associate("/", JoinSlash(front), "/" + l);
      Associate(JoinSlash(front), "/", l);
      Associate(JoinSlash([""] + front), "/", l);
    }
  }

  lemma {:induction false} BodyOfAfter(segs: seq<string>, k: nat)
    requires k <= |BodyOfSegments(segs)|
    ensures BodyOfSegments(After(segs, k)) == BodyOfSegments(segs)[k..]
    decreases |segs|
  {
    if segs != [] {
      var one, rest := Segment(segs[0]), BodyOfSegments(segs[1..]);
      assert BodyOfSegments(segs) == one + rest;
      if one == [] {
        assert one + rest == rest;
        BodyOfAfter(segs[1..], k);
      } else if k > 0 {
        BodyOfAfter(segs[1..], k - 1);
        DropOne(one, rest, k);
      } else {
        assert BodyOfSegments(segs)[0..] == BodyOfSegments(segs);
      }
    }
  }

  lemma {:induction false} AfterStarts(segs: seq<string>, k: nat)
    requires SlashFree(segs)
    ensures SlashFree(After(segs, k)) && (After(segs, k) == [] || Segment(After(segs, k)[0]) != [])
    decreases |segs|
  {
    if segs != [] {
      if Segment(segs[0]) == [] {
        AfterStarts(segs[1..], k);
      } else if k > 0 {
        AfterStarts(segs[1..], k - 1);
      }
    }
  }

  lemma DropOne(one: Path, rest: Path, k: nat)
    requires |one| == 1 && 0 < k <= 1 + |rest|
    ensures (one + rest)[k..] == rest[k - 1..]
  {
  }

  /** What ends in nothing has the components of what comes before. */
  lemma BodyWithoutLast(segs: seq<string>)
    requires segs != [] && Segment(segs[|segs| - 1]) == []
    ensures BodyOfSegments(segs) == BodyOfSegments(segs[..|segs| - 1])
  {
    var front, l := segs[..|segs| - 1], segs[|segs| - 1];
    BodyOfAppend(front, l);
    assert segs == front + [l];
    assert BodyOfSegments(front) + [] == BodyOfSegments(front);
  }

  lemma {:induction false} BodyOfUpToLast(segs: seq<string>)
    ensures BodyOfSegments(UpToLast(segs)) == BodyOfSegments(segs)
    ensures UpToLast(segs) == [] || Segment(UpToLast(segs)[|UpToLast(segs)| - 1]) != []
    decreases |segs|
  {
    if segs != [] && Segment(segs[|segs| - 1]) == [] {
      BodyOfUpToLast(segs[..|segs| - 1]);
      BodyWithoutLast(segs);
    }
  }

  lemma {:induction false} UpToLastIsPrefix(segs: seq<string>)
    ensures UpToLast(segs) <= segs
    decreases |segs|
  {
    if segs != [] && Segment(segs[|segs| - 1]) == [] {
      UpToLastIsPrefix(segs[..|segs| - 1]);
    }
  }

  /** What is printed of a remainder: segments that begin and end with a component. */
  ghost predicate Tight(segs: seq<string>) {
    SlashFree(segs) && (segs != [] ==> Segment(segs[0]) != [] && Segment(segs[|segs| - 1]) != [])
  }

  lemma SpelledIsTight(s: string, k: nat) returns (segs: seq<string>)
    requires k <= |Body(s)|
    ensures segs == UpToLast(After(Split(s), k))
    ensures Tight(segs) && BodyOfSegments(segs) == Body(s)[k..] && Spelled(s, k) == JoinSlash(segs)
  {
    segs := UpToLast(After(Split(s), k));
    BodyBySegments(s);
    SplitSlashFree(s);
    BodyOfAfter(Split(s), k);
    AfterStarts(Split(s), k);
    BodyOfUpToLast(After(Split(s), k));
    UpToLastIsPrefix(After(Split(s), k));
  }

  /** Spelling it again changes nothing. */
  lemma TightAgain(segs: seq<string>)
    requires Tight(segs) && segs != []
    ensures Spelled("/" + JoinSlash(segs), 0) == JoinSlash(segs)
  {
    JoinAfterSlash(segs);
    SplitJoined([""] + segs);
    assert ([""] + segs)[1..] == segs;
    assert After([""] + segs, 0) == After(segs, 0);
  }

  /** The printed remainder ends in the last component of the path. */
  lemma TightForm(segs: seq<string>, rest: Path) returns (trunk: string)
    requires Tight(segs) && BodyOfSegments(segs) == rest
    ensures rest == [] ==> segs == []
    ensures rest != [] ==>
              var n := |rest| - 1;
              var l := Spelling(rest[n]);
              && "/" + JoinSlash(segs) == trunk + "/" + l && Segment(l) == [rest[n]] && '/' !in l
              && (trunk == "" || IsAbsolute(trunk)) && Body(trunk) == rest[..n]
  {
    trunk := "";
    if segs != [] {
      var front, l := segs[..|segs| - 1], segs[|segs| - 1];
      assert segs == front + [l];
      BodyOfAppend(front, l);
      assert rest == BodyOfSegments(front) + Segment(l);
      trunk := TrunkOf(front);
      JoinLast(trunk, front, l);
    }
  }

  lemma TrunkOf(front: seq<string>) returns (trunk: string)
    requires SlashFree(front)
    ensures trunk == if front == [] then "" else "/" + JoinSlash(front)
    ensures (trunk == "" || IsAbsolute(trunk)) && Body(trunk) == BodyOfSegments(front)
  {
    trunk := if front == [] then "" else "/" + JoinSlash(front);
    if front == [] {
      assert Last("") == "";
    } else {
      SplitJoined(front);
      BodyBySegments(JoinSlash(front));
      AbsoluteBody(JoinSlash(front));
    }
  }

  lemma JoinLast(trunk: string, front: seq<string>, l: string)
    requires trunk == if front == [] then "" else "/" + JoinSlash(front)
    ensures "/" + JoinSlash(front + [l]) == trunk + "/" + l
  {
    var segs := front + [l];
    if front == [] {
      assert segs == [l];
    } else {
      assert segs[..|segs| - 1] == front;
      Associate("/", JoinSlash(front), "/" + l);
      Associate(JoinSlash(front), "/", l);
      Associate(trunk, "/", l);
    }
  }

  lemma Associate(a: string, b: string, c: string)
    ensures a + (b + c) == a + b + c
  {
  }

  lemma AbsoluteBody(front: string)
    ensures Body("/" + front) == Body(front) && IsAbsolute("/" + front)
  {
    assert ("/" + front)[1..] == front;
    BodyAfterSlash("/" + front);
  }

  lemma SameNames(a: seq<string>, b: seq<string>)
    requires Normals(a) == Normals(b)
    ensures a == b
  {
    assert |Normals(a)| == |a| && |Normals(b)| == |b|;
    forall i | 0 <= i < |a|
      ensures a[i] == b[i]
    {
      assert Normals(a)[i] == Normals(b)[i];
    }
  }

  /** The plain spelling is what is left of itself. */
  lemma VirtualSpelled(names: seq<string>)
    requires ValidNames(names) && names != []
    ensures "/" + Spelled(Virtual(Normals(names)), 0) == Virtual(Normals(names))
  {
    assert names[0] in names && names[|names| - 1] in names;
    VirtualJoins(names);
    TightAgain(names);
  }

  lemma {:induction false} VirtualJoins(names: seq<string>)
    requires names != []
    ensures Virtual(Normals(names)) == "/" + JoinSlash(names)
    decreases |names|
  {
    var front, last := names[..|names| - 1], names[|names| - 1];
    if front != [] {
      VirtualJoins(front);
    }
    VirtualSplit(names);
    JoinLast(Trunk(front), front, last);
    assert front + [last] == names;
  }

  /** A text on which the resolvers differ: SFTP takes a real path below home as such, FTP as a path
      inside home. */
  lemma ResolversDiffer(name: string)
    requires ValidName(name) && !EndsInWhitespace(name)
    ensures var home, path := [RootDir, Normal("h")], Virtual(Normals(["h", name]));
            && Trim(path) == path
            && SftpResolve(home, path) == Resolved(home + [Normal(name)])
            && FtpResolve(Some(home), path) == Resolved(home + [Normal("h"), Normal(name)])
  {
    var home, names := [RootDir, Normal("h")], ["h", name];
    var body := [Normal("h"), Normal(name)];
    VirtualReadBack(names);
    assert Normals(names[..1]) + Segment(name) == body;
    assert NamesHome(home, Text(true, body)) && Remainder(home, Text(true, body)) == [Normal(name)];
    NormalizePlain(body);
  }

  // ---- Symlink targets ----

  datatype Verdict = Accepted | Missing | Denied

  function Parent(p: Path): Option<Path> {
    if p == [] || p[|p| - 1] == RootDir then None else Some(p[..|p| - 1])
  }

  /** The check on a link's target: an absolute target must resolve, a relative one must not climb
      above home when walked from the directory of the link. */
  function TargetVerdict(home: Path, link: Path, target: string): Verdict {
    if !IsAbsolute(target) then RelativeVerdict(home, link, Body(target))
    else if SftpResolve(home, target).Resolved? then Accepted
    else Missing
  }

  function RelativeVerdict(home: Path, link: Path, cs: Path): Verdict {
    var dir := if Parent(link).Some? then Parent(link).value else home;
    if Walk(home, Relative(dir + cs, home)).Resolved? then Accepted else Denied
  }

  method CheckTarget(home: Path, link: Path, target: string) returns (v: Verdict)
    requires CanonicalHome(home) && home <= link
    ensures v == TargetVerdict(home, link, target)
  {
    if IsAbsolute(target) {
      var r := ResolveSftp(home, target);
      return if r.Resolved? then Accepted else Missing;
    }
    var parent := Parent(link);
    var joined := Join(if parent.Some? then parent.value else home, target);
    var r := WalkComponents(home, Relative(joined, home));
    return if r.Resolved? then Accepted else Denied;
  }

  lemma {:induction false} DepthFromNames(names: seq<string>, cs: Path, k: nat)
    requires k <= |names| + |cs|
    ensures Depth((Normals(names) + cs)[..k]) == if k <= |names| then k else |names| + Depth(cs[..k - |names|])
    decreases k
  {
    var whole := Normals(names) + cs;
    if k > 0 {
      DepthFromNames(names, cs, k - 1);
      assert whole[..k][..k - 1] == whole[..k - 1];
      if k > |names| {
        var j := k - |names|;
        assert cs[..j][..j - 1] == cs[..j - 1];
      }
    }
  }

  /** A relative target of a link that lies at `names` below home is accepted exactly when every
      lexical step of walking it from the link's directory stays at or below home. */
  lemma RelativeTargetStaysBelow(home: Path, names: seq<string>, target: string)
    requires home != [] && names != [] && !IsAbsolute(target)
    ensures var cs := Body(target);
            TargetVerdict(home, home + Normals(names), target) ==
              if forall k :: 0 <= k <= |cs| ==> |names| - 1 + Depth(cs[..k]) >= 0 then Accepted else Denied
  {
    var cs, front := Body(target), names[..|names| - 1];
    TargetWalk(home, names, cs);
    BodyIsRelative(target);
    NormalizeFromNames(front, cs);
  }

  lemma TargetWalk(home: Path, names: seq<string>, cs: Path)
    requires home != [] && names != []
    ensures RelativeVerdict(home, home + Normals(names), cs) ==
              if Normalize(Normals(names[..|names| - 1]) + cs).Some? then Accepted else Denied
  {
    var front := names[..|names| - 1];
    ParentOfNames(home, names);
    RelativeJoin(home, Normals(front), cs);
  }

  lemma ParentOfNames(home: Path, names: seq<string>)
    requires names != []
    ensures Parent(home + Normals(names)) == Some(home + Normals(names[..|names| - 1]))
  {
    var link := home + Normals(names);
    assert link[|link| - 1] == Normals(names)[|names| - 1];
    assert link[..|link| - 1] == home + Normals(names[..|names| - 1]);
  }

  lemma RelativeJoin(home: Path, dir: Path, cs: Path)
    ensures Relative(home + dir + cs, home) == dir + cs
  {
    assert home + dir + cs == home + (dir + cs);
    assert (home + (dir + cs))[|home|..] == dir + cs;
  }

  /** A walk that starts |front| names down may climb up to |front| steps. */
  lemma NormalizeFromNames(front: seq<string>, cs: Path)
    requires RootDir !in cs
    ensures Normalize(Normals(front) + cs).Some? <==> forall k :: 0 <= k <= |cs| ==> |front| + Depth(cs[..k]) >= 0
  {
    var walked := Normals(front) + cs;
    NormalizeSucceeds(walked);
    if forall k :: 0 <= k <= |cs| ==> |front| + Depth(cs[..k]) >= 0 {
      forall k | 0 <= k <= |walked|
        ensures Depth(walked[..k]) >= 0
      {
        DepthFromNames(front, cs, k);
      }
    }
    if NeverAbove(walked) {
      forall k | 0 <= k <= |cs|
        ensures |front| + Depth(cs[..k]) >= 0
      {
        DepthFromNames(front, cs, |front| + k);
        assert Depth(walked[..|front| + k]) >= 0;
        assert Depth(cs[..0]) == 0;
      }
    }
  }
}
