// Routing a walked file to its catalogers.
module Dispatch {
  // An index buckets matchers by the exact name or extension their patterns require, so that only
  // those that could accept the file are asked.

  import opened Basics
  import opened Globs

  datatype Entry = Entry(path: string, sniff: seq<nat>)

  datatype Matcher = Matcher(glob: Option<string>, basename: Option<string>, magic: Option<seq<nat>>)

  datatype Cataloger = Cataloger(id: string, matchers: seq<Matcher>)

  // ---- paths --------------------------------------------------------------------------

  /** `p.rsplit("/", 1)[-1]`. */
  function LastSegment(p: string): string {
    if p == "" || p[|p| - 1] == '/' then "" else LastSegment(p[..|p| - 1]) + [p[|p| - 1]]
  }

  /** Everything up to and including the last slash. */
  function Head(p: string): string {
    if p == "" || p[|p| - 1] == '/' then p else Head(p[..|p| - 1])
  }

  predicate NoSlash(s: string) {
    forall i | 0 <= i < |s| :: s[i] != '/'
  }

  predicate IsDirectory(h: string) {
    h == "" || h[|h| - 1] == '/'
  }

  lemma {:induction false} SplitPath(p: string)
    ensures p == Head(p) + LastSegment(p) && IsDirectory(Head(p))
    ensures NoSlash(LastSegment(p))
  {
    if p != "" && p[|p| - 1] != '/' {
      SplitPath(p[..|p| - 1]);
      assert p == p[..|p| - 1] + [p[|p| - 1]];
    }
  }

  lemma {:induction false} LastSegmentIs(h: string, s: string)
    requires NoSlash(s) && IsDirectory(h)
    ensures LastSegment(h + s) == s && Head(h + s) == h
  {
    if s == "" {
      assert h + s == h;
    } else {
      var t := s[..|s| - 1];
      assert s == t + [s[|s| - 1]];
      LastSegmentIs(h, t);
      assert (h + s)[..|h + s| - 1] == h + t;
    }
  }

  /** `s[s.rfind("."):]`, when s has a dot. */
  function FromLastDot(s: string): Option<string> {
    if s == "" then None
    else if s[|s| - 1] == '.' then Some(".")
    else match FromLastDot(s[..|s| - 1])
      case None => None
      case Some(x) => Some(x + [s[|s| - 1]])
  }

  /** A dot followed by dotless characters. */
  predicate IsDotted(x: string) {
    x != "" && x[0] == '.' && forall i | 1 <= i < |x| :: x[i] != '.'
  }

  lemma {:induction false} DotSplit(s: string) returns (h: string)
    requires FromLastDot(s).Some?
    ensures s == h + FromLastDot(s).value && IsDotted(FromLastDot(s).value)
  {
    var t := s[..|s| - 1];
    assert s == t + [s[|s| - 1]];
    if s[|s| - 1] == '.' {
      h := t;
    } else {
      h := DotSplit(t);
    }
  }

  lemma {:induction false} FromLastDotIs(h: string, x: string)
    requires IsDotted(x)
    ensures FromLastDot(h + x) == Some(x)
    decreases |x|
  {
    var s := h + x;
    if |x| > 1 {
      var y := x[..|x| - 1];
      FromLastDotIs(h, y);
      assert s[..|s| - 1] == h + y && x == y + [x[|x| - 1]];
    } else {
      assert x == ".";
    }
  }

  // ---- matchers -----------------------------------------------------------------------

  predicate Accepts(inClass: ClassTest, m: Matcher, e: Entry) {
    && (m.basename.Some? ==> Matches(inClass, Tokens(m.basename.value), LastSegment(e.path)))
    && (m.glob.Some? ==> Matches(inClass, Tokens(m.glob.value), e.path)
                         || Matches(inClass, Tokens(m.glob.value), "/" + e.path))
    && (m.magic.Some? ==> m.magic.value <= e.sniff)
  }

  datatype Key = Exact(name: string) | Extension(ext: string) | NoKey

  predicate ExtensionChar(c: char) {
    c != '*' && c != '?' && c != '[' && c != ']'
  }

  /** The literal extension a segment ends with. */
  function TrailingExt(segment: string): Option<string> {
    match FromLastDot(segment)
    case None => None
    case Some(x) =>
      if |x| > 1 && forall i | 1 <= i < |x| :: ExtensionChar(x[i]) then Some(x) else None
  }

  function PatternKey(p: string): Key {
    var segment := LastSegment(p);
    if segment != "" && Plain(segment) then Exact(segment)
    else match TrailingExt(segment)
      case Some(x) => Extension(x)
      case None => NoKey
  }

  /** `_required_name`: the first of basename and glob that requires something. */
  function RequiredName(m: Matcher): Key {
    var fromBase := if m.basename.Some? then PatternKey(m.basename.value) else NoKey;
    if fromBase != NoKey then fromBase
    else if m.glob.Some? then PatternKey(m.glob.value)
    else NoKey
  }

  /** The index offers a matcher for an entry exactly when its key fits the file name. */
  predicate Candidate(m: Matcher, e: Entry) {
    Fits(RequiredName(m), LastSegment(e.path))
  }

  /** The last slash of the pattern does not stand inside a bracket expression whose rest
      would be taken for an exact name. */
  predicate SplitsRight(p: string) {
    !(PatternKey(p).Exact? && LeavesOpen(Head(p)) && ']' in LastSegment(p))
  }

  predicate Safe(m: Matcher) {
    if m.basename.Some? && PatternKey(m.basename.value) != NoKey then SplitsRight(m.basename.value)
    else m.glob.Some? ==> SplitsRight(m.glob.value)
  }

  // ---- the key is required --------------------------------------------------------------

  /** What a directory part matches is empty or ends with a slash. */
  lemma {:induction false} DirectoryPart(inClass: ClassTest, h: string, x: string)
    requires IsDirectory(h) && Matches(inClass, Tokens(h), x)
    ensures IsDirectory(x) && (h == "" ==> x == "")
  {
    if h != "" {
      var d := h[..|h| - 1];
      assert h == d + "/";
      var y := TailMatched(inClass, d, "/", x);
    }
  }

  /** A plain tail of a pattern is a tail of everything the pattern matches. */
  lemma TailMatched(inClass: ClassTest, h: string, t: string, s: string) returns (x: string)
    requires Plain(t) && !(LeavesOpen(h) && ']' in t) && Matches(inClass, Tokens(h + t), s)
    ensures s == x + t && Matches(inClass, Tokens(h), x)
  {
    PlainTail(h, t);
    var k := MatchSplit(inClass, Tokens(h), Lits(t), s);
    MatchLits(inClass, t, s[k..]);
    x := s[..k];
    assert s == x + s[k..];
  }

  /** Does the file name fit a key? */
  predicate Fits(k: Key, name: string) {
    match k
    case Exact(n) => name == n
    case Extension(x) => FromLastDot(name) == Some(x)
    case NoKey => true
  }

  lemma {:induction false} ExactRequired(inClass: ClassTest, p: string, s: string)
    requires Plain(LastSegment(p)) && !(LeavesOpen(Head(p)) && ']' in LastSegment(p))
    requires Matches(inClass, Tokens(p), s)
    ensures LastSegment(s) == LastSegment(p)
  {
    SplitPath(p);
    var h, t := Head(p), LastSegment(p);
    var x := TailMatched(inClass, h, t, s);
    DirectoryPart(inClass, h, x);
    LastSegmentIs(x, t);
  }

  lemma TrailingExtSplit(segment: string) returns (h: string)
    requires TrailingExt(segment).Some? && NoSlash(segment)
    ensures NoSlash(TrailingExt(segment).value)
    ensures segment == h + TrailingExt(segment).value && IsDotted(TrailingExt(segment).value)
    ensures Plain(TrailingExt(segment).value) && ']' !in TrailingExt(segment).value
  {
    h := DotSplit(segment);
    var x := FromLastDot(segment).value;
    forall i | 0 <= i < |x| ensures x[i] != '*' && x[i] != '?' && x[i] != '[' && x[i] != ']' {
      assert i > 0 ==> ExtensionChar(x[i]);
    }
    forall i | 0 <= i < |x| ensures x[i] != '/' {
      assert x[i] == segment[|h| + i];
    }
  }

  lemma {:induction false} ExtensionRequired(inClass: ClassTest, p: string, s: string)
    requires TrailingExt(LastSegment(p)).Some? && Matches(inClass, Tokens(p), s)
    ensures FromLastDot(LastSegment(s)) == TrailingExt(LastSegment(p))
  {
    SplitPath(p);
    var ext := TrailingExt(LastSegment(p)).value;
    var h := TrailingExtSplit(LastSegment(p));
    assert p == (Head(p) + h) + ext;
    var x := TailMatched(inClass, Head(p) + h, ext, s);
    ExtensionOfTail(x, ext);
  }

  lemma {:induction false} ExtensionOfTail(x: string, ext: string)
    requires IsDotted(ext) && NoSlash(ext)
    ensures FromLastDot(LastSegment(x + ext)) == Some(ext)
  {
    SplitPath(x);
    var h, t := Head(x), LastSegment(x);
    assert x + ext == h + (t + ext);
    LastSegmentIs(h, t + ext);
    FromLastDotIs(t, ext);
  }

  lemma {:induction false} KeyRequired(inClass: ClassTest, p: string, s: string)
    requires SplitsRight(p) && Matches(inClass, Tokens(p), s)
    ensures Fits(PatternKey(p), LastSegment(s))
  {
    match PatternKey(p)
    case Exact(_) => ExactRequired(inClass, p, s);
    case Extension(_) => ExtensionRequired(inClass, p, s);
    case NoKey =>
  }

  /** The file name of a path is its file name from the root. */
  lemma {:induction false} RootedName(path: string)
    ensures LastSegment("/" + path) == LastSegment(path)
  {
    SplitPath(path);
    assert "/" + path == ("/" + Head(path)) + LastSegment(path);
    LastSegmentIs("/" + Head(path), LastSegment(path));
  }

  lemma {:induction false} NameOfName(path: string)
    ensures LastSegment(LastSegment(path)) == LastSegment(path)
  {
    SplitPath(path);
    assert "" + LastSegment(path) == LastSegment(path);
    LastSegmentIs("", LastSegment(path));
  }

  lemma {:induction false} BasenameRequired(inClass: ClassTest, p: string, path: string)
    requires SplitsRight(p) && Matches(inClass, Tokens(p), LastSegment(path))
    ensures Fits(PatternKey(p), LastSegment(path))
  {
    NameOfName(path);
    KeyRequired(inClass, p, LastSegment(path));
  }

  lemma {:induction false} GlobRequired(inClass: ClassTest, p: string, path: string)
    requires SplitsRight(p) && (Matches(inClass, Tokens(p), path) || Matches(inClass, Tokens(p), "/" + path))
    ensures Fits(PatternKey(p), LastSegment(path))
  {
    RootedName(path);
    if Matches(inClass, Tokens(p), path) {
      KeyRequired(inClass, p, path);
    } else {
      KeyRequired(inClass, p, "/" + path);
    }
  }

  /** The filter never loses a match of a safe matcher. */
  lemma SafeNeverLost(inClass: ClassTest, m: Matcher, e: Entry)
    requires Safe(m) && Accepts(inClass, m, e)
    ensures Candidate(m, e)
  {
    if m.basename.Some? && PatternKey(m.basename.value) != NoKey {
      BasenameRequired(inClass, m.basename.value, e.path);
    } else if m.glob.Some? {
      GlobRequired(inClass, m.glob.value, e.path);
    }
  }

  // ---- what an unsafe pattern loses -------------------------------------------------------

  /** A bracket left open by a directory part is closed by the first `]` after it. */
  lemma {:induction false} OpenTail(q: string, t: string)
    returns (before: seq<Token>, body: string, u: string, tail: string)
    requires LeavesOpen(q) && q != "" && q[|q| - 1] == '/' && Plain(t) && ']' in t
    ensures t == u + "]" + tail
    ensures Tokens(q + t) == before + [Class(body)] + Lits(tail)
    decreases |q|
  {
    if OpensHere(q) {
      body, u, tail := OpenFirst(q, t);
      before := [];
    } else {
      NextExtends(q, t);
      NextIsTail(q);
      before, body, u, tail := OpenTail(Next(q).1, t);
      assert [Next(q).0] + (before + [Class(body)] + Lits(tail)) == [Next(q).0] + before + [Class(body)] + Lits(tail);
      before := [Next(q).0] + before;
    }
  }

  lemma OpenFirst(q: string, t: string) returns (body: string, u: string, tail: string)
    requires OpensHere(q) && q[|q| - 1] == '/' && Plain(t) && ']' in t
    ensures t == u + "]" + tail
    ensures Tokens(q + t) == [Class(body)] + Lits(tail)
  {
    var k := IndexFrom(t, ']', 0);
    u, tail := t[..k], t[k + 1..];
    assert t == u + "]" + tail;
    body := OpenNext(q, t, k);
    PlainTokens(tail);
  }

  lemma OpenNext(q: string, t: string, k: nat) returns (body: string)
    requires OpensHere(q) && q[|q| - 1] == '/' && k == IndexFrom(t, ']', 0) && k < |t|
    ensures Next(q + t) == (Class(body), t[k + 1..])
  {
    var rest := q[1..];
    var whole := rest + t;
    assert (q + t)[1..] == whole;
    FirstClosing(rest, t, k);
    body := whole[..|rest| + k];
    assert whole[|rest| + k + 1..] == t[k + 1..];
  }

  lemma NextIsTail(q: string)
    requires q != "" && Next(q).1 != ""
    ensures Next(q).1[|Next(q).1| - 1] == q[|q| - 1]
  {
  }

  lemma {:induction false} FirstClosing(rest: string, t: string, k: nat)
    requires rest != "" && rest[|rest| - 1] == '/' && ClassEnd(rest) == |rest|
    requires k == IndexFrom(t, ']', 0) && k < |t|
    ensures ClassEnd(rest + t) == |rest| + k
  {
    var whole := rest + t;
    assert BodyStart(whole) == BodyStart(rest);
    assert whole[|rest| + k] == ']';
    forall j | BodyStart(whole) <= j < |rest| + k ensures whole[j] != ']' {
      if j < |rest| {
        assert whole[j] == rest[j];
      } else {
        assert whole[j] == t[j - |rest|];
      }
    }
  }

  lemma NotATail(path: string, w: string, c: char, tail: string, h: string, u: string)
    requires path == w + [c] + tail && c != ']'
    ensures path != h + (u + "]" + tail)
  {
    var other := h + (u + "]" + tail);
    assert path[|w|] == c;
    assert other[|h| + |u|] == ']';
    assert |other| == |h| + |u| + 1 + |tail|;
  }

  lemma {:induction false} BracketMatched(inClass: ClassTest, before: seq<Token>, body: string, tail: string, w: string,
                                          c: char)
    requires Matches(inClass, before, w) && inClass(body, c)
    ensures Matches(inClass, before + [Class(body)] + Lits(tail), w + [c] + tail)
  {
    assert [Class(body)][1..] == [] && [c][1..] == "";
    assert Matches(inClass, [Class(body)], [c]);
    MatchJoin(inClass, before, [Class(body)], w, [c]);
    MatchLits(inClass, tail, tail);
    MatchJoin(inClass, before + [Class(body)], Lits(tail), w + [c], tail);
  }

  /** How a pattern is cut whose last slash stands inside a bracket expression: what comes before it,
      what it lists, and the name the pattern is filed under, which the bracket closes. */
  datatype Cut = Cut(before: seq<Token>, body: string, start: string, tail: string)

  ghost predicate IsCut(p: string, cut: Cut) {
    && Tokens(p) == cut.before + [Class(cut.body)] + Lits(cut.tail)
    && LastSegment(p) == cut.start + "]" + cut.tail
  }

  /** The bracket may take c for the `]` of that name, or take that for itself after another start. */
  ghost predicate Slips(inClass: ClassTest, cut: Cut, x: string, c: char) {
    Matches(inClass, cut.before, x) && inClass(cut.body, c) && (c != ']' || LastSegment(x) != cut.start)
  }

  lemma {:induction false} TailedName(x: string, tail: string)
    requires NoSlash(tail)
    ensures LastSegment(x + "]" + tail) == LastSegment(x) + "]" + tail
  {
    SplitPath(x);
    var name := LastSegment(x) + "]" + tail;
    assert x + "]" + tail == Head(x) + name;
    LastSegmentIs(Head(x), name);
  }

  lemma TailHasNoSlash(p: string, cut: Cut)
    requires IsCut(p, cut)
    ensures NoSlash(cut.tail)
  {
    SplitPath(p);
    var segment := LastSegment(p);
    assert segment[|cut.start| + 1..] == cut.tail;
    forall i | 0 <= i < |cut.tail| ensures cut.tail[i] != '/' {
      assert cut.tail[i] == segment[|cut.start| + 1 + i];
    }
  }

  /** What slips through is matched, and has another name than the pattern is filed under. */
  lemma {:induction false} SlipIsLost(inClass: ClassTest, p: string, cut: Cut, x: string, c: char)
    requires IsCut(p, cut) && Slips(inClass, cut, x, c)
    ensures Matches(inClass, Tokens(p), x + [c] + cut.tail)
    ensures LastSegment(x + [c] + cut.tail) != LastSegment(p)
  {
    BracketMatched(inClass, cut.before, cut.body, cut.tail, x, c);
    TailHasNoSlash(p, cut);
    SlipDiffers(x, c, cut.tail, cut.start);
  }

  lemma SameStart(a: string, b: string, tail: string)
    ensures a + "]" + tail == b + "]" + tail ==> a == b
  {
    var s, t := a + "]" + tail, b + "]" + tail;
    assert s[..|s| - |tail| - 1] == a && t[..|t| - |tail| - 1] == b;
  }

  lemma {:induction false} SlipDiffers(x: string, c: char, tail: string, start: string)
    requires NoSlash(tail) && (c != ']' || LastSegment(x) != start)
    ensures LastSegment(x + [c] + tail) != start + "]" + tail
  {
    var s := x + [c] + tail;
    if c == ']' {
      assert s == x + "]" + tail;
      TailedName(x, tail);
      SameStart(LastSegment(x), start, tail);
    } else {
      SplitPath(s);
      NotATail(s, x, c, tail, Head(s), start);
      assert start + "]" + tail == start + ("]" + tail);
    }
  }

  /** Whatever a cut pattern matches under another name slips through. */
  lemma LostSlips(inClass: ClassTest, p: string, s: string) returns (cut: Cut, x: string, c: char)
    requires !SplitsRight(p) && Matches(inClass, Tokens(p), s) && LastSegment(s) != LastSegment(p)
    ensures IsCut(p, cut) && Slips(inClass, cut, x, c) && s == x + [c] + cut.tail
  {
    SplitPath(p);
    var before, body, start, tail := OpenTail(Head(p), LastSegment(p));
    assert p == Head(p) + LastSegment(p);
    cut := Cut(before, body, start, tail);
    x, c := BracketTook(inClass, before, body, tail, s);
    TailHasNoSlash(p, cut);
    if c == ']' {
      assert s == x + "]" + tail;
      TailedName(x, tail);
    }
  }

  lemma BracketTook(inClass: ClassTest, before: seq<Token>, body: string, tail: string, s: string)
    returns (x: string, c: char)
    requires Matches(inClass, before + [Class(body)] + Lits(tail), s)
    ensures Matches(inClass, before, x) && inClass(body, c) && s == x + [c] + tail
  {
    assert before + [Class(body)] + Lits(tail) == before + ([Class(body)] + Lits(tail));
    var k := MatchSplit(inClass, before, [Class(body)] + Lits(tail), s);
    var rest := s[k..];
    assert ([Class(body)] + Lits(tail))[1..] == Lits(tail);
    MatchLits(inClass, tail, rest[1..]);
    x, c := s[..k], rest[0];
    assert rest == [c] + rest[1..] && s == s[..k] + rest;
  }

  /** Some path slips through the pattern. */
  ghost predicate Loses(inClass: ClassTest, p: string) {
    !SplitsRight(p) && exists cut, x, c :: IsCut(p, cut) && Slips(inClass, cut, x, c)
  }

  /** Some file name does. */
  ghost predicate LosesName(inClass: ClassTest, p: string) {
    !SplitsRight(p) && exists cut, x, c :: IsCut(p, cut) && Slips(inClass, cut, x, c) && NoSlash(x) && c != '/'
  }

  lemma Unoffered(inClass: ClassTest, m: Matcher, e: Entry)
    requires Accepts(inClass, m, e)
    ensures !Candidate(m, e) ==> !Safe(m)
  {
    if Safe(m) {
      SafeNeverLost(inClass, m, e);
    }
  }

  /** For a matcher with only a glob, the filter loses no file exactly when none slips through the
      glob. */
  lemma {:induction false} GlobFilterExactIff(inClass: ClassTest, glob: string, magic: Option<seq<nat>>)
    ensures (forall e: Entry | Accepts(inClass, Matcher(Some(glob), None, magic), e) ::
               Candidate(Matcher(Some(glob), None, magic), e))
       <==> !Loses(inClass, glob)
  {
    var m := Matcher(Some(glob), None, magic);
    if Loses(inClass, glob) {
      var cut, x, c :| IsCut(glob, cut) && Slips(inClass, cut, x, c);
      SlipIsLost(inClass, glob, cut, x, c);
      var e := Entry(x + [c] + cut.tail, if magic.Some? then magic.value else []);
      assert Accepts(inClass, m, e) && !Candidate(m, e);
    } else {
      forall e: Entry | Accepts(inClass, m, e) ensures Candidate(m, e) {
        Unoffered(inClass, m, e);
        RootedName(e.path);
        if !Candidate(m, e) {
          var s := if Matches(inClass, Tokens(glob), e.path) then e.path else "/" + e.path;
          var cut, x, c := LostSlips(inClass, glob, s);
        }
      }
    }
  }

  lemma {:induction false} NameIsItself(name: string)
    requires NoSlash(name)
    ensures LastSegment(name) == name
  {
    LastSegmentIs("", name);
    assert "" + name == name;
  }

  lemma PartsHaveNoSlash(x: string, c: char, tail: string)
    ensures NoSlash(x + [c] + tail) <==> NoSlash(x) && c != '/' && NoSlash(tail)
  {
    var s := x + [c] + tail;
    assert s[|x|] == c;
    assert forall i | 0 <= i < |x| :: s[i] == x[i];
    assert forall i | 0 <= i < |tail| :: s[|x| + 1 + i] == tail[i];
  }

  /** For one with only a basename, exactly when no file name slips through it. */
  lemma {:induction false} BasenameFilterExactIff(inClass: ClassTest, base: string, magic: Option<seq<nat>>)
    ensures (forall e: Entry | Accepts(inClass, Matcher(None, Some(base), magic), e) ::
               Candidate(Matcher(None, Some(base), magic), e))
       <==> !LosesName(inClass, base)
  {
    var m := Matcher(None, Some(base), magic);
    if LosesName(inClass, base) {
      var cut, x, c :| IsCut(base, cut) && Slips(inClass, cut, x, c) && NoSlash(x) && c != '/';
      SlipIsLost(inClass, base, cut, x, c);
      TailHasNoSlash(base, cut);
      PartsHaveNoSlash(x, c, cut.tail);
      NameIsItself(x + [c] + cut.tail);
      var e := Entry(x + [c] + cut.tail, if magic.Some? then magic.value else []);
      assert Accepts(inClass, m, e) && !Candidate(m, e);
    } else {
      forall e: Entry | Accepts(inClass, m, e) ensures Candidate(m, e) {
        Unoffered(inClass, m, e);
        NameOfName(e.path);
        SplitPath(e.path);
        if !Candidate(m, e) {
          var cut, x, c := LostSlips(inClass, base, LastSegment(e.path));
          PartsHaveNoSlash(x, c, cut.tail);
        }
      }
    }
  }

  /** The pattern whose key the matcher is filed under. */
  function Deciding(m: Matcher): Option<string> {
    if m.basename.Some? && PatternKey(m.basename.value) != NoKey then m.basename else m.glob
  }

  /** For any matcher: exactly when its deciding pattern is safe, or lets through no other name than
      the one it is filed under. */
  lemma {:induction false} FilterExactIff(inClass: ClassTest, m: Matcher)
    ensures (forall e: Entry | Accepts(inClass, m, e) :: Candidate(m, e))
       <==> Safe(m) || forall e: Entry | Accepts(inClass, m, e) ::
                         LastSegment(e.path) == LastSegment(Deciding(m).value)
  {
    forall e: Entry | Accepts(inClass, m, e)
      ensures Candidate(m, e) <==> Safe(m) || LastSegment(e.path) == LastSegment(Deciding(m).value)
    {
      Unoffered(inClass, m, e);
    }
  }

  lemma {:induction false} NothingOpened(p: string)
    requires '[' !in p
    ensures !LeavesOpen(p)
    decreases |p|
  {
    if p == "" {
    } else {
      assert p[0] in p;
      NothingOpened(p[1..]);
    }
  }

  /** Without bracket expressions every matcher is safe. */
  lemma BracketlessIsSafe(m: Matcher)
    requires m.basename.Some? ==> '[' !in m.basename.value
    requires m.glob.Some? ==> '[' !in m.glob.value
    ensures Safe(m)
  {
    if m.basename.Some? {
      SplitPath(m.basename.value);
      NothingOpened(Head(m.basename.value));
    }
    if m.glob.Some? {
      SplitPath(m.glob.value);
      NothingOpened(Head(m.glob.value));
    }
  }

  /** The failing input: `[/]x` accepts the file `x` at the root, yet is filed under `]x`. */
  lemma BracketedSlashIsLost(inClass: ClassTest)
    requires inClass("/", '/')
    ensures Accepts(inClass, Matcher(Some("[/]x"), None, None), Entry("x", []))
    ensures !Candidate(Matcher(Some("[/]x"), None, None), Entry("x", []))
  {
    BracketTokens();
    RootedX(inClass);
    KeyOfBracket();
    NameOfX();
    assert RequiredName(Matcher(Some("[/]x"), None, None)) == Exact("]x");
  }

  lemma KeyOfBracket()
    ensures PatternKey("[/]x") == Exact("]x")
  {
    LastSegmentIs("[/", "]x");
    assert "[/]x" == "[/" + "]x";
  }

  lemma NameOfX()
    ensures LastSegment("x") == "x" && "/" + "x" == "/x"
  {
    LastSegmentIs("", "x");
    assert "" + "x" == "x";
  }

  lemma RootedX(inClass: ClassTest)
    requires inClass("/", '/')
    ensures Matches(inClass, [Class("/"), Lit('x')], "/x")
  {
    assert "/x"[1..] == "x" && [Class("/"), Lit('x')][1..] == Lits("x");
    MatchLits(inClass, "x", "x");
  }

  lemma BracketTokens()
    ensures Tokens("[/]x") == [Class("/"), Lit('x')]
  {
    var p := "[/]x";
    assert p[1..] == "/]x" && "/]x"[2..] == "x" && "/]x"[..1] == "/";
    assert Next(p) == (Class("/"), "x");
    PlainTokens("x");
    assert Lits("x") == [Lit('x')];
  }

  // ---- the index ------------------------------------------------------------------------

  type Slot = (nat, Matcher)

  datatype Index = Index(size: nat, exact: map<string, seq<Slot>>, extension: map<string, seq<Slot>>, rest: seq<Slot>)

  /** `table.get(key)`, a missing bucket reading as empty. */
  function Get(table: map<string, seq<Slot>>, key: string): seq<Slot> {
    if key in table then table[key] else []
  }

  function Bucket(index: Index, key: Key): seq<Slot> {
    match key
    case Exact(n) => Get(index.exact, n)
    case Extension(x) => Get(index.extension, x)
    case NoKey => index.rest
  }

  function File(index: Index, key: Key, slot: Slot): Index {
    match key
    case Exact(n) => index.(exact := index.exact[n := Get(index.exact, n) + [slot]])
    case Extension(x) => index.(extension := index.extension[x := Get(index.extension, x) + [slot]])
    case NoKey => index.(rest := index.rest + [slot])
  }

  lemma FileBucket(index: Index, key: Key, slot: Slot, k: Key)
    ensures Bucket(File(index, key, slot), k) == if k == key then Bucket(index, k) + [slot] else Bucket(index, k)
  {
  }

  /** The slots of catalogers before pos, and of the first t matchers at pos. */
  ghost predicate Listed(catalogers: seq<Cataloger>, pos: nat, t: nat, slot: Slot) {
    && slot.0 < |catalogers|
    && exists j :: 0 <= j < |catalogers[slot.0].matchers| && catalogers[slot.0].matchers[j] == slot.1
                   && (slot.0 < pos || (slot.0 == pos && j < t))
  }

  ghost predicate Filed(catalogers: seq<Cataloger>, pos: nat, t: nat, index: Index) {
    forall key, slot :: slot in Bucket(index, key) <==> Listed(catalogers, pos, t, slot) && RequiredName(slot.1) == key
  }

  ghost predicate IsIndex(catalogers: seq<Cataloger>, index: Index) {
    index.size == |catalogers| && Filed(catalogers, |catalogers|, 0, index)
  }

  lemma FileOne(catalogers: seq<Cataloger>, pos: nat, t: nat, index: Index)
    requires pos < |catalogers| && t < |catalogers[pos].matchers| && Filed(catalogers, pos, t, index)
    ensures var m := catalogers[pos].matchers[t];
            Filed(catalogers, pos, t + 1, File(index, RequiredName(m), (pos, m)))
  {
    var m := catalogers[pos].matchers[t];
    var more := File(index, RequiredName(m), (pos, m));
    forall key, slot
      ensures slot in Bucket(more, key) <==> Listed(catalogers, pos, t + 1, slot) && RequiredName(slot.1) == key
    {
      FileBucket(index, RequiredName(m), (pos, m), key);
      ListedStep(catalogers, pos, t, slot);
    }
  }

  lemma ListedStep(catalogers: seq<Cataloger>, pos: nat, t: nat, slot: Slot)
    requires pos < |catalogers| && t < |catalogers[pos].matchers|
    ensures Listed(catalogers, pos, t + 1, slot) <==>
            Listed(catalogers, pos, t, slot) || slot == (pos, catalogers[pos].matchers[t])
  {
  }

  lemma ListedNext(catalogers: seq<Cataloger>, pos: nat, slot: Slot)
    requires pos < |catalogers|
    ensures Listed(catalogers, pos, |catalogers[pos].matchers|, slot) <==> Listed(catalogers, pos + 1, 0, slot)
  {
  }

  method BuildIndex(catalogers: seq<Cataloger>) returns (index: Index)
    ensures IsIndex(catalogers, index)
  {
    index := Index(|catalogers|, map[], map[], []);
    for pos := 0 to |catalogers|
      invariant index.size == |catalogers| && Filed(catalogers, pos, 0, index)
    {
      var ms := catalogers[pos].matchers;
      for t := 0 to |ms|
        invariant index.size == |catalogers| && Filed(catalogers, pos, t, index)
      {
        FileOne(catalogers, pos, t, index);
        index := File(index, RequiredName(ms[t]), (pos, ms[t]));
      }
      forall slot ensures Listed(catalogers, pos, |ms|, slot) <==> Listed(catalogers, pos + 1, 0, slot) {
        ListedNext(catalogers, pos, slot);
      }
    }
  }

  // ---- dispatch ---------------------------------------------------------------------------

  predicate Wants(inClass: ClassTest, c: Cataloger, e: Entry) {
    exists m <- c.matchers :: Accepts(inClass, m, e)
  }

  predicate WantsViaIndex(inClass: ClassTest, c: Cataloger, e: Entry) {
    exists m <- c.matchers :: Accepts(inClass, m, e) && Candidate(m, e)
  }

  /** Every cataloger with a matcher that accepts the entry, in registry order. */
  function Accepting(inClass: ClassTest, cs: seq<Cataloger>, e: Entry): seq<Cataloger> {
    if cs == [] then []
    else
      var last := cs[|cs| - 1];
      Accepting(inClass, cs[..|cs| - 1], e) + if Wants(inClass, last, e) then [last] else []
  }

  /** The same, counting only matchers the index offers for the entry. */
  function Routed(inClass: ClassTest, cs: seq<Cataloger>, e: Entry): seq<Cataloger> {
    if cs == [] then []
    else
      var last := cs[|cs| - 1];
      Routed(inClass, cs[..|cs| - 1], e) + if WantsViaIndex(inClass, last, e) then [last] else []
  }

  ghost predicate AllSafe(cs: seq<Cataloger>) {
    forall c <- cs :: forall m <- c.matchers :: Safe(m)
  }

  /** Where every pattern is safe the index changes nothing. */
  lemma {:induction false} SafeRouting(inClass: ClassTest, cs: seq<Cataloger>, e: Entry)
    requires AllSafe(cs)
    ensures Routed(inClass, cs, e) == Accepting(inClass, cs, e)
  {
    if cs == [] {
    } else {
      var last := cs[|cs| - 1];
      SafeRouting(inClass, cs[..|cs| - 1], e);
      assert last in cs;
      forall m | m in last.matchers && Accepts(inClass, m, e) ensures Candidate(m, e) {
        SafeNeverLost(inClass, m, e);
      }
    }
  }

  class Registry {
    const inClass: ClassTest
    var catalogers: seq<Cataloger>
    var index: Option<Index>

    /** The index was built from some prefix of what is registered now. */
    ghost predicate Valid()
      reads this
    {
      && (index.Some? ==> index.value.size <= |catalogers| && IsIndex(catalogers[..index.value.size], index.value))
      && forall i, j | 0 <= i < j < |catalogers| :: catalogers[i].id != catalogers[j].id
    }

    constructor (test: ClassTest)
      ensures Valid() && catalogers == [] && inClass == test
    {
      inClass := test;
      catalogers := [];
      index := None;
    }

    method Register(c: Cataloger)
      requires Valid()
      modifies this`catalogers
      ensures Valid()
      ensures catalogers == if exists d :: d in old(catalogers) && d.id == c.id then old(catalogers)
                            else old(catalogers) + [c]
    {
      if forall d <- catalogers :: d.id != c.id {
        catalogers := catalogers + [c];
        assert index.Some? ==> catalogers[..index.value.size] == old(catalogers)[..index.value.size];
      }
    }

    /** The stored index when it is as long as the registry, a fresh one otherwise. */
    method CurrentIndex() returns (current: Index)
      requires Valid()
      modifies this`index
      ensures Valid() && IsIndex(catalogers, current)
    {
      if index.Some? && index.value.size == |catalogers| {
        current := index.value;
        assert catalogers[..current.size] == catalogers;
      } else {
        current := BuildIndex(catalogers);
        index := Some(current);
        assert catalogers[..current.size] == catalogers;
      }
    }

    method Dispatch(e: Entry) returns (r: seq<Cataloger>)
      requires Valid()
      modifies this`index
      ensures Valid()
      ensures r == Routed(inClass, catalogers, e)
      ensures AllSafe(catalogers) ==> r == Accepting(inClass, catalogers, e)
    {
      var current := CurrentIndex();
      var name := LastSegment(e.path);
      var buckets := [Bucket(current, Exact(name))];
      var ext := FromLastDot(name);
      if ext.Some? {
        buckets := buckets + [Bucket(current, Extension(ext.value))];
      }
      buckets := buckets + [current.rest];
      var hits := Hits(inClass, buckets, e);
      r := InOrder(inClass, catalogers, current, name, buckets, e, hits);
      if AllSafe(catalogers) {
        SafeRouting(inClass, catalogers, e);
      }
    }
  }

  ghost predicate Offered(buckets: seq<seq<Slot>>, slot: Slot) {
    exists b :: b in buckets && slot in b
  }

  /** The set comprehension over all offered slots whose matcher accepts the entry. */
  method Hits(inClass: ClassTest, buckets: seq<seq<Slot>>, e: Entry) returns (hits: set<nat>)
    ensures forall pos: nat :: pos in hits <==> exists m :: Offered(buckets, (pos, m)) && Accepts(inClass, m, e)
  {
    hits := {};
    for b := 0 to |buckets|
      invariant forall pos: nat ::
                  pos in hits <==> exists m :: Offered(buckets[..b], (pos, m)) && Accepts(inClass, m, e)
    {
      var bucket := buckets[b];
      for k := 0 to |bucket|
        invariant forall pos: nat :: pos in hits <==>
                    exists m :: (Offered(buckets[..b], (pos, m)) || (pos, m) in bucket[..k]) && Accepts(inClass, m, e)
      {
        var (pos, m) := bucket[k];
        assert bucket[..k + 1] == bucket[..k] + [bucket[k]];
        if pos !in hits && Accepts(inClass, m, e) {
          hits := hits + {pos};
        }
      }
      assert bucket[..|bucket|] == bucket;
      assert buckets[..b + 1] == buckets[..b] + [bucket];
    }
    assert buckets[..|buckets|] == buckets;
  }

  /** `[catalogers[pos] for pos in sorted(hits)]`. */
  method InOrder(inClass: ClassTest, catalogers: seq<Cataloger>, ghost index: Index, ghost name: string,
                 ghost buckets: seq<seq<Slot>>, e: Entry, hits: set<nat>)
    returns (r: seq<Cataloger>)
    requires IsIndex(catalogers, index) && name == LastSegment(e.path)
    requires buckets == [Bucket(index, Exact(name))]
                        + (if FromLastDot(name).Some? then [Bucket(index, Extension(FromLastDot(name).value))] else [])
                        + [index.rest]
    requires forall pos: nat :: pos in hits <==> exists m :: Offered(buckets, (pos, m)) && Accepts(inClass, m, e)
    ensures r == Routed(inClass, catalogers, e)
  {
    r := [];
    for pos := 0 to |catalogers|
      invariant r == Routed(inClass, catalogers[..pos], e)
    {
      assert catalogers[..pos + 1][..pos] == catalogers[..pos];
      HitIffRouted(inClass, catalogers, index, name, buckets, e, pos);
      if pos in hits {
        r := r + [catalogers[pos]];
      }
    }
    assert catalogers[..|catalogers|] == catalogers;
  }

  lemma {:induction false} OfferedIff(catalogers: seq<Cataloger>, index: Index, name: string, buckets: seq<seq<Slot>>,
                                      slot: Slot)
    requires IsIndex(catalogers, index)
    requires buckets == [Bucket(index, Exact(name))]
                        + (if FromLastDot(name).Some? then [Bucket(index, Extension(FromLastDot(name).value))] else [])
                        + [index.rest]
    ensures Offered(buckets, slot) <==>
            slot.0 < |catalogers| && slot.1 in catalogers[slot.0].matchers && Fits(RequiredName(slot.1), name)
  {
    var key := RequiredName(slot.1);
    assert index.rest == Bucket(index, NoKey);
    assert slot in Bucket(index, key) <==> Listed(catalogers, |catalogers|, 0, slot);
    assert buckets[0] in buckets && buckets[|buckets| - 1] in buckets;
    if FromLastDot(name).Some? {
      assert buckets[1] == Bucket(index, Extension(FromLastDot(name).value)) && buckets[1] in buckets;
    }
  }

  lemma {:induction false} HitIffRouted(inClass: ClassTest, catalogers: seq<Cataloger>, index: Index, name: string,
                     buckets: seq<seq<Slot>>, e: Entry, pos: nat)
    requires IsIndex(catalogers, index) && name == LastSegment(e.path) && pos < |catalogers|
    requires buckets == [Bucket(index, Exact(name))]
                        + (if FromLastDot(name).Some? then [Bucket(index, Extension(FromLastDot(name).value))] else [])
                        + [index.rest]
    ensures (exists m :: Offered(buckets, (pos, m)) && Accepts(inClass, m, e))
            <==> WantsViaIndex(inClass, catalogers[pos], e)
  {
    forall m ensures Offered(buckets, (pos, m)) <==> m in catalogers[pos].matchers && Candidate(m, e) {
      OfferedIff(catalogers, index, name, buckets, (pos, m));
    }
  }
}
