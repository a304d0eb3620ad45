// Reading patterns, and what the commonest of them route.
module SuffixGlobs {
  // Tokens of a written pattern, and the globs that ask for the end of a path.

  import opened Basics
  import opened Globs
  import opened Dispatch
  import opened Order

  // ---- reading ----------------------------------------------------------------------------

  /** A bracket body: a closing bracket can only stand first, or after a leading `!`. */
  predicate IsBody(body: string) {
    body != "" && body != "!"
    && forall i | 0 <= i < |body| && body[i] == ']' :: i == 0 || (i == 1 && body[0] == '!')
  }

  /** Each kind of token is read back from how it is written. */
  lemma {:induction false} TokensRead(t: Token, rest: string)
    requires t.Lit? ==> Plain([t.c])
    requires t.Class? ==> IsBody(t.body)
    ensures Tokens(Written(t) + rest) == [t] + Tokens(rest)
  {
    if t.Class? {
      ClassRead(t.body, rest);
    } else {
      assert (Written(t) + rest)[1..] == rest;
    }
  }

  function Written(t: Token): string {
    match t
    case Star => "*"
    case Any => "?"
    case Lit(c) => [c]
    case Class(body) => "[" + body + "]"
  }

  lemma {:induction false} ClassRead(body: string, rest: string)
    requires IsBody(body)
    ensures Tokens("[" + body + "]" + rest) == [Class(body)] + Tokens(rest)
  {
    var p := "[" + body + "]" + rest;
    var tail := body + "]" + rest;
    assert p[1..] == tail;
    assert BodyStart(tail) == BodyStart(body);
    assert ClassEnd(tail) == |body| by {
      assert tail[|body|] == ']';
      forall j | BodyStart(tail) <= j < |body| ensures tail[j] != ']' {
        assert tail[j] == body[j];
      }
    }
    assert tail[..|body|] == body && tail[|body| + 1..] == rest;
    assert Next(p) == (Class(body), rest);
  }

  // ---- a star and a plain end -------------------------------------------------------------

  predicate EndsWith(s: string, t: string) {
    |t| <= |s| && s[|s| - |t|..] == t
  }

  lemma {:induction false} StarEndIff(inClass: ClassTest, t: string, s: string)
    requires Plain(t)
    ensures Matches(inClass, Tokens("*" + t), s) <==> EndsWith(s, t)
  {
    TokensRead(Star, t);
    PlainTokens(t);
    var ts := [Star] + Lits(t);
    assert ts[1..] == Lits(t);
    if Matches(inClass, ts, s) {
      var k := MatchFirst(inClass, ts, s);
      MatchLits(inClass, t, s[k..]);
    }
    if EndsWith(s, t) {
      var k := |s| - |t|;
      MatchLits(inClass, t, s[k..]);
      FirstMatches(inClass, ts, s, k);
    }
  }

  /** A glob that asks for the end of a path, and nothing else. */
  function EndMatcher(t: string): Matcher {
    Matcher(Some("*" + t), None, None)
  }

  /** It accepts the files whose path from the root ends that way, at any depth. */
  lemma EndAcceptedIff(inClass: ClassTest, t: string, e: Entry)
    requires Plain(t)
    ensures Accepts(inClass, EndMatcher(t), e) <==> EndsWith("/" + e.path, t)
  {
    GlobAccepts(inClass, "*" + t, e);
    StarEndIff(inClass, t, e.path);
    StarEndIff(inClass, t, "/" + e.path);
    EndsFromRoot(e.path, t);
  }

  lemma {:induction false} GlobAccepts(inClass: ClassTest, glob: string, e: Entry)
    ensures Accepts(inClass, Matcher(Some(glob), None, None), e)
       <==> Matches(inClass, Tokens(glob), e.path) || Matches(inClass, Tokens(glob), "/" + e.path)
  {
  }

  lemma EndsFromRoot(path: string, t: string)
    ensures EndsWith(path, t) ==> EndsWith("/" + path, t)
  {
    if EndsWith(path, t) {
      assert ("/" + path)[|path| + 1 - |t|..] == path[|path| - |t|..];
    }
  }

  /** A basename without wildcards accepts the files of that name, wherever they are. */
  lemma NameAcceptedIff(inClass: ClassTest, name: string, e: Entry)
    requires Plain(name)
    ensures Accepts(inClass, Matcher(None, Some(name), None), e) <==> LastSegment(e.path) == name
  {
    PlainTokens(name);
    MatchLits(inClass, name, LastSegment(e.path));
  }

  /** A matcher asks for all of what it asks for. */
  lemma AcceptedIff(inClass: ClassTest, m: Matcher, e: Entry)
    ensures Accepts(inClass, m, e)
       <==> && Accepts(inClass, Matcher(m.glob, None, None), e) && Accepts(inClass, Matcher(None, m.basename, None), e)
            && (m.magic.Some? ==> |m.magic.value| <= |e.sniff| && e.sniff[..|m.magic.value|] == m.magic.value)
  {
    if m.magic.Some? && m.magic.value <= e.sniff {
      assert e.sniff[..|m.magic.value|] == m.magic.value;
    }
  }

  // ---- under which key a pattern is filed -----------------------------------------------------

  /** A pattern whose last segment is plain is filed under that name. */
  lemma PlainFiled(dir: string, name: string)
    requires IsDirectory(dir) && NoSlash(name) && Plain(name) && name != ""
    ensures PatternKey(dir + name) == Exact(name)
  {
    LastSegmentIs(dir, name);
  }

  /** One whose last segment has a wildcard and a plain extension is filed under the extension. */
  lemma ExtensionFiled(dir: string, start: string, ext: string)
    requires IsDirectory(dir) && NoSlash(start + ext) && IsDotted(ext) && |ext| > 1
    requires !Plain(start) && forall i | 1 <= i < |ext| :: ExtensionChar(ext[i])
    ensures PatternKey(dir + (start + ext)) == Extension(ext)
  {
    LastSegmentIs(dir, start + ext);
    FromLastDotIs(start, ext);
    var i :| 0 <= i < |start| && (start[i] == '*' || start[i] == '?' || start[i] == '[');
    assert (start + ext)[i] == start[i];
  }

  // ---- what is dispatched ---------------------------------------------------------------------

  lemma {:induction false} RoutedIff(inClass: ClassTest, cs: seq<Cataloger>, e: Entry, c: Cataloger)
    ensures c in Routed(inClass, cs, e) <==> c in cs && WantsViaIndex(inClass, c, e)
    decreases |cs|
  {
    if cs == [] {
    } else {
      RoutedIff(inClass, cs[..|cs| - 1], e, c);
      assert cs == cs[..|cs| - 1] + [cs[|cs| - 1]];
    }
  }

  /** The answer lists, once each and in registry order, the positions that want the entry. */
  lemma {:induction false} RoutedInOrder(inClass: ClassTest, cs: seq<Cataloger>, e: Entry) returns (at: seq<nat>)
    ensures |at| == |Routed(inClass, cs, e)| && Ascending(at)
    ensures forall i: nat | i < |at| :: at[i] < |cs| && cs[at[i]] == Routed(inClass, cs, e)[i]
    ensures forall k: nat :: k in at <==> k < |cs| && WantsViaIndex(inClass, cs[k], e)
    decreases |cs|
  {
    if cs == [] {
      at := [];
    } else {
      at := RoutedInOrder(inClass, cs[..|cs| - 1], e);
      if WantsViaIndex(inClass, cs[|cs| - 1], e) {
        at := at + [|cs| - 1];
      }
    }
  }

  /** A cataloger asking for such an end gets every file whose path has it, whatever else is
      registered. */
  lemma {:induction false} EndDispatched(inClass: ClassTest, cs: seq<Cataloger>, e: Entry, c: Cataloger, t: string)
    requires Plain(t) && c in cs && EndMatcher(t) in c.matchers && EndsWith("/" + e.path, t)
    ensures c in Routed(inClass, cs, e)
  {
    var m := EndMatcher(t);
    EndAcceptedIff(inClass, t, e);
    assert '[' !in "*" + t;
    BracketlessIsSafe(m);
    SafeNeverLost(inClass, m, e);
    RoutedIff(inClass, cs, e, c);
  }

  ghost predicate AsksForEnds(c: Cataloger) {
    forall m <- c.matchers :: exists t :: Plain(t) && m == EndMatcher(t)
  }

  /** One that asks for nothing else gets no other file. */
  lemma {:induction false} EndDispatchedIff(inClass: ClassTest, cs: seq<Cataloger>, e: Entry, c: Cataloger)
    requires c in cs && AsksForEnds(c)
    ensures c in Routed(inClass, cs, e)
       <==> exists t :: Plain(t) && EndMatcher(t) in c.matchers && EndsWith("/" + e.path, t)
  {
    RoutedIff(inClass, cs, e, c);
    if c in Routed(inClass, cs, e) {
      var m :| m in c.matchers && Accepts(inClass, m, e) && Candidate(m, e);
      var t :| Plain(t) && m == EndMatcher(t);
      EndAcceptedIff(inClass, t, e);
    }
    if t :| Plain(t) && EndMatcher(t) in c.matchers && EndsWith("/" + e.path, t) {
      EndDispatched(inClass, cs, e, c, t);
    }
  }
}
