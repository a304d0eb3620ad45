// Shell patterns as `fnmatch` reads them: wildcards, where `*` also spans `/`, and bracket
// expressions, whose extent is what a split at a slash can get wrong.
module Globs {
  /** What a bracket expression with the given body accepts is left to this parameter. */
  type ClassTest = (string, char) -> bool

  datatype Token = Star | Any | Lit(c: char) | Class(body: string)

  // ---- reading a pattern ------------------------------------------------------------------

  function IndexFrom(s: string, c: char, from: nat): (k: nat)
    requires from <= |s|
    ensures from <= k <= |s|
    ensures k < |s| ==> s[k] == c
    ensures forall j | from <= j < k :: s[j] != c
    decreases |s| - from
  {
    if from == |s| || s[from] == c then from else IndexFrom(s, c, from + 1)
  }

  /** A leading `!`, then a leading `]`, belong to the body. */
  function BodyStart(rest: string): (k: nat)
    ensures k <= |rest|
  {
    var a := if rest != "" && rest[0] == '!' then 1 else 0;
    if a < |rest| && rest[a] == ']' then a + 1 else a
  }

  /** Where the bracket just opened closes in `rest`, or |rest| when it never does. */
  function ClassEnd(rest: string): (k: nat)
    ensures k <= |rest|
  {
    IndexFrom(rest, ']', BodyStart(rest))
  }

  /** The bracket that starts p has no end. */
  predicate OpensHere(p: string) {
    p != "" && p[0] == '[' && ClassEnd(p[1..]) == |p[1..]|
  }

  /** The first token of p, and what is left of p after it. */
  function Next(p: string): (r: (Token, string))
    requires p != ""
    ensures |r.1| < |p|
  {
    var rest := p[1..];
    if p[0] == '*' then (Star, rest)
    else if p[0] == '?' then (Any, rest)
    else if p[0] == '[' && ClassEnd(rest) < |rest| then (Class(rest[..ClassEnd(rest)]), rest[ClassEnd(rest) + 1..])
    else (Lit(p[0]), rest)
  }

  function Tokens(p: string): seq<Token>
    decreases |p|
  {
    if p == "" then [] else [Next(p).0] + Tokens(Next(p).1)
  }

  /** Some bracket of p is opened and never closed within p. */
  predicate LeavesOpen(p: string)
    decreases |p|
  {
    p != "" && (OpensHere(p) || LeavesOpen(Next(p).1))
  }

  // ---- matching ---------------------------------------------------------------------------

  predicate Matches(inClass: ClassTest, ts: seq<Token>, s: string)
    decreases |ts| + |s|
  {
    if ts == [] then s == ""
    else match ts[0]
      case Star => Matches(inClass, ts[1..], s) || (s != "" && Matches(inClass, ts, s[1..]))
      case Any => s != "" && Matches(inClass, ts[1..], s[1..])
      case Lit(c) => s != "" && s[0] == c && Matches(inClass, ts[1..], s[1..])
      case Class(body) => s != "" && inClass(body, s[0]) && Matches(inClass, ts[1..], s[1..])
  }

  // ---- what a match is --------------------------------------------------------------------

  /** What one token stands for: `*` for any text, slashes included, the others for one character. */
  predicate Stands(inClass: ClassTest, t: Token, piece: string) {
    match t
    case Star => true
    case Any => |piece| == 1
    case Lit(c) => piece == [c]
    case Class(body) => |piece| == 1 && inClass(body, piece[0])
  }

  function Joined(pieces: seq<string>): string {
    if pieces == [] then "" else pieces[0] + Joined(pieces[1..])
  }

  /** The text is cut into one piece per token, each of which stands for its piece. */
  ghost predicate Cuts(inClass: ClassTest, ts: seq<Token>, s: string, pieces: seq<string>) {
    && |pieces| == |ts| && Joined(pieces) == s
    && forall i | 0 <= i < |ts| :: Stands(inClass, ts[i], pieces[i])
  }

  lemma {:induction false} CutsFirst(inClass: ClassTest, ts: seq<Token>, s: string, pieces: seq<string>, k: nat)
    requires ts != [] && k <= |s| && Stands(inClass, ts[0], s[..k]) && Cuts(inClass, ts[1..], s[k..], pieces)
    ensures Cuts(inClass, ts, s, [s[..k]] + pieces)
  {
    assert ([s[..k]] + pieces)[1..] == pieces;
    assert s == s[..k] + s[k..];
    forall i | 0 < i < |ts| ensures Stands(inClass, ts[i], ([s[..k]] + pieces)[i]) {
      assert ts[i] == ts[1..][i - 1] && ([s[..k]] + pieces)[i] == pieces[i - 1];
    }
  }

  lemma {:induction false} CutsRest(inClass: ClassTest, ts: seq<Token>, s: string, pieces: seq<string>)
    requires ts != [] && Cuts(inClass, ts, s, pieces)
    ensures Stands(inClass, ts[0], pieces[0]) && s == pieces[0] + Joined(pieces[1..])
    ensures Cuts(inClass, ts[1..], Joined(pieces[1..]), pieces[1..])
  {
  }

  /** The first token takes a piece it stands for, and the rest match what follows. */
  lemma {:induction false} MatchFirst(inClass: ClassTest, ts: seq<Token>, s: string) returns (k: nat)
    requires ts != [] && Matches(inClass, ts, s)
    ensures k <= |s| && Stands(inClass, ts[0], s[..k]) && Matches(inClass, ts[1..], s[k..])
    decreases |s|
  {
    if ts[0] != Star {
      k := 1;
    } else if Matches(inClass, ts[1..], s) {
      assert s[0..] == s;
      k := 0;
    } else {
      k := MatchFirst(inClass, ts, s[1..]);
      assert s[1..][k..] == s[k + 1..];
      k := k + 1;
    }
  }

  lemma {:induction false} FirstMatches(inClass: ClassTest, ts: seq<Token>, s: string, k: nat)
    requires ts != [] && k <= |s| && Stands(inClass, ts[0], s[..k]) && Matches(inClass, ts[1..], s[k..])
    ensures Matches(inClass, ts, s)
    decreases k
  {
    if ts[0] == Star {
      if k == 0 {
        assert s[0..] == s;
      } else {
        assert s[1..][k - 1..] == s[k..];
        FirstMatches(inClass, ts, s[1..], k - 1);
      }
    }
  }

  /** A text matches exactly when it can be cut that way. */
  lemma {:induction false} MatchesIff(inClass: ClassTest, ts: seq<Token>, s: string)
    ensures Matches(inClass, ts, s) <==> exists pieces :: Cuts(inClass, ts, s, pieces)
    decreases |ts|
  {
    if ts == [] {
      assert s == "" ==> Cuts(inClass, ts, s, []);
    } else {
      if Matches(inClass, ts, s) {
        var k := MatchFirst(inClass, ts, s);
        MatchesIff(inClass, ts[1..], s[k..]);
        var pieces :| Cuts(inClass, ts[1..], s[k..], pieces);
        CutsFirst(inClass, ts, s, pieces, k);
      }
      if pieces :| Cuts(inClass, ts, s, pieces) {
        CutsRest(inClass, ts, s, pieces);
        var k := |pieces[0]|;
        assert s[..k] == pieces[0] && s[k..] == Joined(pieces[1..]);
        MatchesIff(inClass, ts[1..], s[k..]);
        FirstMatches(inClass, ts, s, k);
      }
    }
  }

  function Lits(s: string): seq<Token> {
    seq(|s|, i requires 0 <= i < |s| => Lit(s[i]))
  }

  lemma {:induction false} MatchLits(inClass: ClassTest, t: string, s: string)
    ensures Matches(inClass, Lits(t), s) <==> s == t
  {
    if t == "" {
    } else {
      assert Lits(t)[1..] == Lits(t[1..]);
      if s != "" {
        MatchLits(inClass, t[1..], s[1..]);
        assert s == t <==> s[0] == t[0] && s[1..] == t[1..] by {
          assert s == [s[0]] + s[1..] && t == [t[0]] + t[1..];
        }
      }
    }
  }

  /** A match of a concatenation splits where the first part stops. */
  lemma {:induction false} MatchSplit(inClass: ClassTest, ts: seq<Token>, us: seq<Token>, s: string) returns (k: nat)
    requires Matches(inClass, ts + us, s)
    ensures k <= |s| && Matches(inClass, ts, s[..k]) && Matches(inClass, us, s[k..])
    decreases |ts| + |s|
  {
    if ts == [] {
      assert ts + us == us && s[0..] == s;
      k := 0;
    } else {
      assert (ts + us)[1..] == ts[1..] + us;
      if ts[0] == Star && Matches(inClass, ts[1..] + us, s) {
        k := MatchSplit(inClass, ts[1..], us, s);
      } else {
        k := MatchSplit(inClass, if ts[0] == Star then ts else ts[1..], us, s[1..]);
        assert s[..k + 1][1..] == s[1..][..k] && s[k + 1..] == s[1..][k..];
        k := k + 1;
      }
    }
  }

  lemma {:induction false} MatchJoin(inClass: ClassTest, ts: seq<Token>, us: seq<Token>, s: string, t: string)
    requires Matches(inClass, ts, s) && Matches(inClass, us, t)
    ensures Matches(inClass, ts + us, s + t)
    decreases |ts| + |s|
  {
    if ts == [] {
      assert ts + us == us && s + t == t;
    } else {
      assert (ts + us)[1..] == ts[1..] + us;
      if ts[0] == Star && Matches(inClass, ts[1..], s) {
        MatchJoin(inClass, ts[1..], us, s, t);
      } else {
        assert (s + t)[1..] == s[1..] + t;
        MatchJoin(inClass, if ts[0] == Star then ts else ts[1..], us, s[1..], t);
      }
    }
  }

  // ---- literal tails ----------------------------------------------------------------------

  /** No character that opens a token of its own. */
  predicate Plain(s: string) {
    forall i | 0 <= i < |s| :: s[i] != '*' && s[i] != '?' && s[i] != '['
  }

  lemma {:induction false} PlainTokens(t: string)
    requires Plain(t)
    ensures Tokens(t) == Lits(t) && !LeavesOpen(t)
  {
    if t == "" {
    } else {
      PlainTokens(t[1..]);
      assert Next(t) == (Lit(t[0]), t[1..]);
      assert Lits(t) == [Lit(t[0])] + Lits(t[1..]);
    }
  }

  lemma ClassEndExtends(rest: string, t: string)
    ensures ClassEnd(rest) < |rest| ==> ClassEnd(rest + t) == ClassEnd(rest)
    ensures ClassEnd(rest) == |rest| && ']' !in t ==> ClassEnd(rest + t) == |rest + t|
  {
    var whole := rest + t;
    if ClassEnd(rest) < |rest| {
      assert BodyStart(whole) == BodyStart(rest);
      assert whole[ClassEnd(rest)] == ']';
    } else if ']' !in t {
      assert BodyStart(rest) <= BodyStart(whole);
      forall j | BodyStart(whole) <= j < |whole| ensures whole[j] != ']' {
        if j < |rest| {
          assert whole[j] == rest[j];
        } else {
          assert whole[j] == t[j - |rest|];
        }
      }
    }
  }

  lemma NextExtends(q: string, t: string)
    requires q != "" && !(OpensHere(q) && ']' in t)
    ensures Next(q + t) == (Next(q).0, Next(q).1 + t)
  {
    var rest := q[1..];
    assert (q + t)[1..] == rest + t;
    ClassEndExtends(rest, t);
    var k := ClassEnd(rest);
    if k < |rest| {
      assert (rest + t)[..k] == rest[..k] && (rest + t)[k + 1..] == rest[k + 1..] + t;
    }
  }

  /** A plain tail is read literally, unless it closes a bracket left open before it. */
  lemma {:induction false} PlainTail(q: string, t: string)
    requires Plain(t) && !(LeavesOpen(q) && ']' in t)
    ensures Tokens(q + t) == Tokens(q) + Lits(t)
    decreases |q|
  {
    if q == "" {
      PlainTokens(t);
      assert q + t == t;
    } else {
      NextExtends(q, t);
      PlainTail(Next(q).1, t);
    }
  }
}
