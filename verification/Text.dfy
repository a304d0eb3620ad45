// Splitting text at the first or the last occurrence of a character, as `partition` and
// `rpartition` do, and when such a split can be undone.
module Text {
  /** `s.partition(c)[0]`. */
  function Before(s: string, c: char): string {
    if s == "" || s[0] == c then "" else [s[0]] + Before(s[1..], c)
  }

  /** `s.partition(c)[2]`. */
  function After(s: string, c: char): string {
    if s == "" then "" else if s[0] == c then s[1..] else After(s[1..], c)
  }

  /** `s.rpartition(c)[0]`. */
  function BeforeLast(s: string, c: char): string {
    if s == "" then "" else if s[|s| - 1] == c then s[..|s| - 1] else BeforeLast(s[..|s| - 1], c)
  }

  /** `s.rsplit(c, 1)[-1]`. */
  function AfterLast(s: string, c: char): string {
    if s == "" || s[|s| - 1] == c then "" else AfterLast(s[..|s| - 1], c) + [s[|s| - 1]]
  }

  lemma {:induction false} AtFirst(a: string, c: char, b: string)
    requires c !in a
    ensures Before(a + [c] + b, c) == a && After(a + [c] + b, c) == b
    decreases |a|
  {
    var s := a + [c] + b;
    if a == "" {
      assert s[0] == c && s[1..] == b;
    } else {
      assert s[0] == a[0] && s[1..] == a[1..] + [c] + b;
      AtFirst(a[1..], c, b);
    }
  }

  lemma {:induction false} AtLast(a: string, c: char, b: string)
    requires c !in b
    ensures BeforeLast(a + [c] + b, c) == a && AfterLast(a + [c] + b, c) == b
    decreases |b|
  {
    var s := a + [c] + b;
    if b == "" {
      assert s[|s| - 1] == c && s[..|s| - 1] == a;
    } else {
      assert s[|s| - 1] == b[|b| - 1] && s[..|s| - 1] == a + [c] + b[..|b| - 1];
      AtLast(a, c, b[..|b| - 1]);
    }
  }

  lemma {:induction false} Nowhere(s: string, c: char)
    requires c !in s
    ensures Before(s, c) == s && After(s, c) == "" && AfterLast(s, c) == s && BeforeLast(s, c) == ""
  {
    NowhereFirst(s, c);
    NowhereLast(s, c);
  }

  lemma {:induction false} NowhereFirst(s: string, c: char)
    requires c !in s
    ensures Before(s, c) == s && After(s, c) == ""
  {
    if s == "" {
    } else {
      NowhereFirst(s[1..], c);
      assert s == [s[0]] + s[1..];
    }
  }

  lemma {:induction false} NowhereLast(s: string, c: char)
    requires c !in s
    ensures AfterLast(s, c) == s && BeforeLast(s, c) == ""
  {
    if s == "" {
    } else {
      NowhereLast(s[..|s| - 1], c);
      assert s == s[..|s| - 1] + [s[|s| - 1]];
    }
  }

  /** A character that occurs splits the text at its first occurrence. */
  lemma {:induction false} FirstSplit(s: string, c: char)
    requires c in s
    ensures s == Before(s, c) + [c] + After(s, c) && c !in Before(s, c)
  {
    if s[0] != c {
      FirstSplit(s[1..], c);
      assert s == [s[0]] + s[1..];
    } else {
      assert s == [c] + s[1..];
    }
  }

  /** And at its last. */
  lemma {:induction false} LastSplit(s: string, c: char)
    requires c in s
    ensures s == BeforeLast(s, c) + [c] + AfterLast(s, c) && c !in AfterLast(s, c)
  {
    var n := |s| - 1;
    assert s == s[..n] + [s[n]];
    if s[n] != c {
      LastSplit(s[..n], c);
    }
  }

  lemma {:induction false} AfterLastIsPart(s: string, c: char)
    ensures c !in AfterLast(s, c) && forall d :: d in AfterLast(s, c) ==> d in s
  {
    if c in s {
      LastSplit(s, c);
    } else {
      Nowhere(s, c);
    }
  }

  /** More text at the end does not move the first occurrence. */
  lemma {:induction false} FirstStays(s: string, c: char, more: string)
    requires c in s
    ensures Before(s + more, c) == Before(s, c) && After(s + more, c) == After(s, c) + more
  {
    var a, b := Before(s, c), After(s, c);
    FirstSplit(s, c);
    Regroup(a, [c], b, more);
    AtFirst(a, c, b + more);
  }

  lemma Regroup(a: string, b: string, c: string, d: string)
    ensures (a + b + c) + d == a + b + (c + d)
  {
  }
}
