// The order Python gives to strings and byte strings, and sorting by it, for every loop that
// runs over sorted keys.
module Order {
  /** Code-point (or byte-value) lexicographic order, a proper prefix being smaller. */
  predicate LexLe(a: seq<int>, b: seq<int>) {
    a == [] || (b != [] && (a[0] < b[0] || (a[0] == b[0] && LexLe(a[1..], b[1..]))))
  }

  lemma {:induction false} LexTotal(a: seq<int>, b: seq<int>)
    ensures LexLe(a, b) || LexLe(b, a)
    ensures LexLe(a, b) && LexLe(b, a) ==> a == b
  {
    if a != [] && b != [] {
      LexTotal(a[1..], b[1..]);
      assert a == [a[0]] + a[1..] && b == [b[0]] + b[1..];
    }
  }

  lemma {:induction false} LexTrans(a: seq<int>, b: seq<int>, c: seq<int>)
    requires LexLe(a, b) && LexLe(b, c)
    ensures LexLe(a, c)
  {
    if a != [] && a[0] == b[0] == c[0] {
      LexTrans(a[1..], b[1..], c[1..]);
    }
  }

  lemma {:induction false} LexSelf(a: seq<int>)
    ensures LexLe(a, a)
  {
    if a == [] {
    } else {
      LexSelf(a[1..]);
    }
  }

  function Codes(s: string): (c: seq<int>)
    ensures |c| == |s|
  {
    seq(|s|, i requires 0 <= i < |s| => s[i] as int)
  }

  lemma CodesInjective(s: string, t: string)
    requires Codes(s) == Codes(t)
    ensures s == t
  {
    forall i | 0 <= i < |s| ensures s[i] == t[i] {
      assert Codes(s)[i] == Codes(t)[i];
    }
  }

  predicate StrLe(s: string, t: string) {
    LexLe(Codes(s), Codes(t))
  }

  lemma StrTotal(s: string, t: string)
    ensures StrLe(s, t) || StrLe(t, s)
    ensures StrLe(s, t) && StrLe(t, s) ==> s == t
  {
    LexTotal(Codes(s), Codes(t));
    if Codes(s) == Codes(t) {
      CodesInjective(s, t);
    }
  }

  lemma StrTrans(s: string, t: string, u: string)
    requires StrLe(s, t) && StrLe(t, u)
    ensures StrLe(s, u)
  {
    LexTrans(Codes(s), Codes(t), Codes(u));
  }

  predicate IsLeast(m: string, names: set<string>) {
    m in names && forall s <- names :: StrLe(m, s)
  }

  lemma {:induction false} LeastExists(names: set<string>)
    requires names != {}
    ensures exists m :: IsLeast(m, names)
  {
    var x :| x in names;
    if names == {x} {
      StrTotal(x, x);
      assert IsLeast(x, names);
    } else {
      LeastExists(names - {x});
      var m :| IsLeast(m, names - {x});
      StrTotal(x, m);
      if StrLe(m, x) {
        assert IsLeast(m, names);
      } else {
        StrTotal(x, x);
        forall s <- names ensures StrLe(x, s) {
          if s != x {
            StrTrans(x, m, s);
          }
        }
        assert IsLeast(x, names);
      }
    }
  }

  lemma LeastUnique(names: set<string>)
    ensures forall m, k | IsLeast(m, names) && IsLeast(k, names) :: m == k
  {
    forall m, k | IsLeast(m, names) && IsLeast(k, names) ensures m == k {
      StrTotal(m, k);
    }
  }

  function Least(names: set<string>): (m: string)
    requires names != {}
    ensures IsLeast(m, names)
  {
    LeastExists(names);
    LeastUnique(names);
    var m :| IsLeast(m, names);
    m
  }

  predicate StrictlyAscending(s: seq<string>) {
    s == [] || ((forall t <- s[1..] :: StrLe(s[0], t) && t != s[0]) && StrictlyAscending(s[1..]))
  }

  /** `sorted(names)` of a set of strings. */
  function SortedNames(names: set<string>): (r: seq<string>)
    ensures forall s :: s in r <==> s in names
    ensures StrictlyAscending(r)
  {
    if names == {} then [] else
      var m := Least(names);
      var rest := SortedNames(names - {m});
      assert ([m] + rest)[1..] == rest;
      [m] + rest
  }

  // ---- natural numbers ---------------------------------------------------------------------------

  ghost predicate Ascending(s: seq<nat>) {
    forall i, j | 0 <= i < j < |s| :: s[i] < s[j]
  }

  /** `sorted(s)` of a set of natural numbers. */
  method SortedNats(s: set<nat>) returns (r: seq<nat>)
    ensures Ascending(r) && forall x :: x in r <==> x in s
  {
    r := [];
    var left := s;
    while left != {}
      invariant left <= s && Ascending(r)
      invariant forall x :: x in r <==> x in s && x !in left
      invariant forall i, y | 0 <= i < |r| && y in left :: r[i] < y
      decreases |left|
    {
      var least := LeastNat(left);
      assert forall x :: x in r + [least] <==> x in r || x == least;
      r, left := r + [least], left - {least};
    }
  }

  method LeastNat(s: set<nat>) returns (least: nat)
    requires s != {}
    ensures least in s && forall x :: x in s ==> least <= x
  {
    least :| least in s;
    var left := s - {least};
    while left != {}
      invariant left <= s && least in s && forall x :: x in s && x !in left ==> least <= x
      decreases |left|
    {
      var x :| x in left;
      left := left - {x};
      if x < least {
        least := x;
      }
    }
  }

  /** A set has one sorted enumeration. */
  lemma {:induction false} SameAscending(a: seq<nat>, b: seq<nat>)
    requires Ascending(a) && Ascending(b) && forall x: nat :: x in a <==> x in b
    ensures a == b
    decreases |a|
  {
    assert a != [] ==> a[0] in b;
    assert b != [] ==> b[0] in a;
    if a == [] {
    } else {
      assert a[0] == b[0];
      forall x: nat ensures x in a[1..] <==> x in b[1..] {
        assert x in a <==> x == a[0] || x in a[1..];
        assert x in b <==> x == b[0] || x in b[1..];
      }
      SameAscending(a[1..], b[1..]);
      assert a == [a[0]] + a[1..] && b == [b[0]] + b[1..];
    }
  }
}
