// Dropping trailing commas from JSON.
module Jsonc {
  // The looser syntax of JSON with comments; string literals are left untouched.

  import opened Basics

  // ---- the two patterns ------------------------------------------------------------------

  /** `\s` on text. */
  predicate IsSpace(c: char) {
    var u := c as int;
    || 0x09 <= u <= 0x0d || 0x1c <= u <= 0x20 || u == 0x85 || u == 0xa0 || u == 0x1680
    || 0x2000 <= u <= 0x200a || u == 0x2028 || u == 0x2029 || u == 0x202f || u == 0x205f || u == 0x3000
  }

  predicate IsCloser(c: char) {
    c == '}' || c == ']'
  }

  /** `\s*[}\]]` at the front. */
  predicate ClosesNext(s: string) {
    s != "" && (IsCloser(s[0]) || (IsSpace(s[0]) && ClosesNext(s[1..])))
  }

  /** `_TRAILING_COMMA_RE.sub("", s)`. */
  function DropCommas(s: string): string {
    if s == "" then ""
    else if s[0] == ',' && ClosesNext(s[1..]) then DropCommas(s[1..])
    else [s[0]] + DropCommas(s[1..])
  }

  /** How much of `s`, read from inside a string literal, runs up to and over its closing quote.
      A backslash escapes anything but a newline. */
  function LiteralRest(s: string): (n: Option<nat>)
    ensures n.Some? ==> 1 <= n.value <= |s|
  {
    if s == "" then None
    else if s[0] == '"' then Some(1)
    else if s[0] == '\\' then
      if |s| < 2 || s[1] == '\n' then None
      else match LiteralRest(s[2..]) case None => None case Some(n) => Some(n + 2)
    else match LiteralRest(s[1..]) case None => None case Some(n) => Some(n + 1)
  }

  /** Where the first string literal starts and ends. An unterminated quote is skipped. */
  function FirstLiteral(s: string): (r: Option<(nat, nat)>)
    ensures r.Some? ==> r.value.0 < r.value.1 <= |s|
  {
    if s == "" then None
    else if s[0] == '"' && LiteralRest(s[1..]).Some? then Some((0, 1 + LiteralRest(s[1..]).value))
    else match FirstLiteral(s[1..]) case None => None case Some((a, b)) => Some((a + 1, b + 1))
  }

  // ---- the stripper -----------------------------------------------------------------------

  function Strip(text: string): string
    decreases |text|
  {
    match FirstLiteral(text)
    case None => DropCommas(text)
    case Some((a, b)) => DropCommas(text[..a]) + text[a..b] + Strip(text[b..])
  }

  function Joined(parts: seq<string>): string {
    if parts == [] then "" else Joined(parts[..|parts| - 1]) + parts[|parts| - 1]
  }

  method StripTrailingCommas(text: string) returns (r: string)
    ensures r == Strip(text)
  {
    var out: seq<string> := [];
    var last := 0;
    var m := FirstLiteral(text);
    assert text[0..] == text;
    while m.Some?
      invariant last <= |text| && m == FirstLiteral(text[last..])
      invariant Joined(out) + Strip(text[last..]) == Strip(text)
      decreases |text| - last
    {
      var (a, b) := m.value;
      ghost var rest := text[last..];
      var before, literal := text[last..last + a], text[last + a..last + b];
      SameSlices(text, last, a, b);
      StripStep(Joined(out), rest, a, b);
      JoinedTwo(out, DropCommas(before), literal);
      out := out + [DropCommas(before)] + [literal];
      last := last + b;
      m := FirstLiteral(text[last..]);
    }
    out := out + [DropCommas(text[last..])];
    r := Joined(out);
  }

  lemma SameSlices(text: string, last: nat, a: nat, b: nat)
    requires last <= |text| && a <= b <= |text| - last
    ensures text[last..][..a] == text[last..last + a] && text[last..][a..b] == text[last + a..last + b]
    ensures text[last..][b..] == text[last + b..]
  {
  }

  lemma {:induction false} StripStep(done: string, rest: string, a: nat, b: nat)
    requires FirstLiteral(rest) == Some((a, b))
    ensures done + Strip(rest) == done + DropCommas(rest[..a]) + rest[a..b] + Strip(rest[b..])
  {
  }

  lemma {:induction false} JoinedTwo(out: seq<string>, x: string, y: string)
    ensures Joined(out + [x] + [y]) == Joined(out) + x + y
  {
    assert (out + [x] + [y])[..|out| + 1] == out + [x];
    assert (out + [x])[..|out|] == out;
  }

  // ---- printed tokens ------------------------------------------------------------------------

  datatype Token = Space(ws: string) | Punct(c: char) | Atom(text: string) | Literal(body: string)

  predicate IsPunct(c: char) {
    c == ',' || c == ':' || c == '[' || c == '{' || IsCloser(c)
  }

  /** A character of a number or of true, false, null. */
  predicate IsPlain(c: char) {
    c != '"' && !IsPunct(c) && !IsSpace(c)
  }

  /** The inside of a string literal: no bare quote, no dangling backslash. */
  predicate IsLiteralBody(s: string) {
    s == ""
    || (if s[0] == '\\' then |s| >= 2 && s[1] != '\n' && IsLiteralBody(s[2..])
        else s[0] != '"' && IsLiteralBody(s[1..]))
  }

  predicate AllSpace(s: string) {
    forall i | 0 <= i < |s| :: IsSpace(s[i])
  }

  predicate AllPlain(s: string) {
    forall i | 0 <= i < |s| :: IsPlain(s[i])
  }

  /** None of its characters start a literal or are a comma. */
  predicate Inert(s: string) {
    forall i | 0 <= i < |s| :: s[i] != '"' && s[i] != ','
  }

  predicate IsToken(t: Token) {
    match t
    case Space(ws) => AllSpace(ws)
    case Punct(c) => IsPunct(c)
    case Atom(text) => text != "" && AllPlain(text)
    case Literal(body) => IsLiteralBody(body)
  }

  function Show(t: Token): string {
    match t
    case Space(ws) => ws
    case Punct(c) => [c]
    case Atom(text) => text
    case Literal(body) => "\"" + body + "\""
  }

  function Print(ts: seq<Token>): string {
    if ts == [] then "" else Show(ts[0]) + Print(ts[1..])
  }

  /** The next token other than white space closes something. */
  predicate ClosesAfter(ts: seq<Token>) {
    ts != [] && (if ts[0].Space? then ClosesAfter(ts[1..]) else ts[0].Punct? && IsCloser(ts[0].c))
  }

  /** The same tokens without the commas that stand before a closing bracket. */
  function WithoutTrailing(ts: seq<Token>): seq<Token> {
    if ts == [] then []
    else if ts[0] == Punct(',') && ClosesAfter(ts[1..]) then WithoutTrailing(ts[1..])
    else [ts[0]] + WithoutTrailing(ts[1..])
  }

  ghost predicate AreTokens(ts: seq<Token>) {
    forall i | 0 <= i < |ts| :: IsToken(ts[i])
  }

  ghost predicate NoLiterals(ts: seq<Token>) {
    forall i | 0 <= i < |ts| :: !ts[i].Literal?
  }

  lemma {:induction false} SpaceIsTransparent(ws: string, s: string)
    requires AllSpace(ws)
    ensures ClosesNext(ws + s) == ClosesNext(s)
    decreases |ws|
  {
    if ws == "" {
      assert ws + s == s;
    } else {
      assert (ws + s)[1..] == ws[1..] + s;
      SpaceIsTransparent(ws[1..], s);
    }
  }

  /** Text without commas passes through. */
  lemma {:induction false} CommalessStays(a: string, s: string)
    requires Inert(a)
    ensures DropCommas(a + s) == a + DropCommas(s)
    decreases |a|
  {
    if a == "" {
      assert a + s == s;
    } else {
      assert (a + s)[1..] == a[1..] + s;
      CommalessStays(a[1..], s);
    }
  }

  lemma {:induction false} ClosesPrinted(ts: seq<Token>)
    requires AreTokens(ts)
    ensures ClosesNext(Print(ts)) == ClosesAfter(ts)
  {
    if ts == [] {
    } else {
      var t, rest := ts[0], Print(ts[1..]);
      match t
      case Space(ws) =>
        ClosesPrinted(ts[1..]);
        SpaceIsTransparent(ws, rest);
      case Punct(c) => assert ([c] + rest)[0] == c;
      case Atom(text) =>
        assert (text + rest)[0] == text[0];
        assert IsPlain(text[0]);
      case Literal(body) => assert ("\"" + body + "\"" + rest)[0] == '"';
    }
  }

  lemma ShowIsInert(t: Token)
    requires IsToken(t) && !t.Literal? && t != Punct(',')
    ensures Inert(Show(t))
  {
  }

  /** Between literals, dropping commas from the text is dropping tokens. */
  lemma {:induction false} SegmentPrinted(ts: seq<Token>)
    requires AreTokens(ts) && NoLiterals(ts)
    ensures DropCommas(Print(ts)) == Print(WithoutTrailing(ts))
  {
    if ts == [] {
    } else {
      var t, rest := ts[0], Print(ts[1..]);
      SegmentPrinted(ts[1..]);
      if t == Punct(',') {
        ClosesPrinted(ts[1..]);
        assert ([','] + rest)[1..] == rest;
      } else {
        ShowIsInert(t);
        CommalessStays(Show(t), rest);
      }
    }
  }

  lemma {:induction false} LiteralRead(body: string, s: string)
    requires IsLiteralBody(body)
    ensures LiteralRest(body + "\"" + s) == Some(|body| + 1)
    decreases |body|
  {
    var all := body + "\"" + s;
    if body == "" {
      assert all[0] == '"';
    } else if body[0] == '\\' {
      assert all[0] == '\\' && all[1] == body[1] && all[2..] == body[2..] + "\"" + s;
      LiteralRead(body[2..], s);
    } else {
      assert all[0] == body[0] && all[1..] == body[1..] + "\"" + s;
      LiteralRead(body[1..], s);
    }
  }

  predicate Quoteless(s: string) {
    forall i | 0 <= i < |s| :: s[i] != '"'
  }

  lemma {:induction false} NoQuoteBefore(a: string, s: string)
    requires Quoteless(a)
    ensures FirstLiteral(a + s) == match FirstLiteral(s) case None => None case Some((i, j)) => Some((|a| + i, |a| + j))
    decreases |a|
  {
    if a == "" {
      assert a + s == s;
    } else {
      assert (a + s)[1..] == a[1..] + s;
      NoQuoteBefore(a[1..], s);
    }
  }

  lemma {:induction false} QuotelessPrinted(ts: seq<Token>)
    requires AreTokens(ts) && NoLiterals(ts)
    ensures Quoteless(Print(ts))
  {
    if ts == [] {
    } else {
      QuotelessPrinted(ts[1..]);
      if ts[0] != Punct(',') {
        ShowIsInert(ts[0]);
      }
    }
  }

  lemma {:induction false} PrintConcat(a: seq<Token>, b: seq<Token>)
    ensures Print(a + b) == Print(a) + Print(b)
    decreases |a|
  {
    if a == [] {
      assert a + b == b;
    } else {
      assert (a + b)[1..] == a[1..] + b;
      PrintConcat(a[1..], b);
    }
  }

  /** A literal ends the stretch in which a comma can see a closing bracket. */
  lemma {:induction false} LiteralSeparates(a: seq<Token>, body: string, b: seq<Token>)
    ensures ClosesAfter(a + [Literal(body)] + b) == ClosesAfter(a)
    ensures WithoutTrailing(a + [Literal(body)] + b) == WithoutTrailing(a) + [Literal(body)] + WithoutTrailing(b)
    decreases |a|
  {
    var all := a + [Literal(body)] + b;
    if a == [] {
      assert all[0] == Literal(body) && all[1..] == b;
    } else {
      assert all[0] == a[0] && all[1..] == a[1..] + [Literal(body)] + b;
      LiteralSeparates(a[1..], body, b);
    }
  }

  lemma {:induction false} PrintAround(a: seq<Token>, t: Token, b: seq<Token>)
    ensures Print(a + [t] + b) == Print(a) + (Show(t) + Print(b))
  {
    assert a + [t] + b == a + ([t] + b) && ([t] + b)[1..] == b;
    PrintConcat(a, [t] + b);
  }

  lemma {:induction false} LiteralAtFront(s: string, body: string, y: string)
    requires IsLiteralBody(body) && s != "" && s[0] == '"' && s[1..] == body + "\"" + y
    ensures FirstLiteral(s) == Some((0, |body| + 2))
  {
    LiteralRead(body, y);
  }

  lemma ShownTail(body: string, y: string)
    ensures (Show(Literal(body)) + y)[0] == '"' && (Show(Literal(body)) + y)[1..] == body + "\"" + y
  {
  }

  lemma {:induction false} ShownIsFirst(body: string, y: string)
    requires IsLiteralBody(body)
    ensures FirstLiteral(Show(Literal(body)) + y) == Some((0, |Show(Literal(body))|))
  {
    ShownTail(body, y);
    LiteralAtFront(Show(Literal(body)) + y, body, y);
  }

  /** Text, a literal, and more: stripped piece by piece. */
  lemma {:induction false} StripAround(x: string, lit: string, y: string)
    requires Quoteless(x) && FirstLiteral(lit + y) == Some((0, |lit|))
    ensures Strip(x + (lit + y)) == DropCommas(x) + (lit + Strip(y))
  {
    NoQuoteBefore(x, lit + y);
    StripStep("", x + (lit + y), |x|, |x| + |lit|);
    ThreePieces(x, lit, y);
  }

  lemma ThreePieces(x: string, lit: string, y: string)
    ensures var text := x + (lit + y);
            text[..|x|] == x && text[|x|..|x| + |lit|] == lit && text[|x| + |lit|..] == y
  {
  }

  /** `a` is what has been read since the last literal. */
  lemma {:induction false} StripPrintedFrom(a: seq<Token>, ts: seq<Token>)
    requires AreTokens(a) && NoLiterals(a) && AreTokens(ts)
    ensures Strip(Print(a + ts)) == Print(WithoutTrailing(a + ts))
    decreases |ts|
  {
    if ts == [] {
      assert a + ts == a;
      OneSegment(a);
    } else if ts[0].Literal? {
      var body, rest := ts[0].body, ts[1..];
      assert a + ts == a + [Literal(body)] + rest;
      StripPrintedFrom([], rest);
      assert [] + rest == rest;
      LiteralStep(a, body, rest);
    } else {
      assert a + ts == (a + [ts[0]]) + ts[1..];
      StripPrintedFrom(a + [ts[0]], ts[1..]);
    }
  }

  lemma {:induction false} OneSegment(a: seq<Token>)
    requires AreTokens(a) && NoLiterals(a)
    ensures Strip(Print(a)) == Print(WithoutTrailing(a))
  {
    QuotelessPrinted(a);
    SegmentPrinted(a);
    NoQuoteBefore(Print(a), "");
    assert Print(a) + "" == Print(a);
  }

  lemma {:induction false} LiteralStep(a: seq<Token>, body: string, rest: seq<Token>)
    requires AreTokens(a) && NoLiterals(a) && IsLiteralBody(body)
    requires Strip(Print(rest)) == Print(WithoutTrailing(rest))
    ensures Strip(Print(a + [Literal(body)] + rest)) == Print(WithoutTrailing(a + [Literal(body)] + rest))
  {
    QuotelessPrinted(a);
    SegmentPrinted(a);
    PrintAround(a, Literal(body), rest);
    ShownIsFirst(body, Print(rest));
    StripAround(Print(a), Show(Literal(body)), Print(rest));
    LiteralSeparates(a, body, rest);
    PrintAround(WithoutTrailing(a), Literal(body), WithoutTrailing(rest));
  }

  /** On any printed tokens, the stripper drops exactly the commas before a closing bracket and
      leaves every literal as it is. */
  lemma {:induction false} StripPrinted(ts: seq<Token>)
    requires AreTokens(ts)
    ensures Strip(Print(ts)) == Print(WithoutTrailing(ts))
  {
    StripPrintedFrom([], ts);
    assert [] + ts == ts;
  }

  // ---- printed values --------------------------------------------------------------------------

  /** A JSON value with the white space of one printing of it, and for each array or object
      whether a trailing comma is written. */
  datatype Value =
    | Scalar(text: string)
    | Text(body: string)
    | Group(square: bool, lead: string, items: seq<Item>, trailing: bool)

  /** A member or an element: white space before and after its value and after its comma. */
  datatype Item = Item(key: Option<Key>, value: Value, gap: string, after: string)

  datatype Key = Key(body: string, beforeColon: string, afterColon: string)

  ghost predicate WellFormed(v: Value) {
    match v
    case Scalar(text) => IsToken(Atom(text))
    case Text(body) => IsLiteralBody(body)
    case Group(_, lead, items, _) =>
      AllSpace(lead) && forall i | 0 <= i < |items| :: WellFormedItem(items[i])
  }

  ghost predicate WellFormedItem(it: Item) {
    && WellFormed(it.value) && AllSpace(it.gap) && AllSpace(it.after)
    && (it.key.Some? ==>
          IsLiteralBody(it.key.value.body) && AllSpace(it.key.value.beforeColon) && AllSpace(it.key.value.afterColon))
  }

  /** `commas` decides whether the trailing commas are written. */
  function Tokens(v: Value, commas: bool): seq<Token> {
    match v
    case Scalar(text) => [Atom(text)]
    case Text(body) => [Literal(body)]
    case Group(square, lead, items, trailing) =>
      [Punct(if square then '[' else '{'), Space(lead)]
      + (ItemTokens(items, commas && trailing, commas) + [Punct(if square then ']' else '}')])
  }

  function KeyTokens(key: Option<Key>): seq<Token> {
    if key.None? then []
    else [Literal(key.value.body), Space(key.value.beforeColon), Punct(':'), Space(key.value.afterColon)]
  }

  /** Items separated by commas; the last followed by one if `closing`. */
  function ItemTokens(items: seq<Item>, closing: bool, commas: bool): seq<Token> {
    if items == [] then []
    else
      var it := items[0];
      KeyTokens(it.key) + (Tokens(it.value, commas) + ([Space(it.gap)] + (
        (if |items| > 1 || closing then [Punct(',')] else [])
            + ([Space(it.after)] + ItemTokens(items[1..], closing, commas)))))
  }

  /** What a value prints to cannot close anything. */
  lemma {:induction false} ValueOpens(v: Value, commas: bool, suffix: seq<Token>)
    ensures !ClosesAfter(Tokens(v, commas) + suffix)
  {
  }

  lemma {:induction false} ItemOpens(it: Item, commas: bool, suffix: seq<Token>)
    ensures !ClosesAfter(KeyTokens(it.key) + (Tokens(it.value, commas) + suffix))
  {
    ValueOpens(it.value, commas, suffix);
    if it.key.None? {
      assert KeyTokens(it.key) + (Tokens(it.value, commas) + suffix) == Tokens(it.value, commas) + suffix;
    }
  }

  /** Tokens that are not commas pass through. */
  lemma {:induction false} KeepAll(a: seq<Token>, s: seq<Token>)
    requires forall i | 0 <= i < |a| :: a[i] != Punct(',')
    ensures WithoutTrailing(a + s) == a + WithoutTrailing(s)
    decreases |a|
  {
    if a == [] {
      assert a + s == s;
    } else {
      assert (a + s)[1..] == a[1..] + s;
      KeepAll(a[1..], s);
    }
  }

  lemma {:induction false} KeepOne(t: Token, s: seq<Token>)
    requires t != Punct(',')
    ensures WithoutTrailing([t] + s) == [t] + WithoutTrailing(s)
  {
    assert ([t] + s)[1..] == s;
  }

  lemma {:induction false} AtComma(s: seq<Token>)
    ensures WithoutTrailing([Punct(',')] + s)
            == if ClosesAfter(s) then WithoutTrailing(s) else [Punct(',')] + WithoutTrailing(s)
  {
    assert ([Punct(',')] + s)[1..] == s;
  }

  lemma {:induction false} PastSpace(ws: string, s: seq<Token>)
    ensures ClosesAfter([Space(ws)] + s) == ClosesAfter(s)
  {
    assert ([Space(ws)] + s)[1..] == s;
  }

  /** Dropping commas from a printed value drops its trailing commas and no others. */
  lemma {:induction false} ValueStripped(v: Value, commas: bool, suffix: seq<Token>)
    ensures WithoutTrailing(Tokens(v, commas) + suffix) == Tokens(v, false) + WithoutTrailing(suffix)
    decreases v
  {
    match v
    case Scalar(text) => KeepOne(Atom(text), suffix);
    case Text(body) => KeepOne(Literal(body), suffix);
    case Group(square, lead, items, trailing) =>
      var open, close := Punct(if square then '[' else '{'), Punct(if square then ']' else '}');
      ItemsStripped(items, commas && trailing, commas, [close] + suffix);
      KeepOne(close, suffix);
      KeepAll([open, Space(lead)], ItemTokens(items, commas && trailing, commas) + ([close] + suffix));
      Regroup([open, Space(lead)], ItemTokens(items, commas && trailing, commas), [close], suffix);
      Regroup([open, Space(lead)], ItemTokens(items, false, false), [close], WithoutTrailing(suffix));
  }

  lemma Regroup(a: seq<Token>, b: seq<Token>, c: seq<Token>, d: seq<Token>)
    ensures (a + (b + c)) + d == a + (b + (c + d))
  {
  }

  lemma {:induction false} ItemsStripped(items: seq<Item>, closing: bool, commas: bool, suffix: seq<Token>)
    requires ClosesAfter(suffix)
    ensures WithoutTrailing(ItemTokens(items, closing, commas) + suffix)
            == ItemTokens(items, false, false) + WithoutTrailing(suffix)
    decreases items
  {
    if items == [] {
      assert ItemTokens(items, closing, commas) + suffix == suffix;
    } else {
      var it, rest := items[0], ItemTokens(items[1..], closing, commas);
      ItemsStripped(items[1..], closing, commas, suffix);
      CommaStripped(items, closing, commas, suffix);
      var tail := TailTokens(items, closing, commas) + suffix;
      KeepOne(Space(it.gap), tail);
      ValueStripped(it.value, commas, [Space(it.gap)] + tail);
      KeepAll(KeyTokens(it.key), Tokens(it.value, commas) + ([Space(it.gap)] + tail));
      ItemSplit(items, closing, commas, suffix);
      ItemSplit(items, false, false, WithoutTrailing(suffix));
    }
  }

  /** What follows the white space after the first item's value. */
  function TailTokens(items: seq<Item>, closing: bool, commas: bool): seq<Token>
    requires items != []
  {
    (if |items| > 1 || closing then [Punct(',')] else [])
        + ([Space(items[0].after)] + ItemTokens(items[1..], closing, commas))
  }

  lemma {:induction false} ItemSplit(items: seq<Item>, closing: bool, commas: bool, s: seq<Token>)
    requires items != []
    ensures ItemTokens(items, closing, commas) + s
         == KeyTokens(items[0].key) + (Tokens(items[0].value, commas)
            + ([Space(items[0].gap)] + (TailTokens(items, closing, commas) + s)))
  {
  }

  lemma {:induction false} CommaKept(ws: string, rest: seq<Token>)
    requires !ClosesAfter(rest)
    ensures WithoutTrailing([Punct(',')] + ([Space(ws)] + rest)) == [Punct(',')] + ([Space(ws)] + WithoutTrailing(rest))
  {
    KeepOne(Space(ws), rest);
    PastSpace(ws, rest);
    AtComma([Space(ws)] + rest);
  }

  lemma {:induction false} CommaDropped(closing: bool, ws: string, rest: seq<Token>)
    requires ClosesAfter(rest)
    ensures WithoutTrailing((if closing then [Punct(',')] else []) + ([Space(ws)] + rest))
            == [Space(ws)] + WithoutTrailing(rest)
  {
    KeepOne(Space(ws), rest);
    PastSpace(ws, rest);
    AtComma([Space(ws)] + rest);
    assert [] + ([Space(ws)] + rest) == [Space(ws)] + rest;
  }

  lemma {:induction false} TailSplit(items: seq<Item>, closing: bool, commas: bool, s: seq<Token>)
    requires items != []
    ensures TailTokens(items, closing, commas) + s
         == (if |items| > 1 || closing then [Punct(',')] else [])
            + ([Space(items[0].after)] + (ItemTokens(items[1..], closing, commas) + s))
  {
  }

  /** A comma between items stays; one after the last goes. */
  lemma {:induction false} CommaStripped(items: seq<Item>, closing: bool, commas: bool, suffix: seq<Token>)
    requires items != [] && ClosesAfter(suffix)
    requires WithoutTrailing(ItemTokens(items[1..], closing, commas) + suffix)
          == ItemTokens(items[1..], false, false) + WithoutTrailing(suffix)
    ensures WithoutTrailing(TailTokens(items, closing, commas) + suffix)
         == TailTokens(items, false, false) + WithoutTrailing(suffix)
  {
    var ws, rest := items[0].after, ItemTokens(items[1..], closing, commas) + suffix;
    TailSplit(items, closing, commas, suffix);
    TailSplit(items, false, false, WithoutTrailing(suffix));
    if |items| > 1 {
      RestOpens(items[1..], closing, commas, suffix);
      CommaKept(ws, rest);
    } else {
      NoItems(closing, commas, suffix);
      CommaDropped(closing, ws, rest);
      assert [] + ([Space(ws)] + WithoutTrailing(rest)) == [Space(ws)] + WithoutTrailing(rest);
    }
  }

  lemma {:induction false} RestOpens(items: seq<Item>, closing: bool, commas: bool, suffix: seq<Token>)
    requires items != []
    ensures !ClosesAfter(ItemTokens(items, closing, commas) + suffix)
  {
    ItemSplit(items, closing, commas, suffix);
    ItemOpens(items[0], commas, [Space(items[0].gap)] + (TailTokens(items, closing, commas) + suffix));
  }

  lemma {:induction false} NoItems(closing: bool, commas: bool, suffix: seq<Token>)
    ensures ItemTokens([], closing, commas) + suffix == suffix
  {
  }

  lemma {:induction false} ValueTokens(v: Value, commas: bool)
    requires WellFormed(v)
    ensures AreTokens(Tokens(v, commas))
    decreases v
  {
    if v.Group? {
      ItemsTokens(v.items, commas && v.trailing, commas);
    }
  }

  lemma {:induction false} ItemsTokens(items: seq<Item>, closing: bool, commas: bool)
    requires forall i | 0 <= i < |items| :: WellFormedItem(items[i])
    ensures AreTokens(ItemTokens(items, closing, commas))
    decreases items
  {
    if items == [] {
    } else {
      ValueTokens(items[0].value, commas);
      ItemsTokens(items[1..], closing, commas);
    }
  }

  /** A document: a value between white space. */
  function Document(before: string, v: Value, after: string, commas: bool): string {
    Print([Space(before)] + (Tokens(v, commas) + [Space(after)]))
  }

  /** However a value is laid out and wherever it has trailing commas, stripping its printing
      gives the same printing without them. */
  lemma {:induction false} DocumentStripped(before: string, v: Value, after: string, commas: bool)
    requires WellFormed(v) && AllSpace(before) && AllSpace(after)
    ensures Strip(Document(before, v, after, commas)) == Document(before, v, after, false)
  {
    var ts := [Space(before)] + (Tokens(v, commas) + [Space(after)]);
    ValueTokens(v, commas);
    StripPrinted(ts);
    KeepOne(Space(before), Tokens(v, commas) + [Space(after)]);
    ValueStripped(v, commas, [Space(after)]);
    KeepOne(Space(after), []);
    assert [Space(after)] + [] == [Space(after)];
  }

  // ---- JSON of the standard ----------------------------------------------------------------------

  /** White space, section 2 of RFC 8259. */
  predicate IsJsonSpace(c: char) {
    c == ' ' || c == '\t' || c == '\n' || c == '\r'
  }

  /** A character of a number, section 6, or of one of the three literal names, section 3. */
  predicate IsScalarChar(c: char) {
    '0' <= c <= '9' || 'a' <= c <= 'z' || c == 'E' || c == '+' || c == '-' || c == '.'
  }

  /** The inside of a string, section 7. */
  predicate IsJsonBody(s: string) {
    s == ""
    || (if s[0] == '\\' then |s| >= 2 && s[1] in "\"\\/bfnrtu" && IsJsonBody(s[2..])
        else s[0] != '"' && s[0] >= ' ' && IsJsonBody(s[1..]))
  }

  predicate AllJsonSpace(s: string) {
    forall i | 0 <= i < |s| :: IsJsonSpace(s[i])
  }

  ghost predicate IsJson(v: Value) {
    match v
    case Scalar(text) => text != "" && forall i | 0 <= i < |text| :: IsScalarChar(text[i])
    case Text(body) => IsJsonBody(body)
    case Group(_, lead, items, _) => AllJsonSpace(lead) && forall i | 0 <= i < |items| :: IsJsonItem(items[i])
  }

  ghost predicate IsJsonItem(it: Item) {
    && IsJson(it.value) && AllJsonSpace(it.gap) && AllJsonSpace(it.after)
    && (it.key.Some? ==> && IsJsonBody(it.key.value.body) && AllJsonSpace(it.key.value.beforeColon)
                         && AllJsonSpace(it.key.value.afterColon))
  }

  lemma {:induction false} JsonBody(s: string)
    requires IsJsonBody(s)
    ensures IsLiteralBody(s)
  {
    if s == "" {
    } else if s[0] == '\\' {
      JsonBody(s[2..]);
    } else {
      JsonBody(s[1..]);
    }
  }

  lemma {:induction false} JsonIsWellFormed(v: Value)
    requires IsJson(v)
    ensures WellFormed(v)
  {
    match v
    case Scalar(text) =>
      forall i | 0 <= i < |text| ensures IsPlain(text[i]) {
        assert IsScalarChar(text[i]);
      }
    case Text(body) => JsonBody(body);
    case Group(_, _, items, _) =>
      forall i | 0 <= i < |items| ensures WellFormedItem(items[i]) {
        JsonItem(items[i]);
      }
  }

  lemma {:induction false} JsonItem(it: Item)
    requires IsJsonItem(it)
    ensures WellFormedItem(it)
  {
    JsonIsWellFormed(it.value);
    if it.key.Some? {
      JsonBody(it.key.value.body);
    }
  }

  /** So for any value of the standard, in any layout of its white space. */
  lemma {:induction false} JsonStripped(before: string, v: Value, after: string, commas: bool)
    requires IsJson(v) && AllJsonSpace(before) && AllJsonSpace(after)
    ensures Strip(Document(before, v, after, commas)) == Document(before, v, after, false)
  {
    JsonIsWellFormed(v);
    DocumentStripped(before, v, after, commas);
  }
}
