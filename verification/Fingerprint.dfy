// Function shapes in machine code: splitting at prologues, masking operands, hashing.
module Fingerprint {
  import opened Basics
  import opened Order

  // ---- boundaries ------------------------------------------------------------------------

  const PROLOGUES: seq<Bytes> := [[0x55, 0x48, 0x89, 0xe5], [0x48, 0x83, 0xec], [0xf3, 0x0f, 0x1e, 0xfa]]

  const RET: Byte := 0xC3

  predicate MatchesAt(code: Bytes, pattern: Bytes, at: nat) {
    at + |pattern| <= |code| && code[at..at + |pattern|] == pattern
  }

  ghost predicate IsCut(code: Bytes, before: Bytes, pattern: Bytes, after: Bytes) {
    code == before + pattern + after
  }

  /** The pattern stands in the code behind so many bytes. */
  ghost predicate Stands(code: Bytes, pattern: Bytes, at: nat) {
    exists before, after :: IsCut(code, before, pattern, after) && |before| == at
  }

  lemma MatchesIff(code: Bytes, pattern: Bytes, at: nat)
    ensures MatchesAt(code, pattern, at) <==> Stands(code, pattern, at)
  {
    if MatchesAt(code, pattern, at) {
      assert IsCut(code, code[..at], pattern, code[at + |pattern|..]);
    }
    if before, after :| IsCut(code, before, pattern, after) && |before| == at {
      assert (before + pattern + after)[at..at + |pattern|] == pattern;
    }
  }

  ghost predicate NoMatch(code: Bytes, pattern: Bytes, lo: nat, hi: nat) {
    forall at {:trigger MatchesAt(code, pattern, at)} | lo <= at < hi :: !MatchesAt(code, pattern, at)
  }

  /** `code.find(pattern, from)`. */
  function Find(code: Bytes, pattern: Bytes, from: nat): Option<nat>
    decreases |code| + 1 - from
  {
    if from > |code| then None
    else if MatchesAt(code, pattern, from) then Some(from)
    else Find(code, pattern, from + 1)
  }

  lemma {:induction false} FindMeans(code: Bytes, pattern: Bytes, from: nat)
    ensures var r := Find(code, pattern, from);
            (r.Some? ==> from <= r.value && MatchesAt(code, pattern, r.value))
            && NoMatch(code, pattern, from, if r.Some? then r.value else |code| + 1)
    decreases |code| + 1 - from
  {
    if from <= |code| && !MatchesAt(code, pattern, from) {
      FindMeans(code, pattern, from + 1);
    }
  }

  /** One of the patterns starts here. */
  predicate IsStart(code: Bytes, patterns: seq<Bytes>, at: nat) {
    patterns != []
    && (IsStart(code, patterns[..|patterns| - 1], at) || MatchesAt(code, patterns[|patterns| - 1], at))
  }

  /** A function starts at `push rbp; mov rbp, rsp`, at `sub rsp` and at `endbr64`. */
  lemma {:induction false} StartIff(code: Bytes, at: nat)
    ensures IsStart(code, PROLOGUES, at)
       <==> || Stands(code, [0x55, 0x48, 0x89, 0xe5], at) || Stands(code, [0x48, 0x83, 0xec], at)
            || Stands(code, [0xf3, 0x0f, 0x1e, 0xfa], at)
  {
    StartStep(code, PROLOGUES[..2], PROLOGUES[2], at);
    StartStep(code, PROLOGUES[..1], PROLOGUES[1], at);
    StartStep(code, [], PROLOGUES[0], at);
    assert PROLOGUES[..2] + [PROLOGUES[2]] == PROLOGUES && PROLOGUES[..1] + [PROLOGUES[1]] == PROLOGUES[..2];
    assert [] + [PROLOGUES[0]] == PROLOGUES[..1];
  }

  lemma {:induction false} StartStep(code: Bytes, patterns: seq<Bytes>, pattern: Bytes, at: nat)
    ensures IsStart(code, patterns + [pattern], at) <==> IsStart(code, patterns, at) || Stands(code, pattern, at)
  {
    assert (patterns + [pattern])[..|patterns|] == patterns;
    MatchesIff(code, pattern, at);
  }

  /** Every position of a pattern, once, in order. */
  ghost predicate AreStarts(code: Bytes, patterns: seq<Bytes>, starts: seq<nat>) {
    Ascending(starts) && forall at: nat :: at in starts <==> IsStart(code, patterns, at)
  }

  /** Where the function at `start` ends: after the first return past its prologue, or at the
      next start. */
  function EndOf(code: Bytes, start: nat, next: nat): nat {
    var ret := match Find(code, [RET], start + 4) case Some(at) => at + 1 case None => |code|;
    if ret <= next then ret else next
  }

  function NextStart(code: Bytes, starts: seq<nat>, i: nat): nat {
    if i + 1 < |starts| then starts[i + 1] else |code|
  }

  function Boundaries(code: Bytes, starts: seq<nat>): seq<(nat, nat)> {
    FirstBoundaries(code, starts, |starts|)
  }

  function FirstBoundaries(code: Bytes, starts: seq<nat>, n: nat): (r: seq<(nat, nat)>)
    requires n <= |starts|
    ensures |r| == n && forall i | 0 <= i < n :: r[i] == (starts[i], EndOf(code, starts[i], NextStart(code, starts, i)))
  {
    if n == 0 then []
    else
      var start := starts[n - 1];
      FirstBoundaries(code, starts, n - 1) + [(start, EndOf(code, start, NextStart(code, starts, n - 1)))]
  }

  method FindAll(code: Bytes, pattern: Bytes) returns (found: set<nat>)
    requires pattern != []
    ensures forall at: nat {:trigger MatchesAt(code, pattern, at)} :: at in found <==> MatchesAt(code, pattern, at)
  {
    found := {};
    var idx := 0;
    while true
      invariant idx <= |code|
      invariant forall at: nat {:trigger MatchesAt(code, pattern, at)} ::
                  at in found <==> at < idx && MatchesAt(code, pattern, at)
      decreases |code| - idx
    {
      var next := Find(code, pattern, idx);
      FindMeans(code, pattern, idx);
      if next.None? {
        break;
      }
      found := found + {next.value};
      idx := next.value + 1;
    }
  }

  method FindStarts(code: Bytes, patterns: seq<Bytes>) returns (starts: seq<nat>)
    requires forall i | 0 <= i < |patterns| :: patterns[i] != []
    ensures AreStarts(code, patterns, starts)
  {
    var found: set<nat> := {};
    for i := 0 to |patterns|
      invariant forall at: nat {:trigger IsStart(code, patterns[..i], at)} ::
                  at in found <==> IsStart(code, patterns[..i], at)
    {
      var more := FindAll(code, patterns[i]);
      assert patterns[..i + 1][..i] == patterns[..i];
      found := found + more;
    }
    assert patterns[..|patterns|] == patterns;
    starts := SortedNats(found);
  }

  method FindBoundaries(code: Bytes) returns (out: seq<(nat, nat)>, ghost starts: seq<nat>)
    ensures AreStarts(code, PROLOGUES, starts) && out == Boundaries(code, starts)
  {
    var sorted := FindStarts(code, PROLOGUES);
    starts := sorted;
    out := [];
    for i := 0 to |sorted|
      invariant out == FirstBoundaries(code, sorted, i)
    {
      var ret := Find(code, [RET], sorted[i] + 4);
      var stop := if ret.Some? then ret.value + 1 else |code|;
      var next := if i + 1 < |sorted| then sorted[i + 1] else |code|;
      out := out + [(sorted[i], if stop <= next then stop else next)];
    }
  }

  // ---- masking -------------------------------------------------------------------------------

  /** Opcodes whose four following bytes are taken for an operand. */
  const OPERAND_OPCODES: set<Byte> := {0xE8, 0xE9, 0x8B, 0x89, 0x48, 0xC7, 0x05, 0x3D, 0x81}

  predicate TakesOperand(b: Byte) {
    b in OPERAND_OPCODES
  }

  function Zeros(n: nat): (r: Bytes)
    ensures |r| == n && forall i | 0 <= i < n :: r[i] == 0
  {
    seq(n, _ => 0)
  }

  /** How many of the first bytes one step of the sweep settles. */
  function Stride(body: Bytes): (n: nat)
    requires body != []
    ensures 1 <= n <= |body|
  {
    if !TakesOperand(body[0]) then 1 else if |body| < 5 then |body| else 5
  }

  function Masked(body: Bytes): (r: Bytes)
    ensures |r| == |body|
  {
    if body == [] then [] else [body[0]] + Zeros(Stride(body) - 1) + Masked(body[Stride(body)..])
  }

  method ZeroOut(out: array<Byte>, lo: nat, hi: nat)
    requires lo <= hi <= out.Length
    modifies out
    ensures out[..] == old(out[..lo]) + Zeros(hi - lo) + old(out[hi..])
  {
    for j := lo to hi
      invariant forall k | 0 <= k < lo || j <= k < out.Length :: out[k] == old(out[k])
      invariant forall k | lo <= k < j :: out[k] == 0
    {
      out[j] := 0;
    }
  }

  /** One step of the sweep: the byte at i, and its operand if it takes one. */
  method MaskOne(out: array<Byte>, i: nat, ghost done: Bytes, ghost rest: Bytes) returns (next: nat)
    requires i < out.Length && |done| == i && out[..] == done + rest
    modifies out
    ensures next > i && Clip(next, out.Length) == i + Stride(rest)
    ensures out[..] == done + Settled(rest) + rest[Stride(rest)..]
  {
    assert out[i] == rest[0];
    if TakesOperand(out[i]) {
      ZeroOut(out, i + 1, Clip(i + 5, out.Length));
      next := i + 5;
    } else {
      next := i + 1;
    }
  }

  /** What one step of the sweep writes. */
  function Settled(rest: Bytes): (r: Bytes)
    requires rest != []
    ensures |r| == Stride(rest)
  {
    [rest[0]] + Zeros(Stride(rest) - 1)
  }

  lemma {:induction false} MaskedStep(done: Bytes, rest: Bytes)
    requires rest != []
    ensures done + Masked(rest) == done + Settled(rest) + Masked(rest[Stride(rest)..])
  {
  }

  method Normalize(body: Bytes) returns (r: Bytes)
    ensures r == Masked(body)
  {
    var out := new Byte[|body|](i requires 0 <= i < |body| => body[i]);
    var i := 0;
    ghost var done: Bytes, rest := [], body;
    assert out[..] == body;
    while i < out.Length
      invariant out.Length == |body| && |done| == Clip(i, |body|)
      invariant out[..] == done + rest && done + Masked(rest) == Masked(body)
      decreases out.Length - i
    {
      i := MaskOne(out, i, done, rest);
      MaskedStep(done, rest);
      done, rest := done + Settled(rest), rest[Stride(rest)..];
    }
    r := out[..];
  }

  function Clip(i: nat, n: nat): nat {
    if i <= n then i else n
  }

  /** Position k is an operand byte. */
  predicate IsMasked(body: Bytes, k: nat)
    requires k < |body|
  {
    if k < Stride(body) then k > 0 else IsMasked(body[Stride(body)..], k - Stride(body))
  }

  /** The same bytes wherever the first shows them. */
  ghost predicate SameShape(a: Bytes, b: Bytes) {
    |a| == |b| && forall k: nat {:trigger IsMasked(a, k)} | k < |a| && !IsMasked(a, k) :: a[k] == b[k]
  }

  lemma SameShapeTail(a: Bytes, b: Bytes)
    requires a != [] && |a| == |b|
    ensures SameShape(a, b) <==> a[0] == b[0] && SameShape(a[Stride(a)..], b[Stride(a)..])
  {
    var n := Stride(a);
    if SameShape(a, b) {
      assert !IsMasked(a, 0);
      forall k: nat | k < |a| - n && !IsMasked(a[n..], k) ensures a[n..][k] == b[n..][k] {
        assert !IsMasked(a, n + k);
      }
    } else {
      var k: nat :| k < |a| && !IsMasked(a, k) && a[k] != b[k];
      if k >= n {
        assert !IsMasked(a[n..], k - n) && a[n..][k - n] != b[n..][k - n];
      }
    }
  }

  /** Two bodies normalise alike exactly when they differ only in operand bytes. */
  lemma {:induction false} MaskedAlike(a: Bytes, b: Bytes)
    ensures Masked(a) == Masked(b) <==> SameShape(a, b)
    decreases |a|
  {
    if |a| != |b| {
      assert |Masked(a)| != |Masked(b)|;
    } else if a != [] {
      SameShapeTail(a, b);
      assert Masked(a)[0] == a[0] && Masked(b)[0] == b[0];
      if a[0] == b[0] {
        var n := Stride(a);
        MaskedAlike(a[n..], b[n..]);
        assert Masked(a)[n..] == Masked(a[n..]) && Masked(b)[n..] == Masked(b[n..]);
      }
    }
  }

  lemma {:induction false} MaskingKeepsShape(a: Bytes)
    ensures SameShape(a, Masked(a))
  {
    if a == [] {
    } else {
      MaskingKeepsShape(a[Stride(a)..]);
      assert Masked(a)[Stride(a)..] == Masked(a[Stride(a)..]);
      SameShapeTail(a, Masked(a));
    }
  }

  lemma {:induction false} MaskingTwice(a: Bytes)
    ensures Masked(Masked(a)) == Masked(a)
  {
    MaskingKeepsShape(a);
    MaskedAlike(a, Masked(a));
  }

  /** How the sweep reads a body: opcodes with the bytes taken for their operand, and others. */
  datatype Piece = Single(b: Byte) | WithOperand(opcode: Byte, operand: Bytes)

  /** An operand is four bytes, but for one that the end of the body cuts short. */
  predicate IsPiece(p: Piece, last: bool) {
    match p
    case Single(b) => b !in OPERAND_OPCODES
    case WithOperand(opcode, operand) => opcode in OPERAND_OPCODES && |operand| <= 4 && (last || |operand| == 4)
  }

  predicate ArePieces(ps: seq<Piece>) {
    ps == [] || (IsPiece(ps[0], |ps| == 1) && ArePieces(ps[1..]))
  }

  function PieceBytes(p: Piece): Bytes {
    match p
    case Single(b) => [b]
    case WithOperand(opcode, operand) => [opcode] + operand
  }

  function Laid(ps: seq<Piece>): Bytes {
    if ps == [] then [] else PieceBytes(ps[0]) + Laid(ps[1..])
  }

  function Blank(p: Piece): Piece {
    match p
    case Single(b) => p
    case WithOperand(opcode, operand) => WithOperand(opcode, Zeros(|operand|))
  }

  function Blanked(ps: seq<Piece>): seq<Piece> {
    if ps == [] then [] else [Blank(ps[0])] + Blanked(ps[1..])
  }

  /** Masking blanks the operands, and nothing else. */
  lemma {:induction false} MaskedPieces(ps: seq<Piece>)
    requires ArePieces(ps)
    ensures Masked(Laid(ps)) == Laid(Blanked(ps))
  {
    if ps == [] {
    } else {
      MaskedPieces(ps[1..]);
      FirstMasked(ps[0], Laid(ps[1..]), |ps| == 1);
      assert Blanked(ps)[1..] == Blanked(ps[1..]);
    }
  }

  lemma {:induction false} FirstMasked(p: Piece, rest: Bytes, last: bool)
    requires IsPiece(p, last) && (last ==> rest == [])
    ensures Masked(PieceBytes(p) + rest) == PieceBytes(Blank(p)) + Masked(rest)
  {
    var body := PieceBytes(p) + rest;
    assert Stride(body) == |PieceBytes(p)|;
    assert body[Stride(body)..] == rest;
  }

  /** Every body is read in one such way. */
  lemma {:induction false} PiecesOf(body: Bytes) returns (ps: seq<Piece>)
    ensures ArePieces(ps) && Laid(ps) == body
    decreases |body|
  {
    if body == [] {
      ps := [];
    } else {
      var n := Stride(body);
      var rest := PiecesOf(body[n..]);
      var first := if TakesOperand(body[0]) then WithOperand(body[0], body[1..n]) else Single(body[0]);
      ps := [first] + rest;
      assert PieceBytes(first) == body[..n] && ps[1..] == rest;
      assert body == body[..n] + body[n..];
    }
  }

  // ---- hashing ----------------------------------------------------------------------------------

  type Hash = Bytes -> string

  const SHORTEST := 8

  /** `code[start:end]`. */
  function Cut(code: Bytes, start: nat, end: nat): Bytes {
    if start <= Clip(end, |code|) then code[start..Clip(end, |code|)] else []
  }

  /** What one body contributes. */
  type Shape = Bytes -> set<string>

  /** The hash of the masked body, unless it is under eight bytes. */
  function Shapes(hash: Hash): Shape {
    (body: Bytes) => if |body| < SHORTEST then {} else {hash(Masked(body))}
  }

  /** What the first n bodies contribute together. */
  function HashesOf(shape: Shape, code: Bytes, bounds: seq<(nat, nat)>, n: nat): set<string>
    requires n <= |bounds|
  {
    if n == 0 then {} else HashesOf(shape, code, bounds, n - 1) + shape(Cut(code, bounds[n - 1].0, bounds[n - 1].1))
  }

  method FunctionHashes(hash: Hash, code: Bytes, maxFunctions: nat)
    returns (hashes: set<string>, ghost starts: seq<nat>)
    ensures AreStarts(code, PROLOGUES, starts)
    ensures hashes == HashesOf(Shapes(hash), code, Boundaries(code, starts), Clip(maxFunctions, |starts|))
  {
    var bounds, found := FindBoundaries(code);
    starts := found;
    hashes := HashBodies(hash, code, bounds, Clip(maxFunctions, |bounds|));
  }

  method HashBodies(hash: Hash, code: Bytes, bounds: seq<(nat, nat)>, n: nat) returns (hashes: set<string>)
    requires n <= |bounds|
    ensures hashes == HashesOf(Shapes(hash), code, bounds, n)
  {
    ghost var shape := Shapes(hash);
    hashes := {};
    for i := 0 to n
      invariant hashes == HashesOf(shape, code, bounds, i)
    {
      var body := Cut(code, bounds[i].0, bounds[i].1);
      if |body| >= SHORTEST {
        var normalized := Normalize(body);
        hashes := hashes + {hash(normalized)};
      }
    }
  }

  /** The body is long enough and has this hash once masked. */
  ghost predicate HasHash(hash: Hash, body: Bytes, h: string) {
    |body| >= 8 && h == hash(Masked(body))
  }

  lemma ShapeIs(hash: Hash, body: Bytes, h: string)
    ensures h in Shapes(hash)(body) <==> HasHash(hash, body, h)
  {
  }

  function Body(code: Bytes, bound: (nat, nat)): Bytes {
    Cut(code, bound.0, bound.1)
  }

  /** A hash is reported exactly when one of the first n bodies has it. */
  lemma {:induction false} HashesAre(hash: Hash, code: Bytes, bounds: seq<(nat, nat)>, n: nat, h: string)
    requires n <= |bounds|
    ensures h in HashesOf(Shapes(hash), code, bounds, n)
       <==> exists i: nat {:trigger bounds[i]} :: i < n && HasHash(hash, Body(code, bounds[i]), h)
  {
    if n == 0 {
    } else {
      HashesAre(hash, code, bounds, n - 1, h);
      ShapeIs(hash, Body(code, bounds[n - 1]), h);
    }
  }

  /** Code whose functions differ only in operand bytes has the same hashes. */
  lemma {:induction false} AlikeHashAlike(hash: Hash, a: Bytes, b: Bytes, inA: seq<(nat, nat)>, inB: seq<(nat, nat)>,
                                          n: nat)
    requires n <= |inA| && n <= |inB|
    requires forall i: nat | i < n :: SameShape(Cut(a, inA[i].0, inA[i].1), Cut(b, inB[i].0, inB[i].1))
    ensures HashesOf(Shapes(hash), a, inA, n) == HashesOf(Shapes(hash), b, inB, n)
  {
    if n == 0 {
    } else {
      AlikeHashAlike(hash, a, b, inA, inB, n - 1);
      MaskedAlike(Cut(a, inA[n - 1].0, inA[n - 1].1), Cut(b, inB[n - 1].0, inB[n - 1].1));
    }
  }

  /** The i-th function is not empty, stays clear of the next, and ends at its first return past
      the prologue unless the next start or the end of the code comes first. */
  ghost predicate Fits(code: Bytes, bound: (nat, nat), next: nat) {
    && bound.0 < bound.1 <= next <= |code| && NoMatch(code, [RET], bound.0 + 4, bound.1 - 1)
    && (bound.1 < next ==> MatchesAt(code, [RET], bound.1 - 1))
  }

  lemma BoundariesFit(code: Bytes, patterns: seq<Bytes>, starts: seq<nat>, i: nat)
    requires AreStarts(code, patterns, starts) && i < |starts| && forall k | 0 <= k < |patterns| :: patterns[k] != []
    ensures Fits(code, Boundaries(code, starts)[i], NextStart(code, starts, i))
  {
    StartInside(code, patterns, starts[i]);
    if i + 1 < |starts| {
      StartInside(code, patterns, starts[i + 1]);
    }
    EndFits(code, starts[i], NextStart(code, starts, i));
  }

  lemma EndFits(code: Bytes, start: nat, next: nat)
    requires start < next <= |code|
    ensures Fits(code, (start, EndOf(code, start, next)), next)
  {
    FindMeans(code, [RET], start + 4);
  }

  lemma {:induction false} StartInside(code: Bytes, patterns: seq<Bytes>, at: nat)
    requires IsStart(code, patterns, at) && forall i | 0 <= i < |patterns| :: patterns[i] != []
    ensures at < |code|
    decreases |patterns|
  {
    if !MatchesAt(code, patterns[|patterns| - 1], at) {
      StartInside(code, patterns[..|patterns| - 1], at);
    }
  }

  // ---- position independence --------------------------------------------------------------------

  lemma MatchShifted(pad: Bytes, code: Bytes, pattern: Bytes, at: nat)
    ensures MatchesAt(pad + code, pattern, |pad| + at) == MatchesAt(code, pattern, at)
  {
    if at + |pattern| <= |code| {
      assert (pad + code)[|pad| + at..|pad| + at + |pattern|] == code[at..at + |pattern|];
    }
  }

  lemma {:induction false} StartShifted(pad: Bytes, code: Bytes, patterns: seq<Bytes>, at: nat)
    ensures IsStart(pad + code, patterns, |pad| + at) == IsStart(code, patterns, at)
    decreases |patterns|
  {
    if patterns == [] {
    } else {
      StartShifted(pad, code, patterns[..|patterns| - 1], at);
      MatchShifted(pad, code, patterns[|patterns| - 1], at);
    }
  }

  lemma {:induction false} FindShifted(pad: Bytes, code: Bytes, pattern: Bytes, from: nat)
    ensures Find(pad + code, pattern, |pad| + from)
         == match Find(code, pattern, from) case None => None case Some(at) => Some(|pad| + at)
    decreases |code| + 1 - from
  {
    if from <= |code| {
      MatchShifted(pad, code, pattern, from);
      if !MatchesAt(code, pattern, from) {
        FindShifted(pad, code, pattern, from + 1);
      }
    }
  }

  function Shifted(shift: nat, starts: seq<nat>): (r: seq<nat>)
    ensures |r| == |starts| && forall i | 0 <= i < |r| :: r[i] == shift + starts[i]
  {
    seq(|starts|, i requires 0 <= i < |starts| => shift + starts[i])
  }

  function Moved(shift: nat, bound: (nat, nat)): (nat, nat) {
    (shift + bound.0, shift + bound.1)
  }

  /** No start lies in what was put in front. */
  ghost predicate Quiet(pad: Bytes, code: Bytes, patterns: seq<Bytes>) {
    forall at: nat {:trigger IsStart(pad + code, patterns, at)} | at < |pad| :: !IsStart(pad + code, patterns, at)
  }

  lemma StartsShifted(pad: Bytes, code: Bytes, patterns: seq<Bytes>, starts: seq<nat>)
    requires AreStarts(code, patterns, starts) && Quiet(pad, code, patterns)
    ensures AreStarts(pad + code, patterns, Shifted(|pad|, starts))
  {
    var moved := Shifted(|pad|, starts);
    forall at: nat ensures at in moved <==> IsStart(pad + code, patterns, at) {
      if at >= |pad| {
        StartShifted(pad, code, patterns, at - |pad|);
        if at - |pad| in starts {
          var i :| 0 <= i < |starts| && starts[i] == at - |pad|;
          assert moved[i] == at;
        }
      }
    }
  }

  lemma EndShifted(pad: Bytes, code: Bytes, start: nat, next: nat)
    ensures EndOf(pad + code, |pad| + start, |pad| + next) == |pad| + EndOf(code, start, next)
  {
    FindShifted(pad, code, [RET], start + 4);
  }

  /** There is only one list of starts. */
  lemma StartsUnique(code: Bytes, patterns: seq<Bytes>, a: seq<nat>, b: seq<nat>)
    requires AreStarts(code, patterns, a) && AreStarts(code, patterns, b)
    ensures a == b
  {
    SameAscending(a, b);
  }

  ghost predicate AllMoved(shift: nat, bounds: seq<(nat, nat)>, moved: seq<(nat, nat)>) {
    |bounds| == |moved| && forall i | 0 <= i < |bounds| :: moved[i] == Moved(shift, bounds[i])
  }

  lemma {:induction false} HashesMoved(shape: Shape, pad: Bytes, code: Bytes, bounds: seq<(nat, nat)>,
                                       moved: seq<(nat, nat)>, n: nat)
    requires AllMoved(|pad|, bounds, moved) && n <= |bounds|
    ensures HashesOf(shape, pad + code, moved, n) == HashesOf(shape, code, bounds, n)
  {
    if n == 0 {
    } else {
      HashesMoved(shape, pad, code, bounds, moved, n - 1);
      CutMoved(pad, code, bounds[n - 1].0, bounds[n - 1].1);
    }
  }

  lemma CutMoved(pad: Bytes, code: Bytes, start: nat, end: nat)
    ensures Cut(pad + code, |pad| + start, |pad| + end) == Cut(code, start, end)
  {
  }

  lemma BoundariesMoved(pad: Bytes, code: Bytes, starts: seq<nat>)
    ensures AllMoved(|pad|, Boundaries(code, starts), Boundaries(pad + code, Shifted(|pad|, starts)))
  {
    var moved := Shifted(|pad|, starts);
    forall i | 0 <= i < |starts| ensures Boundaries(pad + code, moved)[i] == Moved(|pad|, Boundaries(code, starts)[i]) {
      assert NextStart(pad + code, moved, i) == |pad| + NextStart(code, starts, i);
      EndShifted(pad, code, starts[i], NextStart(code, starts, i));
    }
  }

  /** Moving code behind bytes that start no function moves every boundary by as much and leaves
      the hashes as they were. */
  lemma {:induction false} PositionIndependent(shape: Shape, pad: Bytes, code: Bytes, starts: seq<nat>, moved: seq<nat>,
                                               maxFunctions: nat)
    requires Quiet(pad, code, PROLOGUES) && AreStarts(code, PROLOGUES, starts)
             && AreStarts(pad + code, PROLOGUES, moved)
    ensures AllMoved(|pad|, Boundaries(code, starts), Boundaries(pad + code, moved)) && |moved| == |starts|
    ensures HashesOf(shape, pad + code, Boundaries(pad + code, moved), Clip(maxFunctions, |moved|))
         == HashesOf(shape, code, Boundaries(code, starts), Clip(maxFunctions, |starts|))
  {
    var n := Clip(maxFunctions, |starts|);
    StartsShifted(pad, code, PROLOGUES, starts);
    StartsUnique(pad + code, PROLOGUES, moved, Shifted(|pad|, starts));
    BoundariesMoved(pad, code, starts);
    HashesMoved(shape, pad, code, Boundaries(code, starts), Boundaries(pad + code, moved), n);
  }
}
