// Pages as they are laid out, and that the reader gets back what was written on them.
module BoltPages {
  import opened Basics
  import opened Bolt

  // ---- numbers ------------------------------------------------------------------------------

  function Capacity(width: nat): nat {
    if width == 0 then 1 else 256 * Capacity(width - 1)
  }

  function Digit(n: nat, i: nat): Byte
    decreases i
  {
    if i == 0 then n % 256 else Digit(n / 256, i - 1)
  }

  /** `width` bytes, least significant first. */
  function Digits(n: nat, width: nat): (r: Bytes)
    ensures |r| == width
  {
    seq(width, i requires 0 <= i < width => Digit(n, i))
  }

  /** The bytes of `part` stand in `data` from `off` on. */
  ghost predicate At(data: Bytes, off: nat, part: Bytes) {
    off + |part| <= |data| && forall i: nat | i < |part| :: part[i] == data[off + i]
  }

  lemma AtParts(data: Bytes, off: nat, a: Bytes, b: Bytes)
    requires At(data, off, a + b)
    ensures At(data, off, a) && At(data, off + |a|, b)
  {
    forall i: nat | i < |a| ensures a[i] == data[off + i] {
      assert a[i] == (a + b)[i];
    }
    forall i: nat | i < |b| ensures b[i] == data[off + |a| + i] {
      assert b[i] == (a + b)[|a| + i];
    }
  }

  lemma {:induction false} DigitsRead(data: Bytes, off: nat, n: nat, width: nat)
    requires At(data, off, Digits(n, width)) && n < Capacity(width)
    ensures LittleEndian(data, off, width) == n
  {
    forall i: nat | i < width ensures data[off + i] == Digit(n, i) {
      assert Digits(n, width)[i] == data[off + i];
    }
    DigitsAdd(data, off, n, width);
  }

  lemma {:induction false} DigitsAdd(data: Bytes, off: nat, n: nat, width: nat)
    requires off + width <= |data| && n < Capacity(width) && forall i: nat | i < width :: data[off + i] == Digit(n, i)
    ensures LittleEndian(data, off, width) == n
    decreases width
  {
    if width == 0 {
    } else {
      assert data[off + 0] == Digit(n, 0);
      forall i: nat | i < width - 1 ensures data[off + 1 + i] == Digit(n / 256, i) {
        assert data[off + (i + 1)] == Digit(n, i + 1);
      }
      DigitsAdd(data, off + 1, n / 256, width - 1);
    }
  }

  const TWO := 0x1_0000
  const FOUR := 0x1_0000_0000
  const EIGHT := 0x1_0000_0000_0000_0000

  lemma Capacities()
    ensures Capacity(2) == TWO && Capacity(4) == FOUR && Capacity(8) == EIGHT
  {
  }

  lemma {:induction false} Read2(data: Bytes, off: nat, n: nat)
    requires At(data, off, Digits(n, 2)) && n < TWO
    ensures LittleEndian(data, off, 2) == n
  {
    Capacities();
    DigitsRead(data, off, n, 2);
  }

  lemma {:induction false} Read4(data: Bytes, off: nat, n: nat)
    requires At(data, off, Digits(n, 4)) && n < FOUR
    ensures LittleEndian(data, off, 4) == n
  {
    Capacities();
    DigitsRead(data, off, n, 4);
  }

  lemma {:induction false} Read8(data: Bytes, off: nat, n: nat)
    requires At(data, off, Digits(n, 8)) && n < EIGHT
    ensures LittleEndian(data, off, 8) == n
  {
    Capacities();
    DigitsRead(data, off, n, 8);
  }

  lemma SliceAt(data: Bytes, off: nat, part: Bytes)
    requires At(data, off, part)
    ensures Slice(data, off, off + |part|) == part
  {
  }

  // ---- page headers ---------------------------------------------------------------------------

  /** Page number, overflow count and the flags beyond the two lowest are for the writer alone. */
  datatype Frame = Frame(id: Bytes, overflow: Bytes, more: nat) {
    predicate Valid() {
      |id| == 8 && |overflow| == 4 && 4 * more + 3 < TWO
    }

    /** The second lowest flag marks a leaf page, whatever the lowest says. */
    function LeafFlags(branchToo: bool): nat {
      4 * more + if branchToo then 3 else 2
    }

    function BranchFlags(): nat {
      4 * more + 1
    }
  }

  function PageStart(frame: Frame, flags: nat, count: nat): (r: Bytes)
    requires frame.Valid()
    ensures |r| == 16
  {
    frame.id + (Digits(flags, 2) + (Digits(count, 2) + frame.overflow))
  }

  lemma StartRead(page: Page, frame: Frame, flags: nat, count: nat)
    requires frame.Valid() && flags < TWO && count < TWO && At(page.data, page.off, PageStart(frame, flags, count))
    ensures HeaderOf(page) == Result.Ok(Header(flags, count))
  {
    AtParts(page.data, page.off, frame.id, Digits(flags, 2) + (Digits(count, 2) + frame.overflow));
    AtParts(page.data, page.off + 8, Digits(flags, 2), Digits(count, 2) + frame.overflow);
    AtParts(page.data, page.off + 10, Digits(count, 2), frame.overflow);
    Read2(page.data, page.off + 8, flags);
    Read2(page.data, page.off + 10, count);
  }

  // ---- leaf pages -----------------------------------------------------------------------------

  function LeafHead(e: Element, pos: nat): (r: Bytes)
    ensures |r| == 16
  {
    Digits(e.flags, 4) + (Digits(pos, 4) + (Digits(|e.key|, 4) + Digits(|e.value|, 4)))
  }

  /** The element headers, each naming its distance to its key: past the headers still to come and
      the keys and values of the elements before it. */
  function LeafHeads(es: seq<Element>, skip: nat): (r: Bytes)
    ensures |r| == 16 * |es|
  {
    if es == [] then []
    else LeafHead(es[0], 16 * |es| + skip) + LeafHeads(es[1..], skip + |es[0].key| + |es[0].value|)
  }

  /** The keys and values themselves. */
  function LeafBodies(es: seq<Element>): Bytes {
    if es == [] then [] else es[0].key + (es[0].value + LeafBodies(es[1..]))
  }

  /** A leaf page as the format lays it out. */
  function LeafImage(frame: Frame, branchToo: bool, es: seq<Element>): Bytes
    requires frame.Valid()
  {
    PageStart(frame, frame.LeafFlags(branchToo), |es|) + (LeafHeads(es, 0) + LeafBodies(es))
  }

  lemma HeadParts(data: Bytes, o: nat, e: Element, pos: nat)
    requires At(data, o, LeafHead(e, pos))
    ensures At(data, o, Digits(e.flags, 4)) && At(data, o + 4, Digits(pos, 4))
    ensures At(data, o + 8, Digits(|e.key|, 4)) && At(data, o + 12, Digits(|e.value|, 4))
  {
    AtParts(data, o, Digits(e.flags, 4), Digits(pos, 4) + (Digits(|e.key|, 4) + Digits(|e.value|, 4)));
    AtParts(data, o + 4, Digits(pos, 4), Digits(|e.key|, 4) + Digits(|e.value|, 4));
    AtParts(data, o + 8, Digits(|e.key|, 4), Digits(|e.value|, 4));
  }

  lemma HeadNumbers(data: Bytes, o: nat, e: Element, pos: nat)
    requires e.flags < FOUR && pos < FOUR && |e.key| < FOUR && |e.value| < FOUR && At(data, o, LeafHead(e, pos))
    ensures o + 16 <= |data| && LittleEndian(data, o, 4) == e.flags && LittleEndian(data, o + 4, 4) == pos
    ensures LittleEndian(data, o + 8, 4) == |e.key| && LittleEndian(data, o + 12, 4) == |e.value|
  {
    HeadParts(data, o, e, pos);
    Read4(data, o, e.flags);
    Read4(data, o + 4, pos);
    Read4(data, o + 8, |e.key|);
    Read4(data, o + 12, |e.value|);
  }

  lemma LeafIs(page: Page, i: nat, e: Element, pos: nat)
    requires var data, o := page.data, ElementOffset(page, i);
             && o + 16 <= |data| && LittleEndian(data, o, 4) == e.flags && LittleEndian(data, o + 4, 4) == pos
             && LittleEndian(data, o + 8, 4) == |e.key| && LittleEndian(data, o + 12, 4) == |e.value|
             && Slice(data, o + pos, o + pos + |e.key|) == e.key
             && Slice(data, o + pos + |e.key|, o + pos + |e.key| + |e.value|) == e.value
    ensures LeafElement(page, i) == Result.Ok(e)
  {
  }

  lemma HeadRead(page: Page, i: nat, e: Element, pos: nat)
    requires e.flags < FOUR && pos < FOUR && |e.key| < FOUR && |e.value| < FOUR
    requires At(page.data, ElementOffset(page, i), LeafHead(e, pos))
    requires At(page.data, ElementOffset(page, i) + pos, e.key)
    requires At(page.data, ElementOffset(page, i) + pos + |e.key|, e.value)
    ensures LeafElement(page, i) == Result.Ok(e)
  {
    var o := ElementOffset(page, i);
    HeadNumbers(page.data, o, e, pos);
    SliceAt(page.data, o + pos, e.key);
    SliceAt(page.data, o + pos + |e.key|, e.value);
    LeafIs(page, i, e, pos);
  }

  /** The headers of the elements `es` start at element `from`, and their bodies where these say. */
  ghost predicate HasLeafs(page: Page, from: nat, es: seq<Element>, skip: nat) {
    && At(page.data, ElementOffset(page, from), LeafHeads(es, skip))
    && At(page.data, ElementOffset(page, from) + 16 * |es| + skip, LeafBodies(es))
  }

  lemma LeafStep(page: Page, from: nat, es: seq<Element>, skip: nat)
    requires es != [] && HasLeafs(page, from, es, skip)
    ensures HasLeafs(page, from + 1, es[1..], skip + |es[0].key| + |es[0].value|)
  {
    var e, o := es[0], ElementOffset(page, from);
    var pos := 16 * |es| + skip;
    var more := skip + |e.key| + |e.value|;
    AtParts(page.data, o, LeafHead(e, pos), LeafHeads(es[1..], more));
    AtParts(page.data, o + pos, e.key, e.value + LeafBodies(es[1..]));
    AtParts(page.data, o + pos + |e.key|, e.value, LeafBodies(es[1..]));
  }

  lemma LeafHere(page: Page, from: nat, es: seq<Element>, skip: nat)
    requires es != [] && HasLeafs(page, from, es, skip)
    ensures var pos := 16 * |es| + skip;
            && At(page.data, ElementOffset(page, from), LeafHead(es[0], pos))
            && At(page.data, ElementOffset(page, from) + pos, es[0].key)
            && At(page.data, ElementOffset(page, from) + pos + |es[0].key|, es[0].value)
  {
    var e, o := es[0], ElementOffset(page, from);
    var pos := 16 * |es| + skip;
    AtParts(page.data, o, LeafHead(e, pos), LeafHeads(es[1..], skip + |e.key| + |e.value|));
    AtParts(page.data, o + pos, e.key, e.value + LeafBodies(es[1..]));
    AtParts(page.data, o + pos + |e.key|, e.value, LeafBodies(es[1..]));
  }

  /** Sizes, positions and flags the headers have room for. */
  predicate LeafRoom(es: seq<Element>, skip: nat) {
    16 * |es| + skip + |LeafBodies(es)| < FOUR && forall e <- es :: e.flags < FOUR
  }

  lemma RoomStep(es: seq<Element>, skip: nat)
    requires es != [] && LeafRoom(es, skip)
    ensures LeafRoom(es[1..], skip + |es[0].key| + |es[0].value|)
  {
  }

  lemma {:induction false} LeafsFrom(page: Page, es: seq<Element>, i: nat) returns (skip: nat)
    requires i < |es| && LeafRoom(es, 0) && HasLeafs(page, 0, es, 0)
    ensures LeafRoom(es[i..], skip) && HasLeafs(page, i, es[i..], skip)
  {
    if i == 0 {
      assert es[0..] == es;
      skip := 0;
    } else {
      var before := LeafsFrom(page, es, i - 1);
      var rest := es[i - 1..];
      LeafStep(page, i - 1, rest, before);
      RoomStep(rest, before);
      assert rest[1..] == es[i..];
      skip := before + |rest[0].key| + |rest[0].value|;
    }
  }

  lemma LeafElementRead(page: Page, es: seq<Element>, i: nat)
    requires i < |es| && LeafRoom(es, 0) && HasLeafs(page, 0, es, 0)
    ensures LeafElement(page, i) == Result.Ok(es[i])
  {
    var skip := LeafsFrom(page, es, i);
    LeafHere(page, i, es[i..], skip);
    HeadRead(page, i, es[i], 16 * |es[i..]| + skip);
  }

  ghost predicate ReadsAs(page: Page, es: seq<Element>) {
    forall i: nat | i < |es| :: LeafElement(page, i) == Result.Ok(es[i])
  }

  lemma LeafsRead(page: Page, es: seq<Element>)
    requires LeafRoom(es, 0) && HasLeafs(page, 0, es, 0)
    ensures ReadsAs(page, es)
  {
    forall i: nat | i < |es| ensures LeafElement(page, i) == Result.Ok(es[i]) {
      LeafElementRead(page, es, i);
    }
  }

  lemma {:induction false} LeafFirst(page: Page, es: seq<Element>, n: nat)
    requires n <= |es| && ReadsAs(page, es)
    ensures FirstElements(page, n) == Result.Ok(es[..n])
  {
    if n == 0 {
    } else {
      LeafFirst(page, es, n - 1);
      OneMoreElement(page, es, n - 1);
    }
  }

  lemma OneMoreElement(page: Page, es: seq<Element>, n: nat)
    requires n < |es| && FirstElements(page, n) == Result.Ok(es[..n]) && LeafElement(page, n) == Result.Ok(es[n])
    ensures FirstElements(page, n + 1) == Result.Ok(es[..n + 1])
  {
    assert es[..n + 1] == es[..n] + [es[n]];
  }

  lemma {:induction false} AllElements(page: Page, es: seq<Element>)
    requires ReadsAs(page, es)
    ensures FirstElements(page, |es|) == Result.Ok(es)
  {
    LeafFirst(page, es, |es|);
    assert es[..|es|] == es;
  }

  lemma LeafHeader(page: Page, frame: Frame, branchToo: bool, es: seq<Element>)
    requires frame.Valid() && |es| < TWO && At(page.data, page.off, LeafImage(frame, branchToo, es))
    ensures HeaderOf(page) == Result.Ok(Header(frame.LeafFlags(branchToo), |es|)) && HasLeafs(page, 0, es, 0)
  {
    LeafParts(page, frame, branchToo, es);
    StartRead(page, frame, frame.LeafFlags(branchToo), |es|);
  }

  lemma LeafBit(frame: Frame, branchToo: bool)
    ensures frame.LeafFlags(branchToo) / 2 % 2 == 1
  {
    SecondBit(frame.more, if branchToo then 1 else 0);
  }

  lemma SecondBit(more: nat, low: nat)
    requires low < 2
    ensures (4 * more + 2 + low) / 2 % 2 == 1
  {
    assert (4 * more + 2 + low) / 2 == 2 * more + 1;
  }

  /** Round trip: a page with the image of these elements reads as these elements. */
  lemma LeafRoundTrip(page: Page, frame: Frame, branchToo: bool, es: seq<Element>)
    requires frame.Valid() && |es| < TWO && LeafRoom(es, 0)
    requires At(page.data, page.off, LeafImage(frame, branchToo, es))
    ensures LeafElements(page) == Result.Ok(es) && NodeOf(page) == Result.Ok(LeafPage(Result.Ok(es)))
  {
    LeafHeader(page, frame, branchToo, es);
    LeafBit(frame, branchToo);
    LeafsRead(page, es);
    AllElements(page, es);
    LeafNode(page, frame.LeafFlags(branchToo), es);
  }

  lemma LeafParts(page: Page, frame: Frame, branchToo: bool, es: seq<Element>)
    requires frame.Valid() && At(page.data, page.off, LeafImage(frame, branchToo, es))
    ensures At(page.data, page.off, PageStart(frame, frame.LeafFlags(branchToo), |es|)) && HasLeafs(page, 0, es, 0)
  {
    AtParts(page.data, page.off, PageStart(frame, frame.LeafFlags(branchToo), |es|), LeafHeads(es, 0) + LeafBodies(es));
    AtParts(page.data, page.off + 16, LeafHeads(es, 0), LeafBodies(es));
  }

  lemma {:induction false} LeafNode(page: Page, flags: nat, es: seq<Element>)
    requires HeaderOf(page) == Result.Ok(Header(flags, |es|)) && flags / 2 % 2 == 1
    requires FirstElements(page, |es|) == Result.Ok(es)
    ensures LeafElements(page) == Result.Ok(es) && NodeOf(page) == Result.Ok(LeafPage(Result.Ok(es)))
  {
  }

  // ---- branch pages ---------------------------------------------------------------------------

  /** A separator key and the page it leads to. */
  type Pointer = (Bytes, nat)

  function BranchHead(p: Pointer, pos: nat): (r: Bytes)
    ensures |r| == 16
  {
    Digits(pos, 4) + (Digits(|p.0|, 4) + Digits(p.1, 8))
  }

  function BranchHeads(ps: seq<Pointer>, skip: nat): (r: Bytes)
    ensures |r| == 16 * |ps|
  {
    if ps == [] then [] else BranchHead(ps[0], 16 * |ps| + skip) + BranchHeads(ps[1..], skip + |ps[0].0|)
  }

  function BranchBodies(ps: seq<Pointer>): Bytes {
    if ps == [] then [] else ps[0].0 + BranchBodies(ps[1..])
  }

  function BranchImage(frame: Frame, ps: seq<Pointer>): Bytes
    requires frame.Valid()
  {
    PageStart(frame, frame.BranchFlags(), |ps|) + (BranchHeads(ps, 0) + BranchBodies(ps))
  }

  lemma PointerParts(data: Bytes, o: nat, p: Pointer, pos: nat)
    requires At(data, o, BranchHead(p, pos))
    ensures At(data, o, Digits(pos, 4)) && At(data, o + 4, Digits(|p.0|, 4)) && At(data, o + 8, Digits(p.1, 8))
  {
    AtParts(data, o, Digits(pos, 4), Digits(|p.0|, 4) + Digits(p.1, 8));
    AtParts(data, o + 4, Digits(|p.0|, 4), Digits(p.1, 8));
  }

  lemma PointerNumbers(data: Bytes, o: nat, p: Pointer, pos: nat)
    requires p.1 < EIGHT && pos < FOUR && |p.0| < FOUR && At(data, o, BranchHead(p, pos))
    ensures o + 16 <= |data| && LittleEndian(data, o, 4) == pos
    ensures LittleEndian(data, o + 4, 4) == |p.0| && LittleEndian(data, o + 8, 8) == p.1
  {
    PointerParts(data, o, p, pos);
    Read4(data, o, pos);
    Read4(data, o + 4, |p.0|);
    Read8(data, o + 8, p.1);
  }

  lemma PointerIs(page: Page, i: nat, p: Pointer, pos: nat)
    requires var o := ElementOffset(page, i);
             && o + 16 <= |page.data| && LittleEndian(page.data, o, 4) == pos
             && LittleEndian(page.data, o + 4, 4) == |p.0| && LittleEndian(page.data, o + 8, 8) == p.1
             && Slice(page.data, o + pos, o + pos + |p.0|) == p.0
    ensures BranchElement(page, i) == Result.Ok(p)
  {
  }

  lemma PointerRead(page: Page, i: nat, p: Pointer, pos: nat)
    requires p.1 < EIGHT && pos < FOUR && |p.0| < FOUR
    requires At(page.data, ElementOffset(page, i), BranchHead(p, pos))
    requires At(page.data, ElementOffset(page, i) + pos, p.0)
    ensures BranchElement(page, i) == Result.Ok(p)
  {
    PointerNumbers(page.data, ElementOffset(page, i), p, pos);
    SliceAt(page.data, ElementOffset(page, i) + pos, p.0);
    PointerIs(page, i, p, pos);
  }

  ghost predicate HasPointers(page: Page, from: nat, ps: seq<Pointer>, skip: nat) {
    && At(page.data, ElementOffset(page, from), BranchHeads(ps, skip))
    && At(page.data, ElementOffset(page, from) + 16 * |ps| + skip, BranchBodies(ps))
  }

  lemma BranchStep(page: Page, from: nat, ps: seq<Pointer>, skip: nat)
    requires ps != [] && HasPointers(page, from, ps, skip)
    ensures HasPointers(page, from + 1, ps[1..], skip + |ps[0].0|)
    ensures At(page.data, ElementOffset(page, from), BranchHead(ps[0], 16 * |ps| + skip))
    ensures At(page.data, ElementOffset(page, from) + 16 * |ps| + skip, ps[0].0)
  {
    var p, o := ps[0], ElementOffset(page, from);
    var pos := 16 * |ps| + skip;
    AtParts(page.data, o, BranchHead(p, pos), BranchHeads(ps[1..], skip + |p.0|));
    AtParts(page.data, o + pos, p.0, BranchBodies(ps[1..]));
  }

  predicate BranchRoom(ps: seq<Pointer>, skip: nat) {
    16 * |ps| + skip + |BranchBodies(ps)| < FOUR && forall p <- ps :: p.1 < EIGHT
  }

  lemma BranchRoomStep(ps: seq<Pointer>, skip: nat)
    requires ps != [] && BranchRoom(ps, skip)
    ensures BranchRoom(ps[1..], skip + |ps[0].0|)
  {
  }

  lemma {:induction false} PointersFrom(page: Page, ps: seq<Pointer>, i: nat) returns (skip: nat)
    requires i < |ps| && BranchRoom(ps, 0) && HasPointers(page, 0, ps, 0)
    ensures BranchRoom(ps[i..], skip) && HasPointers(page, i, ps[i..], skip)
  {
    if i == 0 {
      assert ps[0..] == ps;
      skip := 0;
    } else {
      var before := PointersFrom(page, ps, i - 1);
      var rest := ps[i - 1..];
      BranchStep(page, i - 1, rest, before);
      BranchRoomStep(rest, before);
      assert rest[1..] == ps[i..];
      skip := before + |rest[0].0|;
    }
  }

  lemma BranchElementRead(page: Page, ps: seq<Pointer>, i: nat)
    requires i < |ps| && BranchRoom(ps, 0) && HasPointers(page, 0, ps, 0)
    ensures BranchElement(page, i) == Result.Ok(ps[i])
  {
    var skip := PointersFrom(page, ps, i);
    BranchStep(page, i, ps[i..], skip);
    PointerRead(page, i, ps[i], 16 * |ps[i..]| + skip);
  }

  /** Round trip: a page with the image of these pointers reads as a branch of these pointers. */
  lemma BranchRoundTrip(page: Page, frame: Frame, ps: seq<Pointer>)
    requires frame.Valid() && |ps| < TWO && BranchRoom(ps, 0) && At(page.data, page.off, BranchImage(frame, ps))
    ensures HeaderOf(page) == Result.Ok(Header(frame.BranchFlags(), |ps|)) && NodeOf(page).Ok?
    ensures NodeOf(page).value.BranchPage? && NodeOf(page).value.count == |ps|
    ensures forall i: nat | i < |ps| :: BranchElement(page, i) == Result.Ok(ps[i])
  {
    BranchParts(page, frame, ps);
    StartRead(page, frame, frame.BranchFlags(), |ps|);
    forall i: nat | i < |ps| ensures BranchElement(page, i) == Result.Ok(ps[i]) {
      BranchElementRead(page, ps, i);
    }
  }

  lemma BranchParts(page: Page, frame: Frame, ps: seq<Pointer>)
    requires frame.Valid() && At(page.data, page.off, BranchImage(frame, ps))
    ensures At(page.data, page.off, PageStart(frame, frame.BranchFlags(), |ps|)) && HasPointers(page, 0, ps, 0)
  {
    AtParts(page.data, page.off, PageStart(frame, frame.BranchFlags(), |ps|), BranchHeads(ps, 0) + BranchBodies(ps));
    AtParts(page.data, page.off + 16, BranchHeads(ps, 0), BranchBodies(ps));
  }

  // ---- nested buckets ---------------------------------------------------------------------------

  /** A bucket's value: its header alone, naming its root page, or followed by its page. */
  function PagedValue(root: nat, sequence: nat): (r: Bytes)
    ensures |r| == 16
  {
    Digits(root, 8) + Digits(sequence, 8)
  }

  function InlineValue(sequence: nat, image: Bytes): Bytes {
    PagedValue(0, sequence) + image
  }

  lemma PagedRead(file: File, root: nat, sequence: nat)
    requires 0 < root < EIGHT
    ensures BucketPage(file, PagedValue(root, sequence)) == PageAt(file, root)
  {
    var value := PagedValue(root, sequence);
    assert value[0..16] == value;
    AtParts(value, 0, Digits(root, 8), Digits(sequence, 8));
    Read8(value, 0, root);
  }

  lemma InlineRead(file: File, sequence: nat, image: Bytes)
    ensures BucketPage(file, InlineValue(sequence, image)) == Result.Ok(Page(InlineValue(sequence, image), 16))
    ensures At(InlineValue(sequence, image), 16, image)
  {
    var value := InlineValue(sequence, image);
    assert value[0..|value|] == value;
    AtParts(value, 0, PagedValue(0, sequence), image);
    AtParts(value, 0, Digits(0, 8), Digits(sequence, 8));
    Read8(value, 0, 0);
  }
}
