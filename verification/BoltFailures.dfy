// How a search through a damaged boltdb file fails.
module BoltFailures {
  import opened Basics
  import opened Order
  import opened Bolt
  import opened Iteration

  // ---- malformed pages -----------------------------------------------------------------------

  lemma {:induction false} FirstElementsFit(page: Page, n: nat)
    ensures FirstElements(page, n).Ok? <==> n == 0 || ElementOffset(page, n) <= |page.data|
    ensures FirstElements(page, n).Err? ==> FirstElements(page, n).error == StructError
  {
    if n == 0 {
    } else {
      FirstElementsFit(page, n - 1);
    }
  }

  /** A leaf page whose count overruns its bytes fails with the decoder's error; only the
      header checks fail with the reader's own. */
  lemma LeafFailures(page: Page)
    requires HeaderOf(page).Ok? && HeaderOf(page).value.IsLeaf()
    ensures LeafElements(page) == Err(StructError)
       <==> HeaderOf(page).value.count > 0 && ElementOffset(page, HeaderOf(page).value.count) > |page.data|
    ensures LeafElements(page) != Err(BoltReadError)
  {
    FirstElementsFit(page, HeaderOf(page).value.count);
  }

  /** The scan of a branch page's separators comes to an element that is not all there. */
  predicate ScanOverruns(page: Page, key: Bytes, i: nat, count: nat)
    requires i <= count
    decreases count - i
  {
    i < count
    && (|| ElementOffset(page, i + 1) > |page.data|
        || ((i == 0 || LexLe(BranchElement(page, i).value.0, key)) && ScanOverruns(page, key, i + 1, count)))
  }

  lemma {:induction false} ScanFails(page: Page, key: Bytes, i: nat, count: nat, chosen: Option<nat>)
    requires i <= count
    ensures Descend((j: nat) => BranchElement(page, j), key, i, count, chosen) == Err(StructError)
       <==> ScanOverruns(page, key, i, count)
    decreases count - i
  {
    if i < count && BranchElement(page, i).Ok? {
      ScanFails(page, key, i + 1, count, Some(BranchElement(page, i).value.1));
    }
  }

  /** The page promises elements that its bytes do not hold, among those a search reads: all of
      a leaf's, a branch's up to the first separator above the key. */
  predicate Overruns(page: Page, key: Bytes) {
    && HeaderOf(page).Ok?
    && var h := HeaderOf(page).value;
       if h.IsLeaf() then h.count > 0 && ElementOffset(page, h.count) > |page.data|
       else h.IsBranch() && ScanOverruns(page, key, 0, h.count)
  }

  lemma {:induction false} DescendErrors(page: Page, key: Bytes, i: nat, count: nat, chosen: Option<nat>)
    requires i <= count
    ensures var r := Descend((j: nat) => BranchElement(page, j), key, i, count, chosen);
            r.Err? ==> r.error == StructError
    decreases count - i
  {
    if i < count && BranchElement(page, i).Ok? {
      DescendErrors(page, key, i + 1, count, Some(BranchElement(page, i).value.1));
    }
  }

  // ---- the way a search takes ----------------------------------------------------------------

  /** The page a branch page hands the search to. */
  function Hop(file: File, page: Page, key: Bytes): Option<Page> {
    var node := NodeOf(page);
    if node.Err? || node.value.LeafPage? then None
    else
      var chosen := Descend(node.value.elementAt, key, 0, node.value.count, None);
      if chosen.Err? || chosen.value.None? || PageAt(file, chosen.value.value).Err? then None
      else Some(PageAt(file, chosen.value.value).value)
  }

  type Way = Page -> Option<Page>

  function WayOf(file: File, key: Bytes): Way {
    (page: Page) => Hop(file, page, key)
  }

  type Search = (Page, nat) -> Result<Option<(nat, Bytes)>>

  function SearchOf(file: File, key: Bytes): Search {
    (page: Page, depth: nat) => Lookup(ReaderOf(file), page, key, depth)
  }

  function Overrunning(key: Bytes): Page -> bool {
    (page: Page) => Overruns(page, key)
  }

  /** With stack left, the search hops along the way until it ends, by the decoder's error where
      the page is bad. */
  ghost predicate Takes(search: Search, way: Way, bad: Page -> bool) {
    && (forall page :: search(page, 0) == Err(RecursionError))
    && (forall page, depth: nat {:trigger Turn(search, way, bad, page, depth)} :: Turn(search, way, bad, page, depth))
  }

  predicate Turn(search: Search, way: Way, bad: Page -> bool, page: Page, depth: nat) {
    if way(page).Some? then !bad(page) && search(page, depth + 1) == search(way(page).value, depth)
    else search(page, depth + 1) != Err(RecursionError) && (search(page, depth + 1) == Err(StructError) <==> bad(page))
  }

  /** What a branch page makes of the search, by the outcome of its scan. */
  lemma BranchHop(file: File, page: Page, key: Bytes, depth: nat)
    requires HeaderOf(page).Ok? && HeaderOf(page).value.IsBranch() && !HeaderOf(page).value.IsLeaf()
    ensures var chosen := Descend((j: nat) => BranchElement(page, j), key, 0, HeaderOf(page).value.count, None);
            var found := Lookup(ReaderOf(file), page, key, depth + 1);
            if chosen.Err? then Hop(file, page, key) == None && found == Err(chosen.error)
            else if chosen.value.None? then Hop(file, page, key) == None && found == Ok(None)
            else if PageAt(file, chosen.value.value).Err? then
              Hop(file, page, key) == None && found == Err(BoltReadError)
            else
              && Hop(file, page, key) == Some(PageAt(file, chosen.value.value).value)
              && found == Lookup(ReaderOf(file), PageAt(file, chosen.value.value).value, key, depth)
  {
  }

  lemma BranchTurns(file: File, page: Page, key: Bytes, depth: nat)
    requires HeaderOf(page).Ok? && HeaderOf(page).value.IsBranch() && !HeaderOf(page).value.IsLeaf()
    ensures Turn(SearchOf(file, key), WayOf(file, key), Overrunning(key), page, depth)
  {
    BranchHop(file, page, key, depth);
    DescendErrors(page, key, 0, HeaderOf(page).value.count, None);
    ScanFails(page, key, 0, HeaderOf(page).value.count, None);
  }

  lemma LookupTurns(file: File, page: Page, key: Bytes, depth: nat)
    ensures Turn(SearchOf(file, key), WayOf(file, key), Overrunning(key), page, depth)
  {
    if HeaderOf(page).Ok? && HeaderOf(page).value.IsLeaf() {
      FirstElementsFit(page, HeaderOf(page).value.count);
    } else if HeaderOf(page).Ok? && HeaderOf(page).value.IsBranch() {
      BranchTurns(file, page, key, depth);
    }
  }

  lemma LookupTakesItsWay(file: File, key: Bytes)
    ensures Takes(SearchOf(file, key), WayOf(file, key), Overrunning(key))
  {
    forall page, depth: nat
      ensures Turn(SearchOf(file, key), WayOf(file, key), Overrunning(key), page, depth)
    {
      LookupTurns(file, page, key, depth);
    }
  }

  lemma {:induction false} GivesUp(search: Search, way: Way, bad: Page -> bool, page: Page, depth: nat)
    requires Takes(search, way, bad)
    ensures search(page, depth) == Err(RecursionError) <==> Iterate(way, page, depth).Some?
    decreases depth
  {
    if depth == 0 {
    } else {
      assert Turn(search, way, bad, page, depth - 1);
      if way(page).Some? {
        GivesUp(search, way, bad, way(page).value, depth - 1);
      }
    }
  }

  predicate BadAfter(way: Way, bad: Page -> bool, page: Page, n: nat) {
    Iterate(way, page, n).Some? && bad(Iterate(way, page, n).value)
  }

  lemma {:induction false} ComesToBad(search: Search, way: Way, bad: Page -> bool, page: Page, depth: nat)
    requires Takes(search, way, bad)
    ensures search(page, depth) == Err(StructError) <==> exists n: nat :: n < depth && BadAfter(way, bad, page, n)
    decreases depth
  {
    if depth == 0 {
    } else {
      assert Turn(search, way, bad, page, depth - 1);
      assert BadAfter(way, bad, page, 0) == bad(page);
      if way(page).Some? {
        var next := way(page).value;
        ComesToBad(search, way, bad, next, depth - 1);
        forall n: nat | n > 0 ensures BadAfter(way, bad, page, n) == BadAfter(way, bad, next, n - 1) {
        }
        if n: nat :| n < depth - 1 && BadAfter(way, bad, next, n) {
          assert BadAfter(way, bad, page, n + 1);
        }
      }
    }
  }

  // ---- the errors that are not the reader's own ------------------------------------------------

  /** The search gives up for want of stack exactly when it is still hopping. */
  lemma {:induction false} GivesUpIff(file: File, page: Page, key: Bytes, depth: nat)
    ensures Lookup(ReaderOf(file), page, key, depth) == Err(RecursionError)
       <==> Iterate(WayOf(file, key), page, depth).Some?
  {
    LookupTakesItsWay(file, key);
    GivesUp(SearchOf(file, key), WayOf(file, key), Overrunning(key), page, depth);
  }

  /** The decoder's error escapes exactly when the way of the search, within the stack, comes to
      a page that overruns its bytes. */
  lemma {:induction false} DecoderErrorIff(file: File, page: Page, key: Bytes, depth: nat)
    ensures Lookup(ReaderOf(file), page, key, depth) == Err(StructError)
       <==> exists n: nat :: n < depth && BadAfter(WayOf(file, key), Overrunning(key), page, n)
  {
    LookupTakesItsWay(file, key);
    ComesToBad(SearchOf(file, key), WayOf(file, key), Overrunning(key), page, depth);
  }

  /** The bucket that a key of this one leads to. */
  function NextBucket(file: File, page: Page, key: Bytes, depth: nat): Option<Page> {
    var found := Lookup(ReaderOf(file), page, key, depth);
    if found.Err? || found.value.None? || found.value.value.0 % 2 == 0 || BucketPage(file, found.value.value.1).Err?
    then None
    else Some(BucketPage(file, found.value.value.1).value)
  }

  type Enter = (Page, Bytes) -> Option<Page>

  type Fails = (Page, Bytes) -> bool

  function EnterOf(file: File, depth: nat): Enter {
    (page: Page, key: Bytes) => NextBucket(file, page, key, depth)
  }

  function FailsOf(file: File, depth: nat, error: Error): Fails {
    (page: Page, key: Bytes) => Lookup(ReaderOf(file), page, key, depth) == Err(error)
  }

  /** The search for the path's key k fails, in the bucket that the keys before it lead to. */
  predicate FailsAt(enter: Enter, fails: Fails, page: Page, path: seq<Bytes>, k: nat)
    requires k < |path|
    decreases k
  {
    if k == 0 then fails(page, path[0])
    else enter(page, path[0]).Some? && FailsAt(enter, fails, enter(page, path[0]).value, path[1..], k - 1)
  }

  predicate FailsAtKey(enter: Enter, fails: Fails, page: Page, path: seq<Bytes>, k: nat) {
    k < |path| && FailsAt(enter, fails, page, path, k)
  }

  predicate FailsOnTheWay(enter: Enter, fails: Fails, page: Page, path: seq<Bytes>)
    decreases |path|
  {
    && path != []
    && (|| fails(page, path[0])
        || (enter(page, path[0]).Some? && FailsOnTheWay(enter, fails, enter(page, path[0]).value, path[1..])))
  }

  lemma {:induction false} FailsThere(enter: Enter, fails: Fails, page: Page, path: seq<Bytes>, k: nat)
    requires k < |path| && FailsAt(enter, fails, page, path, k)
    ensures FailsOnTheWay(enter, fails, page, path)
    decreases k
  {
    if k == 0 {
    } else {
      FailsThere(enter, fails, enter(page, path[0]).value, path[1..], k - 1);
    }
  }

  lemma {:induction false} FailsSomewhere(enter: Enter, fails: Fails, page: Page, path: seq<Bytes>) returns (k: nat)
    requires FailsOnTheWay(enter, fails, page, path)
    ensures k < |path| && FailsAt(enter, fails, page, path, k)
    decreases |path|
  {
    if fails(page, path[0]) {
      k := 0;
    } else {
      k := FailsSomewhere(enter, fails, enter(page, path[0]).value, path[1..]);
      k := k + 1;
    }
  }

  lemma {:induction false} FailsIff(enter: Enter, fails: Fails, page: Page, path: seq<Bytes>)
    ensures FailsOnTheWay(enter, fails, page, path)
       <==> exists k: nat :: FailsAtKey(enter, fails, page, path, k)
  {
    if FailsOnTheWay(enter, fails, page, path) {
      var k := FailsSomewhere(enter, fails, page, path);
      assert FailsAtKey(enter, fails, page, path, k);
    }
    forall k: nat | FailsAtKey(enter, fails, page, path, k) ensures FailsOnTheWay(enter, fails, page, path) {
      FailsThere(enter, fails, page, path, k);
    }
  }

  lemma {:induction false} GetStep(file: File, page: Page, path: seq<Bytes>, depth: nat, error: Error)
    requires path != [] && error != BoltReadError
    ensures GetFrom(file, page, path, depth) == Err(error)
       <==> || Lookup(ReaderOf(file), page, path[0], depth) == Err(error)
            || (var next := NextBucket(file, page, path[0], depth);
                next.Some? && GetFrom(file, next.value, path[1..], depth) == Err(error))
  {
    var found := Lookup(ReaderOf(file), page, path[0], depth);
    if found.Ok? && found.value.Some? && found.value.value.0 % 2 == 1 {
      var next := BucketPage(file, found.value.value.1);
      if next.Ok? && |path| > 1 {
        assert GetFrom(file, page, path, depth) == GetFrom(file, next.value, path[1..], depth);
      }
    }
  }

  lemma {:induction false} GetFails(file: File, page: Page, path: seq<Bytes>, depth: nat, error: Error)
    requires error != BoltReadError
    ensures GetFrom(file, page, path, depth) == Err(error)
       <==> FailsOnTheWay(EnterOf(file, depth), FailsOf(file, depth, error), page, path)
    decreases |path|
  {
    if path == [] {
    } else {
      GetStep(file, page, path, depth, error);
      var next := NextBucket(file, page, path[0], depth);
      if next.Some? {
        GetFails(file, next.value, path[1..], depth, error);
      }
    }
  }

  /** Reading a path fails with an error that is not the reader's own exactly when one of the
      searches along the path does. */
  lemma {:induction false} PathFailsIff(file: File, page: Page, path: seq<Bytes>, depth: nat, error: Error)
    requires error != BoltReadError
    ensures GetFrom(file, page, path, depth) == Err(error)
       <==> exists k: nat :: FailsAtKey(EnterOf(file, depth), FailsOf(file, depth, error), page, path, k)
  {
    GetFails(file, page, path, depth, error);
    FailsIff(EnterOf(file, depth), FailsOf(file, depth, error), page, path);
  }

  /** A leaf header alone, promising one element. */
  const TRUNCATED_LEAF: Bytes := [0, 0, 0, 0, 0, 0, 0, 0, 2, 0, 1, 0, 0, 0, 0, 0]

  lemma DecoderErrorEscapes()
    ensures LeafElements(Page(TRUNCATED_LEAF, 0)) == Err(StructError)
  {
    var page := Page(TRUNCATED_LEAF, 0);
    assert LittleEndian(page.data, 8, 2) == 2 by {
      assert LittleEndian(page.data, 9, 1) == 0;
    }
    assert LittleEndian(page.data, 10, 2) == 1 by {
      assert LittleEndian(page.data, 11, 1) == 0;
    }
    LeafFailures(page);
  }

  // ---- pages that lead back to themselves ------------------------------------------------------

  function PageCount(file: File): nat {
    if file.pageSize == 0 then 1 else (|file.data| + file.pageSize - 1) / file.pageSize
  }

  /** The file's pages, by number. */
  predicate IsPage(file: File, number: nat, page: Page) {
    number < PageCount(file) && page == Page(file.data, number * file.pageSize)
  }

  ghost predicate StaysInFile(file: File, way: Way) {
    forall page {:trigger way(page)} :: way(page).Some? ==> exists k: nat :: IsPage(file, k, way(page).value)
  }

  lemma OffsetOf(pgid: nat, size: nat, length: nat)
    requires size > 0 && pgid * size < length
    ensures pgid < (length + size - 1) / size
  {
    var q := (length + size - 1) / size;
    assert length <= q * size;
    Monotone(q, pgid, size);
  }

  lemma Monotone(a: nat, b: nat, size: nat)
    ensures a <= b ==> a * size <= b * size
  {
  }

  /** Every page hopped to is one of the file's. */
  lemma WayStaysInFile(file: File, key: Bytes)
    ensures StaysInFile(file, WayOf(file, key))
  {
    forall page | Hop(file, page, key).Some? ensures exists k: nat :: IsPage(file, k, Hop(file, page, key).value) {
      var node := NodeOf(page).value;
      var chosen := Descend(node.elementAt, key, 0, node.count, None).value.value;
      if file.pageSize > 0 {
        OffsetOf(chosen, file.pageSize, |file.data|);
        assert IsPage(file, chosen, Hop(file, page, key).value);
      } else {
        assert IsPage(file, 0, Hop(file, page, key).value);
      }
    }
  }

  lemma {:induction false} HopsNumbered(file: File, way: Way, page: Page, n: nat) returns (number: nat)
    requires StaysInFile(file, way) && n > 0 && Iterate(way, page, n).Some?
    ensures IsPage(file, number, Iterate(way, page, n).value)
    decreases n
  {
    if n == 1 {
      assert Iterate(way, page, 1) == way(page);
      number :| IsPage(file, number, way(page).value);
    } else {
      number := HopsNumbered(file, way, way(page).value, n - 1);
    }
  }

  /** The page met after n hops is the file's page of this number. */
  predicate IsMet(file: File, way: Way, page: Page, n: nat, number: nat) {
    Iterate(way, page, n).Some? && IsPage(file, number, Iterate(way, page, n).value)
  }

  /** The numbers of the first n pages hopped to. */
  lemma {:induction false} Numbers(file: File, way: Way, page: Page, n: nat) returns (numbers: seq<nat>)
    requires StaysInFile(file, way) && Iterate(way, page, n).Some?
    ensures |numbers| == n
    ensures forall k: nat | k < n :: IsMet(file, way, page, k + 1, numbers[k])
    decreases n
  {
    if n == 0 {
      numbers := [];
    } else {
      IterateOnward(way, page, n - 1, 1);
      var before := Numbers(file, way, page, n - 1);
      var last := HopsNumbered(file, way, page, n);
      numbers := before + [last];
      forall k: nat | k < n ensures IsMet(file, way, page, k + 1, numbers[k]) {
        assert k < n - 1 ==> numbers[k] == before[k];
      }
    }
  }

  /** After more hops than the file has pages, some page has been met twice. */
  lemma MetTwice(file: File, way: Way, page: Page, n: nat) returns (i: nat, j: nat)
    requires StaysInFile(file, way) && n > PageCount(file) && Iterate(way, page, n).Some?
    ensures 0 < i < j <= n && Iterate(way, page, i).Some? && Iterate(way, page, i) == Iterate(way, page, j)
  {
    var numbers := Numbers(file, way, page, n);
    forall x <- numbers ensures 0 <= x < PageCount(file) {
      var k: nat :| k < n && numbers[k] == x;
    }
    var a, b := Pigeonhole(numbers, 0, PageCount(file));
    assert IsMet(file, way, page, a + 1, numbers[a]) && IsMet(file, way, page, b + 1, numbers[b]);
    i, j := a + 1, b + 1;
  }

  lemma {:induction false} Endless(file: File, way: Way, page: Page, n: nat)
    requires StaysInFile(file, way) && Iterate(way, page, PageCount(file) + 1).Some?
    ensures Iterate(way, page, n).Some?
  {
    var i, j := MetTwice(file, way, page, PageCount(file) + 1);
    IterateOnward(way, page, i, j - i);
    LoopsForever(way, Iterate(way, page, i).value, j - i, n);
    IterateOnward(way, page, i, n);
    IterateOnward(way, page, n, i);
  }

  /** No stack is deep enough exactly when the search is still hopping after more hops than the
      file has pages. */
  lemma CycleIsNotCaughtIff(file: File, page: Page, key: Bytes)
    ensures (forall depth: nat :: Lookup(ReaderOf(file), page, key, depth) == Err(RecursionError))
       <==> Iterate(WayOf(file, key), page, PageCount(file) + 1).Some?
  {
    GivesUpIff(file, page, key, PageCount(file) + 1);
    if Iterate(WayOf(file, key), page, PageCount(file) + 1).Some? {
      WayStaysInFile(file, key);
      forall depth: nat ensures Lookup(ReaderOf(file), page, key, depth) == Err(RecursionError) {
        Endless(file, WayOf(file, key), page, depth);
        GivesUpIff(file, page, key, depth);
      }
    }
  }

  /** A meta page of a file with pages of 32 bytes, whose root is page 2. */
  const META: Bytes :=
    [0, 0, 0, 0, 0, 0, 0, 0, 4, 0, 0, 0, 0, 0, 0, 0, 237, 218, 12, 237, 2, 0, 0, 0, 32, 0, 0, 0, 0, 0, 0, 0,
     2, 0, 0, 0, 0, 0, 0, 0, 0, 0, 0, 0, 0, 0, 0, 0, 0, 0, 0, 0, 0, 0, 0, 0, 1, 0, 0, 0, 0, 0, 0, 0]

  /** A branch page of one element, whose child is the given page. */
  function OneWay(pgid: Byte): (page: Bytes)
    ensures |page| == 32
  {
    [0, 0, 0, 0, 0, 0, 0, 0, 1, 0, 1, 0, 0, 0, 0, 0, 16, 0, 0, 0, 0, 0, 0, 0, pgid, 0, 0, 0, 0, 0, 0, 0]
  }

  /** Pages 2 and 3 are each other's only child. */
  const CYCLIC := File(META + OneWay(3) + OneWay(2), 32, 2)

  lemma {:induction false} Zeros(data: Bytes, off: nat, width: nat)
    requires off + width <= |data| && forall k | off <= k < off + width :: data[k] == 0
    ensures LittleEndian(data, off, width) == 0
    decreases width
  {
    if width == 0 {
    } else {
      Zeros(data, off + 1, width - 1);
    }
  }

  lemma OneWayHeader(data: Bytes, off: nat, pgid: Byte)
    requires off + 32 <= |data| && data[off..off + 32] == OneWay(pgid)
    ensures HeaderOf(Page(data, off)) == Ok(Header(1, 1))
    ensures BranchElement(Page(data, off), 0).Ok? && BranchElement(Page(data, off), 0).value.1 == pgid
  {
    forall k | off <= k < off + 32 ensures data[k] == OneWay(pgid)[k - off] {
      assert data[off..off + 32][k - off] == OneWay(pgid)[k - off];
    }
    assert LittleEndian(data, off + 8, 2) == 1 by {
      Zeros(data, off + 9, 1);
    }
    assert LittleEndian(data, off + 10, 2) == 1 by {
      Zeros(data, off + 11, 1);
    }
    assert LittleEndian(data, off + 24, 8) == pgid by {
      Zeros(data, off + 25, 7);
    }
  }

  lemma OneWayHop(file: File, off: nat, pgid: Byte, key: Bytes)
    requires off + 32 <= |file.data| && file.data[off..off + 32] == OneWay(pgid)
    requires pgid * file.pageSize < |file.data|
    ensures Hop(file, Page(file.data, off), key) == Some(Page(file.data, pgid * file.pageSize))
  {
    var page := Page(file.data, off);
    OneWayHeader(file.data, off, pgid);
    var elementAt: BranchElements := (i: nat) => BranchElement(page, i);
    assert Descend(elementAt, key, 1, 1, Some(pgid)) == Ok(Some(pgid));
    assert Descend(elementAt, key, 0, 1, None) == Ok(Some(pgid));
  }

  /** The failing input: 128 bytes on which no search ends. */
  lemma CyclicFileIsNotCaught(key: Bytes, depth: nat)
    ensures GetSpec(CYCLIC, [key], depth) == Err(RecursionError)
  {
    var data, way := CYCLIC.data, WayOf(CYCLIC, key);
    assert data[64..96] == OneWay(3) && data[96..128] == OneWay(2);
    OneWayHop(CYCLIC, 64, 3, key);
    OneWayHop(CYCLIC, 96, 2, key);
    assert way(Page(data, 64)) == Some(Page(data, 96)) && way(Page(data, 96)) == Some(Page(data, 64));
    assert Iterate(way, Page(data, 96), 1) == Some(Page(data, 64));
    LoopsForever(way, Page(data, 64), 2, depth);
    GivesUpIff(CYCLIC, Page(data, 64), key, depth);
  }
}
