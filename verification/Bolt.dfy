// Reading values out of a boltdb file.
module Bolt {
  // Pages, B+tree search and nested buckets.

  import opened Basics
  import opened Order

  /** The reader's own error, the decoder's, and the interpreter's recursion limit. */
  datatype Error = BoltReadError | StructError | RecursionError

  datatype Result<+T> = Ok(value: T) | Err(error: Error) {
    predicate IsFailure() {
      Err?
    }

    function PropagateFailure<U>(): Result<U>
      requires Err?
    {
      Err(error)
    }

    function Extract(): T
      requires Ok?
    {
      value
    }
  }

  // ---- bytes --------------------------------------------------------------------------

  /** `width` bytes from `off`, least significant first. */
  function LittleEndian(data: Bytes, off: nat, width: nat): nat
    requires off + width <= |data|
    decreases |data| - off
  {
    if width == 0 then 0 else data[off] + 256 * LittleEndian(data, off + 1, width - 1)
  }

  /** `data[a:b]`, which clips instead of failing. */
  function Slice(data: Bytes, a: nat, b: nat): Bytes {
    var hi := if b <= |data| then b else |data|;
    if a <= hi then data[a..hi] else []
  }

  // ---- pages --------------------------------------------------------------------------

  const PAGE_HEADER := 16
  const BUCKET_HEADER := 16

  datatype Page = Page(data: Bytes, off: nat)

  datatype File = File(data: Bytes, pageSize: nat, root: nat)

  datatype Header = Header(flags: nat, count: nat) {
    predicate IsBranch() {
      flags % 2 == 1
    }

    predicate IsLeaf() {
      flags / 2 % 2 == 1
    }
  }

  function HeaderOf(page: Page): Result<Header> {
    if page.off + PAGE_HEADER > |page.data| then Err(BoltReadError)
    else Ok(Header(LittleEndian(page.data, page.off + 8, 2), LittleEndian(page.data, page.off + 10, 2)))
  }

  function PageAt(file: File, pgid: nat): Result<Page> {
    if pgid * file.pageSize >= |file.data| then Err(BoltReadError)
    else Ok(Page(file.data, pgid * file.pageSize))
  }

  datatype Element = Element(flags: nat, key: Bytes, value: Bytes)

  function ElementOffset(page: Page, i: nat): nat {
    page.off + PAGE_HEADER + i * 16
  }

  function LeafElement(page: Page, i: nat): Result<Element> {
    var eoff := ElementOffset(page, i);
    if eoff + 16 > |page.data| then Err(StructError)
    else
      var kstart := eoff + LittleEndian(page.data, eoff + 4, 4);
      var ksize, vsize := LittleEndian(page.data, eoff + 8, 4), LittleEndian(page.data, eoff + 12, 4);
      Ok(Element(LittleEndian(page.data, eoff, 4), Slice(page.data, kstart, kstart + ksize),
                 Slice(page.data, kstart + ksize, kstart + ksize + vsize)))
  }

  /** Separator key and child page of a branch element. */
  function BranchElement(page: Page, i: nat): Result<(Bytes, nat)> {
    var eoff := ElementOffset(page, i);
    if eoff + 16 > |page.data| then Err(StructError)
    else
      var kstart := eoff + LittleEndian(page.data, eoff, 4);
      Ok((Slice(page.data, kstart, kstart + LittleEndian(page.data, eoff + 4, 4)),
          LittleEndian(page.data, eoff + 8, 8)))
  }

  function FirstElements(page: Page, n: nat): Result<seq<Element>> {
    if n == 0 then Ok([])
    else
      var before :- FirstElements(page, n - 1);
      var e :- LeafElement(page, n - 1);
      Ok(before + [e])
  }

  function LeafElements(page: Page): Result<seq<Element>> {
    var h :- HeaderOf(page);
    if !h.IsLeaf() then Err(BoltReadError) else FirstElements(page, h.count)
  }

  method ReadLeafElements(page: Page) returns (r: Result<seq<Element>>)
    ensures r == LeafElements(page)
  {
    var h := HeaderOf(page);
    if h.Err? {
      return Err(h.error);
    }
    if !h.value.IsLeaf() {
      return Err(BoltReadError);
    }
    var out: seq<Element> := [];
    for i := 0 to h.value.count
      invariant FirstElements(page, i) == Ok(out)
    {
      var e := LeafElement(page, i);
      if e.Err? {
        FirstElementsFail(page, i, h.value.count);
        return Err(e.error);
      }
      out := out + [e.value];
    }
    return Ok(out);
  }

  lemma {:induction false} FirstElementsFail(page: Page, i: nat, n: nat)
    requires i < n && FirstElements(page, i).Ok? && LeafElement(page, i).Err?
    ensures FirstElements(page, n) == Err(LeafElement(page, i).error)
  {
    if n > i + 1 {
      FirstElementsFail(page, i, n - 1);
    }
  }

  type BranchElements = nat -> Result<(Bytes, nat)>

  /** What a page turns out to be once its header is read. */
  datatype Node = LeafPage(elements: Result<seq<Element>>) | BranchPage(count: nat, elementAt: BranchElements)

  function NodeOf(page: Page): Result<Node> {
    var h :- HeaderOf(page);
    if h.IsLeaf() then Ok(LeafPage(LeafElements(page)))
    else if h.IsBranch() then Ok(BranchPage(h.count, (i: nat) => BranchElement(page, i)))
    else Err(BoltReadError)
  }

  /** How a search gets at pages: by number, and from a page to what it holds. */
  datatype Reader = Reader(fetch: nat -> Result<Page>, node: Page -> Result<Node>)

  function ReaderOf(file: File): Reader {
    Reader((pgid: nat) => PageAt(file, pgid), (page: Page) => NodeOf(page))
  }

  // ---- search ---------------------------------------------------------------------------

  function FirstMatch(elements: seq<Element>, key: Bytes): Option<(nat, Bytes)> {
    if elements == [] then None
    else if elements[0].key == key then Some((elements[0].flags, elements[0].value))
    else FirstMatch(elements[1..], key)
  }

  /** The child a branch page sends a key to: separators are read until one exceeds the key,
      the first one never stopping the scan. */
  function Descend(elements: BranchElements, key: Bytes, i: nat, count: nat, chosen: Option<nat>): Result<Option<nat>>
    requires i <= count
    decreases count - i
  {
    if i == count then Ok(chosen)
    else
      var e :- elements(i);
      if LexLe(e.0, key) || i == 0 then Descend(elements, key, i + 1, count, Some(e.1)) else Ok(chosen)
  }

  /** `_lookup_in`, with `depth` calls left before the interpreter gives up. */
  function Lookup(reader: Reader, page: Page, key: Bytes, depth: nat): Result<Option<(nat, Bytes)>>
    decreases depth
  {
    if depth == 0 then Err(RecursionError)
    else
      var node :- reader.node(page);
      match node
      case LeafPage(elements) =>
        var es :- elements;
        Ok(FirstMatch(es, key))
      case BranchPage(count, elementAt) =>
        var chosen :- Descend(elementAt, key, 0, count, None);
        if chosen.None? then Ok(None)
        else
          var child :- reader.fetch(chosen.value);
          Lookup(reader, child, key, depth - 1)
  }

  method LookupIn(file: File, page: Page, key: Bytes, depth: nat) returns (r: Result<Option<(nat, Bytes)>>)
    ensures r == Lookup(ReaderOf(file), page, key, depth)
    decreases depth
  {
    if depth == 0 {
      return Err(RecursionError);
    }
    var h := HeaderOf(page);
    if h.Err? {
      return Err(h.error);
    }
    if h.value.IsLeaf() {
      r := SearchLeaf(page, key);
    } else if h.value.IsBranch() {
      var chosen := ChooseChild(page, key, h.value.count);
      if chosen.Err? {
        return Err(chosen.error);
      }
      if chosen.value.None? {
        return Ok(None);
      }
      var child := PageAt(file, chosen.value.value);
      if child.Err? {
        return Err(child.error);
      }
      r := LookupIn(file, child.value, key, depth - 1);
    } else {
      r := Err(BoltReadError);
    }
  }

  method SearchLeaf(page: Page, key: Bytes) returns (r: Result<Option<(nat, Bytes)>>)
    ensures LeafElements(page).Ok? ==> r == Ok(FirstMatch(LeafElements(page).value, key))
    ensures LeafElements(page).Err? ==> r == Err(LeafElements(page).error)
  {
    var elements := ReadLeafElements(page);
    if elements.Err? {
      return Err(elements.error);
    }
    var found := FindFirst(elements.value, key);
    r := Ok(found);
  }

  method ChooseChild(page: Page, key: Bytes, count: nat) returns (r: Result<Option<nat>>)
    ensures r == Descend((i: nat) => BranchElement(page, i), key, 0, count, None)
  {
    ghost var elementAt: BranchElements := (i: nat) => BranchElement(page, i);
    forall i: nat ensures IsElement(elementAt, page, i) {
    }
    r := ScanChildren(elementAt, page, key, count);
  }

  predicate IsElement(elementAt: BranchElements, page: Page, i: nat) {
    elementAt(i) == BranchElement(page, i)
  }

  method ReadChild(ghost elementAt: BranchElements, page: Page, i: nat) returns (e: Result<(Bytes, nat)>)
    requires IsElement(elementAt, page, i)
    ensures e == elementAt(i)
  {
    e := BranchElement(page, i);
  }

  method ScanChildren(ghost elementAt: BranchElements, page: Page, key: Bytes, count: nat)
    returns (r: Result<Option<nat>>)
    requires forall i: nat {:trigger IsElement(elementAt, page, i)} :: IsElement(elementAt, page, i)
    ensures r == Descend(elementAt, key, 0, count, None)
  {
    var chosen: Option<nat> := None;
    for i := 0 to count
      invariant Descend(elementAt, key, 0, count, None) == Descend(elementAt, key, i, count, chosen)
    {
      var e := ReadChild(elementAt, page, i);
      if e.Err? {
        return Err(e.error);
      }
      if LexLe(e.value.0, key) || i == 0 {
        chosen := Some(e.value.1);
      } else {
        return Ok(chosen);
      }
    }
    return Ok(chosen);
  }

  method FindFirst(elements: seq<Element>, key: Bytes) returns (r: Option<(nat, Bytes)>)
    ensures r == FirstMatch(elements, key)
  {
    for i := 0 to |elements|
      invariant FirstMatch(elements, key) == FirstMatch(elements[i..], key)
    {
      assert elements[i..][1..] == elements[i + 1..];
      if elements[i].key == key {
        return Some((elements[i].flags, elements[i].value));
      }
    }
    return None;
  }

  // ---- what a page tree means -------------------------------------------------------------

  datatype Tree = Leaf(elements: seq<Element>) | Branch(separators: seq<Bytes>, children: seq<Tree>)

  /** The bytes from `page` on spell out this tree. */
  ghost predicate Decodes(reader: Reader, page: Page, t: Tree)
    decreases t
  {
    && reader.node(page).Ok?
    && match t
       case Leaf(es) => reader.node(page).value == LeafPage(Ok(es))
       case Branch(seps, kids) =>
         && IsBranchOf(reader.node(page).value, seps, |kids|)
         && forall i: nat | i < |kids| ::
            HoldsChild(reader, page, i) && Decodes(reader, Child(reader, page, i), kids[i])
  }

  ghost predicate IsBranchOf(node: Node, seps: seq<Bytes>, count: nat) {
    node.BranchPage? && node.count == count == |seps| && HasSeparators(node.elementAt, seps)
  }

  ghost predicate HasSeparators(elementAt: BranchElements, seps: seq<Bytes>) {
    forall j: nat | j < |seps| :: elementAt(j).Ok? && elementAt(j).value.0 == seps[j]
  }

  predicate HoldsChild(reader: Reader, page: Page, i: nat) {
    && reader.node(page).Ok? && reader.node(page).value.BranchPage?
    && var e := reader.node(page).value.elementAt(i); e.Ok? && reader.fetch(e.value.1).Ok?
  }

  function Child(reader: Reader, page: Page, i: nat): Page
    requires HoldsChild(reader, page, i)
  {
    reader.fetch(reader.node(page).value.elementAt(i).value.1).value
  }

  /** All leaf elements, left to right. */
  function InOrder(t: Tree): seq<Element> {
    match t
    case Leaf(es) => es
    case Branch(_, kids) => InOrderAll(kids)
  }

  function InOrderAll(kids: seq<Tree>): seq<Element> {
    if kids == [] then [] else InOrder(kids[0]) + InOrderAll(kids[1..])
  }

  function Height(t: Tree): nat {
    match t
    case Leaf(_) => 1
    case Branch(_, kids) => 1 + MaxHeight(kids)
  }

  function MaxHeight(kids: seq<Tree>): nat {
    if kids == [] then 0
    else
      var a, b := Height(kids[0]), MaxHeight(kids[1..]);
      if a >= b then a else b
  }

  /** Separators ascend, and each child's keys lie from its separator up to the next one. The
      first separator bounds nothing. */
  ghost predicate Ordered(t: Tree) {
    match t
    case Leaf(_) => true
    case Branch(seps, kids) =>
      && |seps| == |kids|
      && (forall i, j | 0 <= i < j < |seps| :: LexLe(seps[i], seps[j]))
      && (forall i | 0 <= i < |kids| :: Ordered(kids[i]))
      && (forall i, e | 0 <= i < |kids| && e in InOrder(kids[i]) ::
            && (i > 0 ==> LexLe(seps[i], e.key)) && (i + 1 < |seps| ==> !LexLe(seps[i + 1], e.key)))
  }

  lemma {:induction false} FirstMatchConcat(a: seq<Element>, b: seq<Element>, key: Bytes)
    ensures FirstMatch(a + b, key) == if FirstMatch(a, key).Some? then FirstMatch(a, key) else FirstMatch(b, key)
    decreases |a|
  {
    if a == [] {
      assert a + b == b;
    } else {
      assert (a + b)[1..] == a[1..] + b;
      FirstMatchConcat(a[1..], b, key);
    }
  }

  lemma {:induction false} NoMatch(elements: seq<Element>, key: Bytes)
    requires forall e <- elements :: e.key != key
    ensures FirstMatch(elements, key) == None
  {
    if elements == [] {
    } else {
      NoMatch(elements[1..], key);
    }
  }

  /** Where only child c can hold the key, searching everything is searching child c. */
  lemma {:induction false} OnlyChild(kids: seq<Tree>, c: nat, key: Bytes)
    requires c < |kids|
    requires forall j, e | 0 <= j < |kids| && j != c && e in InOrder(kids[j]) :: e.key != key
    ensures FirstMatch(InOrderAll(kids), key) == FirstMatch(InOrder(kids[c]), key)
    decreases |kids|
  {
    FirstMatchConcat(InOrder(kids[0]), InOrderAll(kids[1..]), key);
    if c == 0 {
      NoneElsewhere(kids[1..], key);
    } else {
      NoMatch(InOrder(kids[0]), key);
      OnlyChild(kids[1..], c - 1, key);
    }
  }

  lemma {:induction false} NoneElsewhere(kids: seq<Tree>, key: Bytes)
    requires forall j, e | 0 <= j < |kids| && e in InOrder(kids[j]) :: e.key != key
    ensures FirstMatch(InOrderAll(kids), key) == None
    decreases |kids|
  {
    if kids == [] {
    } else {
      FirstMatchConcat(InOrder(kids[0]), InOrderAll(kids[1..]), key);
      NoMatch(InOrder(kids[0]), key);
      NoneElsewhere(kids[1..], key);
    }
  }

  /** The last child whose separator, and all before it, do not exceed the key. */
  function Pick(seps: seq<Bytes>, key: Bytes, i: nat): (c: nat)
    requires 1 <= i <= |seps|
    ensures i - 1 <= c < |seps|
    ensures c >= i ==> LexLe(seps[c], key)
    ensures c + 1 < |seps| ==> !LexLe(seps[c + 1], key)
    decreases |seps| - i
  {
    if i < |seps| && LexLe(seps[i], key) then Pick(seps, key, i + 1) else i - 1
  }

  lemma {:induction false} DescendPicks(elements: BranchElements, seps: seq<Bytes>, key: Bytes, i: nat)
    requires 1 <= i <= |seps| && HasSeparators(elements, seps)
    ensures Descend(elements, key, i, |seps|, Some(elements(i - 1).value.1))
         == Ok(Some(elements(Pick(seps, key, i)).value.1))
    decreases |seps| - i
  {
    if i < |seps| && LexLe(seps[i], key) {
      DescendPicks(elements, seps, key, i + 1);
    }
  }

  lemma {:induction false} PickIsOnly(seps: seq<Bytes>, kids: seq<Tree>, key: Bytes, j: nat, e: Element)
    requires Ordered(Branch(seps, kids)) && seps != [] && j < |kids| && e in InOrder(kids[j])
    requires j != Pick(seps, key, 1)
    ensures e.key != key
  {
    var c := Pick(seps, key, 1);
    if j < c {
      if j + 1 < c {
        LexTrans(seps[j + 1], seps[c], key);
      }
      assert LexLe(seps[j + 1], key);
    } else {
      assert !LexLe(seps[c + 1], key);
      if c + 1 < j && LexLe(seps[j], key) {
        LexTrans(seps[c + 1], seps[j], key);
      }
      assert !LexLe(seps[j], key);
    }
  }

  lemma {:induction false} HeightOfChild(kids: seq<Tree>, i: nat)
    requires i < |kids|
    ensures Height(kids[i]) <= MaxHeight(kids)
  {
    if i == 0 {
    } else {
      HeightOfChild(kids[1..], i - 1);
    }
  }

  /** A branch page hands the search to the one child that can hold the key. */
  lemma BranchLookup(reader: Reader, page: Page, seps: seq<Bytes>, key: Bytes, depth: nat)
    requires reader.node(page).Ok? && IsBranchOf(reader.node(page).value, seps, |seps|) && seps != [] && depth > 0
    requires HoldsChild(reader, page, Pick(seps, key, 1))
    ensures Lookup(reader, page, key, depth) == Lookup(reader, Child(reader, page, Pick(seps, key, 1)), key, depth - 1)
  {
    DescendFirst(reader.node(page).value.elementAt, seps, key);
  }

  lemma {:induction false} DescendFirst(elements: BranchElements, seps: seq<Bytes>, key: Bytes)
    requires seps != [] && HasSeparators(elements, seps)
    ensures Descend(elements, key, 0, |seps|, None) == Ok(Some(elements(Pick(seps, key, 1)).value.1))
  {
    DescendPicks(elements, seps, key, 1);
  }

  lemma {:induction false} BranchSearch(seps: seq<Bytes>, kids: seq<Tree>, key: Bytes)
    requires Ordered(Branch(seps, kids)) && kids != []
    ensures FirstMatch(InOrderAll(kids), key) == FirstMatch(InOrder(kids[Pick(seps, key, 1)]), key)
  {
    var c := Pick(seps, key, 1);
    forall j, e | 0 <= j < |kids| && j != c && e in InOrder(kids[j]) ensures e.key != key {
      PickIsOnly(seps, kids, key, j, e);
    }
    OnlyChild(kids, c, key);
  }

  lemma {:induction false} FlatLookup(reader: Reader, page: Page, t: Tree, key: Bytes, depth: nat)
    requires Decodes(reader, page, t) && depth > 0 && (t.Leaf? || t.children == [])
    ensures Lookup(reader, page, key, depth) == Ok(FirstMatch(InOrder(t), key))
  {
  }

  /** The child the search goes on to: its page, its own tree, and one level less. */
  lemma {:induction false} ChildFacts(reader: Reader, page: Page, seps: seq<Bytes>, kids: seq<Tree>, c: nat)
    requires Decodes(reader, page, Branch(seps, kids)) && Ordered(Branch(seps, kids)) && c < |kids|
    ensures HoldsChild(reader, page, c) && Decodes(reader, Child(reader, page, c), kids[c])
    ensures Ordered(kids[c]) && Height(kids[c]) < Height(Branch(seps, kids))
  {
    HeightOfChild(kids, c);
  }

  /** A branch page answers what its chosen child answers, and so does a linear search. */
  lemma BranchStep(reader: Reader, page: Page, seps: seq<Bytes>, kids: seq<Tree>, key: Bytes, depth: nat)
    returns (child: Page, kid: Tree)
    requires Decodes(reader, page, Branch(seps, kids)) && Ordered(Branch(seps, kids)) && kids != [] && depth > 0
    ensures Decodes(reader, child, kid) && Ordered(kid) && kid in kids && Height(kid) < Height(Branch(seps, kids))
    ensures Lookup(reader, page, key, depth) == Lookup(reader, child, key, depth - 1)
    ensures FirstMatch(InOrderAll(kids), key) == FirstMatch(InOrder(kid), key)
  {
    var c := Pick(seps, key, 1);
    ChildFacts(reader, page, seps, kids, c);
    BranchLookup(reader, page, seps, key, depth);
    BranchSearch(seps, kids, key);
    child, kid := Child(reader, page, c), kids[c];
  }

  /** On an ordered tree within the recursion limit, the search answers exactly what a linear
      search of all leaf elements answers. */
  lemma {:induction false} LookupAgrees(reader: Reader, page: Page, t: Tree, key: Bytes, depth: nat)
    requires Decodes(reader, page, t) && Ordered(t) && Height(t) <= depth
    ensures Lookup(reader, page, key, depth) == Ok(FirstMatch(InOrder(t), key))
    decreases t
  {
    if t.Leaf? || t.children == [] {
      FlatLookup(reader, page, t, key, depth);
    } else {
      var child, kid := BranchStep(reader, page, t.separators, t.children, key, depth);
      LookupAgrees(reader, child, kid, key, depth - 1);
    }
  }

  // ---- nested buckets -----------------------------------------------------------------------

  /** Where a bucket element's page is: inside its value, or a page of its own. */
  function BucketPage(file: File, value: Bytes): Result<Page> {
    if |value| < BUCKET_HEADER then Err(BoltReadError)
    else
      var root := LittleEndian(value, 0, 8);
      if root == 0 then Ok(Page(value, BUCKET_HEADER)) else PageAt(file, root)
  }

  function GetFrom(file: File, page: Page, path: seq<Bytes>, depth: nat): Result<Option<Bytes>>
    decreases |path|
  {
    if path == [] then Ok(None)
    else
      var found :- Lookup(ReaderOf(file), page, path[0], depth);
      if found.None? then Ok(None)
      else
        var (flags, value) := found.value;
        if |path| == 1 then Ok(if flags % 2 == 1 then None else Some(value))
        else if flags % 2 == 0 then Ok(None)
        else
          var next :- BucketPage(file, value);
          GetFrom(file, next, path[1..], depth)
  }

  function GetSpec(file: File, path: seq<Bytes>, depth: nat): Result<Option<Bytes>> {
    if path == [] then Ok(None)
    else
      var page :- PageAt(file, file.root);
      GetFrom(file, page, path, depth)
  }

  method Get(file: File, path: seq<Bytes>, depth: nat) returns (r: Result<Option<Bytes>>)
    ensures r == GetSpec(file, path, depth)
  {
    if path == [] {
      return Ok(None);
    }
    var start := PageAt(file, file.root);
    if start.Err? {
      return Err(start.error);
    }
    var page := start.value;
    for i := 0 to |path|
      invariant GetFrom(file, start.value, path, depth) == GetFrom(file, page, path[i..], depth)
    {
      assert path[i..][1..] == path[i + 1..];
      var found := LookupIn(file, page, path[i], depth);
      if found.Err? {
        return Err(found.error);
      }
      if found.value.None? {
        return Ok(None);
      }
      var (flags, value) := found.value.value;
      if i == |path| - 1 {
        return Ok(if flags % 2 == 1 then None else Some(value));
      }
      if flags % 2 == 0 {
        return Ok(None);
      }
      var next := BucketPage(file, value);
      if next.Err? {
        return Err(next.error);
      }
      page := next.value;
    }
    return Ok(None);
  }

  /** What the file stands for: buckets of values and further buckets. */
  datatype Bucket = Bucket(entries: map<Bytes, Entry>)
  datatype Entry = Plain(value: Bytes) | Sub(bucket: Bucket)

  function NestedGet(b: Bucket, path: seq<Bytes>): Option<Bytes>
    decreases |path|
  {
    if path == [] || path[0] !in b.entries then None
    else
      match b.entries[path[0]]
      case Plain(v) => if |path| == 1 then Some(v) else None
      case Sub(inner) => if |path| == 1 then None else NestedGet(inner, path[1..])
  }

  /** `page` is the root of an ordered tree whose elements are this bucket's entries, nested
      buckets sitting inline or on pages of their own. */
  ghost predicate Holds(file: File, page: Page, b: Bucket, depth: nat)
    decreases b
  {
    exists t :: IsTreeAt(ReaderOf(file), page, t, depth)
                && forall key :: EntryHolds(file, FirstMatch(InOrder(t), key), b, key, depth)
  }

  ghost predicate IsTreeAt(reader: Reader, page: Page, t: Tree, depth: nat) {
    Decodes(reader, page, t) && Ordered(t) && Height(t) <= depth
  }

  ghost predicate EntryHolds(file: File, found: Option<(nat, Bytes)>, b: Bucket, key: Bytes, depth: nat)
    decreases b, 0
  {
    match found
    case None => key !in b.entries
    case Some((flags, value)) =>
      && key in b.entries
      && match b.entries[key]
         case Plain(v) => flags % 2 == 0 && value == v
         case Sub(inner) => flags % 2 == 1 && BucketPage(file, value).Ok?
                            && Holds(file, BucketPage(file, value).value, inner, depth)
  }

  /** One key in one bucket: the search through its pages is a look at its entries. */
  lemma OneLevel(file: File, page: Page, b: Bucket, key: Bytes, depth: nat) returns (found: Option<(nat, Bytes)>)
    requires Holds(file, page, b, depth)
    ensures Lookup(ReaderOf(file), page, key, depth) == Ok(found) && EntryHolds(file, found, b, key, depth)
  {
    var t :| IsTreeAt(ReaderOf(file), page, t, depth)
             && forall key :: EntryHolds(file, FirstMatch(InOrder(t), key), b, key, depth);
    LookupAgrees(ReaderOf(file), page, t, key, depth);
    found := FirstMatch(InOrder(t), key);
  }

  /** Reading a path walks the nested buckets: a bucket at the end and a value midway both
      read as absent. */
  lemma {:induction false} GetRefines(file: File, page: Page, b: Bucket, path: seq<Bytes>, depth: nat)
    requires Holds(file, page, b, depth)
    ensures GetFrom(file, page, path, depth) == Ok(NestedGet(b, path))
    decreases |path|
  {
    if path == [] {
    } else {
      var found := OneLevel(file, page, b, path[0], depth);
      if |path| > 1 && found.Some? && b.entries[path[0]].Sub? {
        GetRefines(file, BucketPage(file, found.value.1).value, b.entries[path[0]].bucket, path[1..], depth);
      }
    }
  }

  /** Whether its buckets are inline or paged, and however its trees are cut, a file answers by
      the buckets it stands for. */
  lemma {:induction false} PlacementIsInvisible(file: File, page: Page, other: File, otherPage: Page, b: Bucket,
                                                path: seq<Bytes>, depth: nat)
    requires Holds(file, page, b, depth) && Holds(other, otherPage, b, depth)
    ensures GetFrom(file, page, path, depth) == GetFrom(other, otherPage, path, depth)
  {
    GetRefines(file, page, b, path, depth);
    GetRefines(other, otherPage, b, path, depth);
  }
}
