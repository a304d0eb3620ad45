// Writing whole files, and that reading a path gives back what was written.
module BoltWriter {
  // Buckets are written into bytes with their trees, their pages and their inline values.

  import opened Basics
  import opened Bolt
  import opened BoltPages
  import opened Order

  /** How a bucket is to be laid out: as one leaf page, or as a branch page over further pages. */
  datatype Plan = Flat(items: seq<Item>) | Fork(separators: seq<Bytes>, parts: seq<Plan>)

  datatype Item = Value(key: Bytes, value: Bytes) | Inline(key: Bytes, plan: Plan) | Paged(key: Bytes, plan: Plan)

  /** The bytes of so many pages. */
  function Span(pages: nat, size: nat): nat {
    if pages == 0 then 0 else size + Span(pages - 1, size)
  }

  lemma {:induction false} SpanIs(pages: nat, size: nat)
    ensures Span(pages, size) == pages * size
  {
    if pages == 0 {
    } else {
      SpanIs(pages - 1, size);
    }
  }

  lemma {:induction false} SpanAdd(m: nat, n: nat, size: nat)
    ensures Span(m + n, size) == Span(m, size) + Span(n, size)
  {
    if m == 0 {
    } else {
      SpanAdd(m - 1, n, size);
    }
  }

  /** How many pages so many bytes take. */
  function PagesFor(n: nat, size: nat): (r: nat)
    requires size > 0
    ensures Span(r, size) >= n
    decreases n
  {
    if n <= size then 1 else 1 + PagesFor(n - size, size)
  }

  /** The pages so far, whole ones. */
  datatype Disk = Disk(data: Bytes, pages: nat) {
    predicate Valid(pageSize: nat) {
      pageSize > 0 && pages > 0 && |data| == Span(pages, pageSize)
    }
  }

  const BLANK := Frame(Digits(0, 8), Digits(0, 4), 0)

  function Zeros(n: nat): (r: Bytes)
    ensures |r| == n
  {
    seq(n, i => 0)
  }

  /** An image on pages of its own, the last one filled up. */
  function Place(disk: Disk, image: Bytes, pageSize: nat): (d: Disk)
    requires disk.Valid(pageSize)
    ensures d.Valid(pageSize) && disk.data + image <= d.data
  {
    var count := PagesFor(|image|, pageSize);
    SpanAdd(disk.pages, count, pageSize);
    Disk(disk.data + image + Zeros(Span(count, pageSize) - |image|), disk.pages + count)
  }

  /** What a bucket becomes: the image of its root page, to be put inline or on a page, the disk
      with everything below it, and the tree this spells out. */
  datatype Written = Written(image: Bytes, disk: Disk, tree: Tree)

  datatype Items = Items(elements: seq<Element>, disk: Disk)

  datatype Parts = Parts(numbers: seq<nat>, disk: Disk, trees: seq<Tree>)

  function Pointers(separators: seq<Bytes>, numbers: seq<nat>): (r: seq<Pointer>)
    requires |separators| == |numbers|
    ensures |r| == |numbers|
  {
    seq(|numbers|, i requires 0 <= i < |numbers| => (separators[i], numbers[i]))
  }

  /** Writes a bucket, but refuses what is out of order, too tall or too large for the format. */
  ghost function Write(plan: Plan, disk: Disk, pageSize: nat, depth: nat): (r: Option<Written>)
    requires disk.Valid(pageSize)
    ensures r.Some? ==> r.value.disk.Valid(pageSize) && disk.data <= r.value.disk.data
    ensures r.Some? ==> Ordered(r.value.tree) && Height(r.value.tree) <= depth
    decreases plan
  {
    match plan
    case Flat(items) =>
      var w := WriteItems(items, disk, pageSize, depth);
      if w.None? || |w.value.elements| >= TWO || !LeafRoom(w.value.elements, 0) || depth == 0 then None
      else Some(Written(LeafImage(BLANK, false, w.value.elements), w.value.disk, Leaf(w.value.elements)))
    case Fork(separators, parts) =>
      var w := WriteParts(parts, disk, pageSize, depth);
      if w.None? || |separators| != |parts| then None
      else
        var pointers, tree := Pointers(separators, w.value.numbers), Branch(separators, w.value.trees);
        if |pointers| >= TWO || !BranchRoom(pointers, 0) || !Ordered(tree) || Height(tree) > depth then None
        else Some(Written(BranchImage(BLANK, pointers), w.value.disk, tree))
  }

  ghost function WriteItems(items: seq<Item>, disk: Disk, pageSize: nat, depth: nat): (r: Option<Items>)
    requires disk.Valid(pageSize)
    ensures r.Some? ==> r.value.disk.Valid(pageSize) && disk.data <= r.value.disk.data
    decreases items
  {
    if items == [] then Some(Items([], disk))
    else
      var first := WriteItem(items[0], disk, pageSize, depth);
      if first.None? then None
      else
        var rest := WriteItems(items[1..], first.value.1, pageSize, depth);
        if rest.None? then None else Some(Items([first.value.0] + rest.value.elements, rest.value.disk))
  }

  ghost function WriteItem(item: Item, disk: Disk, pageSize: nat, depth: nat): (r: Option<(Element, Disk)>)
    requires disk.Valid(pageSize)
    ensures r.Some? ==> r.value.1.Valid(pageSize) && disk.data <= r.value.1.data && r.value.0.key == item.key
    decreases item
  {
    match item
    case Value(key, value) => Some((Element(0, key, value), disk))
    case Inline(key, plan) =>
      var w := Write(plan, disk, pageSize, depth);
      if w.None? then None else Some((Element(1, key, InlineValue(0, w.value.image)), w.value.disk))
    case Paged(key, plan) =>
      var w := Write(plan, disk, pageSize, depth);
      if w.None? || w.value.disk.pages >= EIGHT then None
      else Some((Element(1, key, PagedValue(w.value.disk.pages, 0)), Place(w.value.disk, w.value.image, pageSize)))
  }

  ghost function WriteParts(parts: seq<Plan>, disk: Disk, pageSize: nat, depth: nat): (r: Option<Parts>)
    requires disk.Valid(pageSize)
    ensures r.Some? ==> r.value.disk.Valid(pageSize) && disk.data <= r.value.disk.data
    ensures r.Some? ==> |r.value.numbers| == |r.value.trees| == |parts|
    decreases parts
  {
    if parts == [] then Some(Parts([], disk, []))
    else
      var first := Write(parts[0], disk, pageSize, depth);
      if first.None? then None
      else
        var w := first.value;
        var rest := WriteParts(parts[1..], Place(w.disk, w.image, pageSize), pageSize, depth);
        if rest.None? then None
        else Some(Parts([w.disk.pages] + rest.value.numbers, rest.value.disk, [w.tree] + rest.value.trees))
  }

  // ---- what was written is there ----------------------------------------------------------------

  /** The file has these pages, and more perhaps. */
  ghost predicate Keeps(file: File, disk: Disk) {
    disk.Valid(file.pageSize) && disk.data <= file.data
  }

  lemma PlacedAt(file: File, disk: Disk, image: Bytes)
    requires disk.Valid(file.pageSize) && Keeps(file, Place(disk, image, file.pageSize)) && image != []
    ensures PageAt(file, disk.pages) == Result.Ok(Page(file.data, |disk.data|)) && At(file.data, |disk.data|, image)
  {
    var whole := disk.data + image;
    assert whole <= file.data;
    SpanIs(disk.pages, file.pageSize);
    forall i: nat | i < |image| ensures image[i] == file.data[|disk.data| + i] {
      assert whole[|disk.data| + i] == image[i];
    }
  }

  lemma BranchNode(page: Page, separators: seq<Bytes>, numbers: seq<nat>)
    requires |separators| == |numbers| < TWO && BranchRoom(Pointers(separators, numbers), 0)
    requires At(page.data, page.off, BranchImage(BLANK, Pointers(separators, numbers)))
    ensures NodeOf(page).Ok? && IsBranchOf(NodeOf(page).value, separators, |numbers|)
    ensures forall i: nat | i < |numbers| ::
              NodeOf(page).value.elementAt(i) == Result.Ok((separators[i], numbers[i]))
  {
    var ps := Pointers(separators, numbers);
    BranchRoundTrip(page, BLANK, ps);
    forall i: nat | i < |numbers|
      ensures NodeOf(page).value.elementAt(i) == Result.Ok((separators[i], numbers[i]))
    {
      assert BranchElement(page, i) == Result.Ok(ps[i]);
    }
  }

  lemma {:induction false} ForkDecodes(file: File, page: Page, separators: seq<Bytes>, numbers: seq<nat>,
                                       trees: seq<Tree>)
    requires PartsAt(file, numbers, trees) && |separators| == |numbers|
    requires NodeOf(page).Ok? && IsBranchOf(NodeOf(page).value, separators, |numbers|)
    requires forall i: nat | i < |numbers| :: NodeOf(page).value.elementAt(i) == Result.Ok((separators[i], numbers[i]))
    ensures Decodes(ReaderOf(file), page, Branch(separators, trees))
  {
    forall i: nat | i < |trees|
      ensures HoldsChild(ReaderOf(file), page, i) && Decodes(ReaderOf(file), Child(ReaderOf(file), page, i), trees[i])
    {
      assert PartAt(file, numbers[i], trees[i]);
    }
  }

  /** Wherever the image of a written bucket stands, it spells out the bucket's tree. */
  lemma {:induction false} WriteDecodes(plan: Plan, disk: Disk, depth: nat, file: File, page: Page)
    requires disk.Valid(file.pageSize) && Write(plan, disk, file.pageSize, depth).Some?
    requires Keeps(file, Write(plan, disk, file.pageSize, depth).value.disk)
    requires At(page.data, page.off, Write(plan, disk, file.pageSize, depth).value.image)
    ensures Decodes(ReaderOf(file), page, Write(plan, disk, file.pageSize, depth).value.tree)
    decreases plan, 0
  {
    match plan
    case Flat(items) =>
      LeafRoundTrip(page, BLANK, false, WriteItems(items, disk, file.pageSize, depth).value.elements);
    case Fork(separators, parts) =>
      var w := WriteParts(parts, disk, file.pageSize, depth).value;
      BranchNode(page, separators, w.numbers);
      PartsDecode(parts, disk, depth, file);
      ForkDecodes(file, page, separators, w.numbers, w.trees);
  }

  /** The parts are written one after the other, each on pages of its own. */
  lemma PartsFirst(parts: seq<Plan>, disk: Disk, pageSize: nat, depth: nat)
    returns (w: Written, placed: Disk, rest: Parts)
    requires parts != [] && disk.Valid(pageSize) && WriteParts(parts, disk, pageSize, depth).Some?
    ensures Write(parts[0], disk, pageSize, depth) == Some(w) && w.disk.Valid(pageSize) && w.image != []
    ensures placed == Place(w.disk, w.image, pageSize)
    ensures WriteParts(parts[1..], placed, pageSize, depth) == Some(rest) && placed.data <= rest.disk.data
    ensures WriteParts(parts, disk, pageSize, depth).value
         == Parts([w.disk.pages] + rest.numbers, rest.disk, [w.tree] + rest.trees)
  {
    w := Write(parts[0], disk, pageSize, depth).value;
    placed := Place(w.disk, w.image, pageSize);
    rest := WriteParts(parts[1..], placed, pageSize, depth).value;
  }

  ghost predicate PartAt(file: File, number: nat, t: Tree) {
    PageAt(file, number).Ok? && Decodes(ReaderOf(file), PageAt(file, number).value, t)
  }

  ghost predicate PartsAt(file: File, numbers: seq<nat>, trees: seq<Tree>) {
    |numbers| == |trees| && forall i: nat | i < |trees| :: PartAt(file, numbers[i], trees[i])
  }

  lemma PartsAtMore(file: File, number: nat, t: Tree, numbers: seq<nat>, trees: seq<Tree>)
    requires PartAt(file, number, t) && PartsAt(file, numbers, trees)
    ensures PartsAt(file, [number] + numbers, [t] + trees)
  {
  }

  lemma {:induction false} PartsDecode(parts: seq<Plan>, disk: Disk, depth: nat, file: File)
    requires disk.Valid(file.pageSize) && WriteParts(parts, disk, file.pageSize, depth).Some?
    requires Keeps(file, WriteParts(parts, disk, file.pageSize, depth).value.disk)
    ensures var w := WriteParts(parts, disk, file.pageSize, depth).value; PartsAt(file, w.numbers, w.trees)
    decreases parts
  {
    if parts == [] {
    } else {
      var w, placed, rest := PartsFirst(parts, disk, file.pageSize, depth);
      PlacedDecodes(parts[0], disk, depth, file, w);
      PartsDecode(parts[1..], placed, depth, file);
      PartsAtMore(file, w.disk.pages, w.tree, rest.numbers, rest.trees);
    }
  }

  lemma {:induction false} PlacedDecodes(plan: Plan, disk: Disk, depth: nat, file: File, w: Written)
    requires disk.Valid(file.pageSize) && Write(plan, disk, file.pageSize, depth) == Some(w) && w.image != []
    requires Keeps(file, Place(w.disk, w.image, file.pageSize))
    ensures PageAt(file, w.disk.pages).Ok?
    ensures Decodes(ReaderOf(file), PageAt(file, w.disk.pages).value, w.tree)
    decreases plan, 1
  {
    PlacedAt(file, w.disk, w.image);
    WriteDecodes(plan, disk, depth, file, Page(file.data, |w.disk.data|));
  }

  // ---- what a plan stands for ------------------------------------------------------------------

  /** Where a key is listed twice the first one counts. */
  function EntriesOf(plan: Plan): map<Bytes, Entry>
    decreases plan
  {
    match plan
    case Flat(items) => ItemEntries(items)
    case Fork(_, parts) => PartEntries(parts)
  }

  function ItemEntries(items: seq<Item>): map<Bytes, Entry>
    decreases items
  {
    if items == [] then map[] else ItemEntries(items[1..])[items[0].key := EntryOf(items[0])]
  }

  function PartEntries(parts: seq<Plan>): map<Bytes, Entry>
    decreases parts
  {
    if parts == [] then map[] else PartEntries(parts[1..]) + EntriesOf(parts[0])
  }

  function EntryOf(item: Item): Entry
    decreases item
  {
    match item
    case Value(_, value) => Plain(value)
    case Inline(_, plan) => Sub(Bucket(EntriesOf(plan)))
    case Paged(_, plan) => Sub(Bucket(EntriesOf(plan)))
  }

  /** The leaf elements stand for these entries. */
  ghost predicate Stand(file: File, es: seq<Element>, entries: map<Bytes, Entry>, depth: nat) {
    forall key :: EntryHolds(file, FirstMatch(es, key), Bucket(entries), key, depth)
  }

  lemma StandConcat(file: File, a: seq<Element>, b: seq<Element>, first: map<Bytes, Entry>, rest: map<Bytes, Entry>,
                    depth: nat)
    requires Stand(file, a, first, depth) && Stand(file, b, rest, depth)
    ensures Stand(file, a + b, rest + first, depth)
  {
    forall key ensures EntryHolds(file, FirstMatch(a + b, key), Bucket(rest + first), key, depth) {
      FirstMatchConcat(a, b, key);
      assert EntryHolds(file, FirstMatch(a, key), Bucket(first), key, depth);
      assert EntryHolds(file, FirstMatch(b, key), Bucket(rest), key, depth);
    }
  }

  lemma {:induction false} WriteStands(plan: Plan, disk: Disk, depth: nat, file: File)
    requires disk.Valid(file.pageSize) && Write(plan, disk, file.pageSize, depth).Some?
    requires Keeps(file, Write(plan, disk, file.pageSize, depth).value.disk)
    ensures Stand(file, InOrder(Write(plan, disk, file.pageSize, depth).value.tree), EntriesOf(plan), depth)
    decreases plan
  {
    match plan
    case Flat(items) => ItemsStand(items, disk, depth, file);
    case Fork(_, parts) => PartsStand(parts, disk, depth, file);
  }

  lemma {:induction false} PartsStand(parts: seq<Plan>, disk: Disk, depth: nat, file: File)
    requires disk.Valid(file.pageSize) && WriteParts(parts, disk, file.pageSize, depth).Some?
    requires Keeps(file, WriteParts(parts, disk, file.pageSize, depth).value.disk)
    ensures Stand(file, InOrderAll(WriteParts(parts, disk, file.pageSize, depth).value.trees), PartEntries(parts),
            depth)
    decreases parts
  {
    if parts == [] {
    } else {
      var w, placed, rest := PartsFirst(parts, disk, file.pageSize, depth);
      WriteStands(parts[0], disk, depth, file);
      PartsStand(parts[1..], placed, depth, file);
      StandConcat(file, InOrder(w.tree), InOrderAll(rest.trees), EntriesOf(parts[0]), PartEntries(parts[1..]), depth);
      assert ([w.tree] + rest.trees)[1..] == rest.trees;
    }
  }

  lemma {:induction false} ItemsStand(items: seq<Item>, disk: Disk, depth: nat, file: File)
    requires disk.Valid(file.pageSize) && WriteItems(items, disk, file.pageSize, depth).Some?
    requires Keeps(file, WriteItems(items, disk, file.pageSize, depth).value.disk)
    ensures Stand(file, WriteItems(items, disk, file.pageSize, depth).value.elements, ItemEntries(items), depth)
    decreases items
  {
    if items == [] {
    } else {
      var first := WriteItem(items[0], disk, file.pageSize, depth).value;
      var rest := WriteItems(items[1..], first.1, file.pageSize, depth).value;
      ItemStands(items[0], disk, depth, file);
      ItemsStand(items[1..], first.1, depth, file);
      StandConcat(file, [first.0], rest.elements, map[items[0].key := EntryOf(items[0])], ItemEntries(items[1..]),
          depth);
      assert ItemEntries(items[1..]) + map[items[0].key := EntryOf(items[0])] == ItemEntries(items);
    }
  }

  lemma {:induction false} OneStands(file: File, e: Element, entry: Entry, depth: nat)
    requires EntryHolds(file, Some((e.flags, e.value)), Bucket(map[e.key := entry]), e.key, depth)
    ensures Stand(file, [e], map[e.key := entry], depth)
  {
    forall key ensures EntryHolds(file, FirstMatch([e], key), Bucket(map[e.key := entry]), key, depth) {
      assert FirstMatch([e][1..], key) == None;
    }
  }

  lemma {:induction false} TreeHolds(file: File, page: Page, t: Tree, entries: map<Bytes, Entry>, depth: nat)
    requires IsTreeAt(ReaderOf(file), page, t, depth) && Stand(file, InOrder(t), entries, depth)
    ensures Holds(file, page, Bucket(entries), depth)
  {
  }

  lemma {:induction false} SubHolds(file: File, e: Element, entries: map<Bytes, Entry>, depth: nat)
    requires e.flags == 1 && BucketPage(file, e.value).Ok?
    requires Holds(file, BucketPage(file, e.value).value, Bucket(entries), depth)
    ensures Stand(file, [e], map[e.key := Sub(Bucket(entries))], depth)
  {
    OneStands(file, e, Sub(Bucket(entries)), depth);
  }

  lemma {:induction false} ItemStands(item: Item, disk: Disk, depth: nat, file: File)
    requires disk.Valid(file.pageSize) && WriteItem(item, disk, file.pageSize, depth).Some?
    requires Keeps(file, WriteItem(item, disk, file.pageSize, depth).value.1)
    ensures Stand(file, [WriteItem(item, disk, file.pageSize, depth).value.0], map[item.key := EntryOf(item)], depth)
    decreases item
  {
    var e := WriteItem(item, disk, file.pageSize, depth).value.0;
    if item.Value? {
      OneStands(file, e, Plain(item.value), depth);
    } else {
      var w := Write(item.plan, disk, file.pageSize, depth).value;
      WriteStands(item.plan, disk, depth, file);
      if item.Inline? {
        InlineRead(file, 0, w.image);
      } else {
        PagedRead(file, w.disk.pages, 0);
        PlacedAt(file, w.disk, w.image);
      }
      var page := BucketPage(file, e.value).value;
      WriteDecodes(item.plan, disk, depth, file, page);
      TreeHolds(file, page, w.tree, EntriesOf(item.plan), depth);
      SubHolds(file, e, EntriesOf(item.plan), depth);
    }
  }

  // ---- round trip --------------------------------------------------------------------------------

  /** The file that ends with the bucket's root page. */
  ghost function FileOf(w: Written, pageSize: nat): File
    requires w.disk.Valid(pageSize)
  {
    File(Place(w.disk, w.image, pageSize).data, pageSize, w.disk.pages)
  }

  lemma {:induction false} FileHolds(plan: Plan, start: Disk, pageSize: nat, depth: nat)
    requires start.Valid(pageSize) && Write(plan, start, pageSize, depth).Some?
    ensures var w := Write(plan, start, pageSize, depth).value;
            var file := FileOf(w, pageSize);
            && PageAt(file, file.root).Ok?
            && Holds(file, PageAt(file, file.root).value, Bucket(EntriesOf(plan)), depth)
  {
    var w := Write(plan, start, pageSize, depth).value;
    var file := FileOf(w, pageSize);
    PlacedAt(file, w.disk, w.image);
    var page := Page(file.data, |w.disk.data|);
    WriteDecodes(plan, start, depth, file, page);
    WriteStands(plan, start, depth, file);
    TreeHolds(file, page, w.tree, EntriesOf(plan), depth);
  }

  /** Round trip: every path read from a written file gives what the nested maps written give. */
  lemma {:induction false} WrittenReads(plan: Plan, start: Disk, pageSize: nat, depth: nat, path: seq<Bytes>)
    requires start.Valid(pageSize) && Write(plan, start, pageSize, depth).Some?
    ensures GetSpec(FileOf(Write(plan, start, pageSize, depth).value, pageSize), path, depth)
         == Result.Ok(NestedGet(Bucket(EntriesOf(plan)), path))
  {
    FileHolds(plan, start, pageSize, depth);
    if path != [] {
      var file := FileOf(Write(plan, start, pageSize, depth).value, pageSize);
      GetRefines(file, PageAt(file, file.root).value, Bucket(EntriesOf(plan)), path, depth);
    }
  }

  // ---- something is written ----------------------------------------------------------------------

  /** One item becomes one small element. */
  ghost predicate Becomes(item: Item, disk: Disk, pageSize: nat, depth: nat, e: Element, d: Disk)
    requires disk.Valid(pageSize)
  {
    && WriteItem(item, disk, pageSize, depth) == Some((e, d))
    && e.flags < 2 && |e.key| + |e.value| < 1000 && d.pages < EIGHT
  }

  lemma {:induction false} Nothing(d: Disk, pageSize: nat, depth: nat)
    requires d.Valid(pageSize)
    ensures WriteItems([], d, pageSize, depth) == Some(Items([], d))
    ensures WriteParts([], d, pageSize, depth) == Some(Parts([], d, []))
  {
  }

  lemma {:induction false} MoreItems(item: Item, items: seq<Item>, disk: Disk, pageSize: nat, depth: nat, e: Element,
                                     d: Disk, rest: Items)
    requires disk.Valid(pageSize) && WriteItem(item, disk, pageSize, depth) == Some((e, d))
    requires WriteItems(items, d, pageSize, depth) == Some(rest)
    ensures WriteItems([item] + items, disk, pageSize, depth) == Some(Items([e] + rest.elements, rest.disk))
  {
    assert ([item] + items)[1..] == items;
  }

  lemma {:induction false} MoreParts(p: Plan, parts: seq<Plan>, disk: Disk, pageSize: nat, depth: nat, w: Written,
                                     rest: Parts)
    requires disk.Valid(pageSize) && Write(p, disk, pageSize, depth) == Some(w)
    requires WriteParts(parts, Place(w.disk, w.image, pageSize), pageSize, depth) == Some(rest)
    ensures WriteParts([p] + parts, disk, pageSize, depth)
         == Some(Parts([w.disk.pages] + rest.numbers, rest.disk, [w.tree] + rest.trees))
  {
    assert ([p] + parts)[1..] == parts;
  }

  lemma OneRoom(e: Element)
    requires e.flags < 2 && |e.key| + |e.value| < 1000
    ensures LeafRoom([e], 0)
  {
    var es, none: seq<Element> := [e], [];
    assert es[1..] == none && |LeafBodies(none)| == 0;
    assert LeafBodies(es) == es[0].key + (es[0].value + LeafBodies(none));
    assert LeafRoom(es, 0);
  }

  /** A bucket of one small item is written. */
  lemma {:induction false} OneIsWritten(item: Item, disk: Disk, pageSize: nat, depth: nat, e: Element, d: Disk)
    requires disk.Valid(pageSize) && depth > 0 && Becomes(item, disk, pageSize, depth, e, d)
    ensures Write(Flat([item]), disk, pageSize, depth) == Some(Written(LeafImage(BLANK, false, [e]), d, Leaf([e])))
  {
    Nothing(d, pageSize, depth);
    MoreItems(item, [], disk, pageSize, depth, e, d, Items([], d));
    assert [item] + [] == [item] && [e] + [] == [e];
    OneRoom(e);
  }

  /** And so are two of them on pages of their own, under a branch page. */
  lemma {:induction false} PairIsWritten(a: Item, b: Item, disk: Disk, pageSize: nat, depth: nat, e: Element, d: Disk,
                                         f: Element, g: Disk)
    requires disk.Valid(pageSize) && depth > 1 && LexLe(a.key, b.key) && !LexLe(b.key, a.key)
    requires Becomes(a, disk, pageSize, depth, e, d)
    requires Becomes(b, Place(d, LeafImage(BLANK, false, [e]), pageSize), pageSize, depth, f, g)
    ensures Write(Fork([a.key, b.key], [Flat([a]), Flat([b])]), disk, pageSize, depth).Some?
  {
    var placed, last := Place(d, LeafImage(BLANK, false, [e]), pageSize),
        Place(g, LeafImage(BLANK, false, [f]), pageSize);
    OneIsWritten(a, disk, pageSize, depth, e, d);
    OneIsWritten(b, placed, pageSize, depth, f, g);
    OnePart(Flat([b]), placed, pageSize, depth, Written(LeafImage(BLANK, false, [f]), g, Leaf([f])));
    MoreParts(Flat([a]), [Flat([b])], disk, pageSize, depth, Written(LeafImage(BLANK, false, [e]), d, Leaf([e])),
              Parts([g.pages], last, [Leaf([f])]));
    assert [Flat([a])] + [Flat([b])] == [Flat([a]), Flat([b])] && [d.pages] + [g.pages] == [d.pages, g.pages];
    assert [Leaf([e])] + [Leaf([f])] == [Leaf([e]), Leaf([f])];
    ForkIsWritten([Flat([a]), Flat([b])], disk, pageSize, depth, e, f, d.pages, g.pages, last);
  }

  lemma {:induction false} ForkIsWritten(parts: seq<Plan>, disk: Disk, pageSize: nat, depth: nat, e: Element,
                                         f: Element, m: nat, n: nat,
                      last: Disk)
    requires disk.Valid(pageSize) && depth > 1 && LexLe(e.key, f.key) && !LexLe(f.key, e.key) && |parts| == 2
    requires WriteParts(parts, disk, pageSize, depth) == Some(Parts([m, n], last, [Leaf([e]), Leaf([f])]))
    requires m < EIGHT && n < EIGHT && |e.key| < 1000 && |f.key| < 1000
    ensures Write(Fork([e.key, f.key], parts), disk, pageSize, depth).Some?
  {
    TwoPointers(e.key, m, f.key, n);
    PairOrdered(e, f);
  }

  lemma {:induction false} OnePart(q: Plan, disk: Disk, pageSize: nat, depth: nat, w: Written)
    requires disk.Valid(pageSize) && Write(q, disk, pageSize, depth) == Some(w)
    ensures WriteParts([q], disk, pageSize, depth)
         == Some(Parts([w.disk.pages], Place(w.disk, w.image, pageSize), [w.tree]))
  {
    var last := Place(w.disk, w.image, pageSize);
    Nothing(last, pageSize, depth);
    MoreParts(q, [], disk, pageSize, depth, w, Parts([], last, []));
    assert [q] + [] == [q] && [w.disk.pages] + [] == [w.disk.pages] && [w.tree] + [] == [w.tree];
  }

  lemma TwoPointers(a: Bytes, m: nat, b: Bytes, n: nat)
    requires m < EIGHT && n < EIGHT && |a| < 1000 && |b| < 1000
    ensures BranchRoom(Pointers([a, b], [m, n]), 0)
  {
    var ps: seq<Pointer> := Pointers([a, b], [m, n]);
    var last: seq<Pointer> := [(b, n)];
    var none: seq<Pointer> := [];
    assert ps == [(a, m)] + last && ps[1..] == last && last[1..] == none;
    assert |BranchBodies(none)| == 0;
    assert BranchBodies(last) == last[0].0 + BranchBodies(none);
    assert BranchBodies(ps) == ps[0].0 + BranchBodies(last);
  }

  lemma PairOrdered(e: Element, f: Element)
    requires LexLe(e.key, f.key) && !LexLe(f.key, e.key)
    ensures var t := Branch([e.key, f.key], [Leaf([e]), Leaf([f])]); Ordered(t) && Height(t) == 2
  {
    var none: seq<Tree>, last, kids := [], [Leaf([f])], [Leaf([e]), Leaf([f])];
    assert kids[1..] == last && last[1..] == none;
    assert MaxHeight(none) == 0;
    assert MaxHeight(last) == 1;
    assert MaxHeight(kids) == 1;
    assert InOrder(kids[0]) == [e] && InOrder(kids[1]) == [f];
    LexSelf(f.key);
  }
}
