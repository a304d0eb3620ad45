// The local content-addressed store.
module LocalCache {
  // Blobs are shared by digest under an index of keys, with least-recently-used eviction.

  import opened Basics
  import opened Seqs

  datatype Row = Row(digest: string, size: nat, created: real, lastUsed: real)

  type Index = map<string, Row>

  datatype Store = Store(entries: Index, blobs: map<string, Bytes>)

  const EMPTY := Store(map[], map[])

  /** Which accesses fail during one call: the index query, the blob file, the final update. */
  datatype Faults = Faults(index: bool, blob: bool, touch: bool)

  const NO_FAULTS := Faults(false, false, false)

  /** Where the index fails during a prune: at the first query, or on deleting a row or counting
      those that share its blob. */
  datatype PruneFault = Smooth | AtQuery | AtDelete(row: nat) | AtCount(row: nat) {
    predicate Strikes(n: nat) {
      (AtDelete? || AtCount?) && row == n
    }

    /** There are rows enough to evict for the index to fail on one. */
    predicate Stops(excess: nat) {
      (AtDelete? || AtCount?) && row < excess
    }
  }

  type Hash = Bytes -> string

  // ---- what each call does ---------------------------------------------------------------

  function WithBlob(hash: Hash, blobs: map<string, Bytes>, data: Bytes, fails: bool): map<string, Bytes> {
    if fails || hash(data) in blobs then blobs else blobs[hash(data) := data]
  }

  function AfterPut(hash: Hash, s: Store, key: string, data: Bytes, now: real, faults: Faults): Store {
    Store(if faults.index then s.entries else s.entries[key := Row(hash(data), |data|, now, now)],
          WithBlob(hash, s.blobs, data, faults.blob))
  }

  function Found(s: Store, key: string, faults: Faults): Option<Bytes> {
    if faults.index || key !in s.entries then None
    else if faults.blob || s.entries[key].digest !in s.blobs || faults.touch then None
    else Some(s.blobs[s.entries[key].digest])
  }

  function AfterGet(s: Store, key: string, now: real, faults: Faults): Store {
    if Found(s, key, faults).None? then s
    else s.(entries := s.entries[key := s.entries[key].(lastUsed := now)])
  }

  predicate Referenced(entries: Index, digest: string) {
    exists key :: key in entries && entries[key].digest == digest
  }

  /** One eviction: the row goes, and its blob with it unless another row shares it. */
  function Evict(s: Store, key: string, stuck: set<string>): Store
    requires key in s.entries
  {
    var digest, rest := s.entries[key].digest, s.entries - {key};
    Store(rest, if Referenced(rest, digest) || digest in stuck then s.blobs else s.blobs - {digest})
  }

  /** Two keys of the index, the first of them used no later. */
  predicate Before(entries: Index, a: string, b: string) {
    a != b && a in entries && b in entries && entries[a].lastUsed <= entries[b].lastUsed
  }

  /** Every key once, least recently used first; ties fall either way. */
  ghost predicate IsLruOrder(entries: Index, order: seq<string>) {
    && (forall key :: key in order <==> key in entries)
    && forall i, j {:trigger Before(entries, order[i], order[j])} | 0 <= i < j < |order| ::
         Before(entries, order[i], order[j])
  }

  function SizeOf(entries: Index, keys: seq<string>): nat
    requires forall key <- keys :: key in entries
  {
    if keys == [] then 0 else entries[keys[0]].size + SizeOf(entries, keys[1..])
  }

  function AfterEvictions(s: Store, gone: seq<string>, stuck: set<string>): Store
    decreases |gone|
  {
    if gone == [] then s
    else AfterEvictions(if gone[0] in s.entries then Evict(s, gone[0], stuck) else s, gone[1..], stuck)
  }

  /** How many of the ordered keys must go before the rest fits. */
  function Excess(entries: Index, order: seq<string>, maxBytes: int): (n: nat)
    requires forall key <- order :: key in entries
    ensures n <= |order|
  {
    if order == [] || SizeOf(entries, order) <= maxBytes then 0 else 1 + Excess(entries, order[1..], maxBytes)
  }

  function Evicted(entries: Index, order: seq<string>, maxBytes: int, fault: PruneFault): nat
    requires forall key <- order :: key in entries
  {
    if fault.Stops(Excess(entries, order, maxBytes)) then fault.row else Excess(entries, order, maxBytes)
  }

  /** The row that is deleted without its blob, where counting failed. */
  function Halfway(entries: Index, order: seq<string>, maxBytes: int, fault: PruneFault): set<string>
    requires forall key <- order :: key in entries
  {
    if fault.AtCount? && fault.Stops(Excess(entries, order, maxBytes)) then {order[fault.row]} else {}
  }

  /** Rows gone, and their blobs not. */
  function Unindexed(s: Store, rows: set<string>): Store {
    s.(entries := s.entries - rows)
  }

  /** What a prune leaves: the rows counted as evicted are gone with their blobs; where counting
      failed one more row is gone, and its blob is not. */
  function AfterPrune(s: Store, order: seq<string>, maxBytes: int, fault: PruneFault, stuck: set<string>): Store
    requires forall key <- order :: key in s.entries
  {
    Unindexed(AfterEvictions(s, order[..Evicted(s.entries, order, maxBytes, fault)], stuck),
              Halfway(s.entries, order, maxBytes, fault))
  }

  // ---- the store ----------------------------------------------------------------------------

  class Cas {
    const hash: Hash
    var available: bool
    var entries: Index
    var blobs: map<string, Bytes>
    var hits: nat
    var misses: nat

    constructor (hash: Hash, opens: bool)
      ensures this.hash == hash && available == opens && View() == EMPTY && hits == misses == 0
    {
      this.hash, available, entries, blobs, hits, misses := hash, opens, map[], map[], 0, 0;
    }

    function View(): Store
      reads this
    {
      Store(entries, blobs)
    }

    method PutBlob(data: Bytes, fails: bool) returns (digest: string)
      modifies `blobs
      ensures digest == hash(data) && blobs == WithBlob(hash, old(blobs), data, fails)
    {
      digest := hash(data);
      if !fails && digest !in blobs {
        blobs := blobs[digest := data];
      }
    }

    method GetBlob(digest: string, fails: bool) returns (data: Option<Bytes>)
      ensures data == if fails || digest !in blobs then None else Some(blobs[digest])
    {
      if !fails && digest in blobs {
        return Some(blobs[digest]);
      }
      return None;
    }

    method Put(key: string, data: Bytes, now: real, faults: Faults)
      modifies `entries, `blobs
      ensures View() == if available then AfterPut(hash, old(View()), key, data, now, faults) else old(View())
    {
      if !available {
        return;
      }
      var digest := PutBlob(data, faults.blob);
      if !faults.index {
        entries := entries[key := Row(digest, |data|, now, now)];
      }
    }

    method Get(key: string, now: real, faults: Faults) returns (data: Option<Bytes>)
      modifies `entries, `hits, `misses
      ensures data == if available then Found(old(View()), key, faults) else None
      ensures View() == if available then AfterGet(old(View()), key, now, faults) else old(View())
      ensures hits == old(hits) + (if data.Some? then 1 else 0)
      ensures misses == old(misses) + (if data.None? then 1 else 0)
    {
      if !available || faults.index || key !in entries {
        misses := misses + 1;
        return None;
      }
      data := GetBlob(entries[key].digest, faults.blob);
      if data.None? || faults.touch {
        misses := misses + 1;
        return None;
      }
      entries := entries[key := entries[key].(lastUsed := now)];
      hits := hits + 1;
    }

    /** `stuck` are the blobs whose files cannot be removed. */
    method Prune(maxBytes: int, fault: PruneFault, stuck: set<string>) returns (evicted: nat, ghost order: seq<string>)
      modifies `entries, `blobs
      ensures !available || fault.AtQuery? ==> evicted == 0 && View() == old(View())
      ensures available && !fault.AtQuery? ==>
                && IsLruOrder(old(entries), order)
                && evicted == Evicted(old(entries), order, maxBytes, fault)
                && View() == AfterPrune(old(View()), order, maxBytes, fault, stuck)
    {
      evicted, order := 0, [];
      if !available || fault.AtQuery? {
        return;
      }
      var rows := LruOrder(entries);
      order := rows;
      evicted := EvictOldest(rows, maxBytes, fault, stuck);
    }

    method EvictOldest(order: seq<string>, maxBytes: int, fault: PruneFault, stuck: set<string>) returns (evicted: nat)
      requires IsLruOrder(entries, order)
      modifies `entries, `blobs
      ensures evicted == Evicted(old(entries), order, maxBytes, fault)
      ensures View() == AfterPrune(old(View()), order, maxBytes, fault, stuck)
    {
      ghost var start := entries;
      var fits: bool;
      evicted, fits := EvictUntil(order, maxBytes, fault, stuck);
      assert evicted == Evicted(start, order, maxBytes, fault);
      if !fits && fault.AtCount? {
        entries := entries - {order[evicted]};
      }
    }

    /** Evicts rows until the rest fits or the index fails on the next one. */
    method EvictUntil(order: seq<string>, maxBytes: int, fault: PruneFault, stuck: set<string>)
      returns (evicted: nat, fits: bool)
      requires IsLruOrder(entries, order)
      modifies `entries, `blobs
      ensures evicted <= |order| && !fault.Stops(evicted)
      ensures Excess(old(entries), order, maxBytes) == evicted + Excess(old(entries), order[evicted..], maxBytes)
      ensures fits <==> Excess(old(entries), order[evicted..], maxBytes) == 0
      ensures !fits ==> fault.Strikes(evicted)
      ensures View() == AfterEvictions(old(View()), order[..evicted], stuck)
    {
      ghost var start := View();
      var total := SizeOf(entries, order);
      evicted := 0;
      assert order[0..] == order;
      while evicted < |order| && total > maxBytes && !fault.Strikes(evicted)
        invariant evicted <= |order| && !fault.Stops(evicted)
        invariant total == SizeOf(start.entries, order[evicted..])
        invariant Excess(start.entries, order, maxBytes) == evicted + Excess(start.entries, order[evicted..], maxBytes)
        invariant View() == AfterEvictions(start, order[..evicted], stuck)
      {
        ExcessStep(start.entries, order, evicted, maxBytes);
        total := EvictNext(start, order, evicted, total, stuck);
        evicted := evicted + 1;
      }
      fits := evicted == |order| || total <= maxBytes;
    }

    /** One turn: the next row goes, and its size from the total. */
    method EvictNext(ghost start: Store, order: seq<string>, n: nat, total: nat, stuck: set<string>) returns (left: nat)
      requires IsLruOrder(start.entries, order) && n < |order| && total == SizeOf(start.entries, order[n..])
      requires View() == AfterEvictions(start, order[..n], stuck)
      modifies `entries, `blobs
      ensures left == SizeOf(start.entries, order[n + 1..])
      ensures View() == AfterEvictions(start, order[..n + 1], stuck)
    {
      EvictOneMore(start, order, n, stuck);
      SizeStep(start.entries, order, n);
      var size := EvictRow(order[n], stuck);
      left := total - size;
    }

    method EvictRow(key: string, stuck: set<string>) returns (size: nat)
      requires key in entries
      modifies `entries, `blobs
      ensures size == old(entries)[key].size && View() == Evict(old(View()), key, stuck)
    {
      var digest := entries[key].digest;
      size := entries[key].size;
      entries := entries - {key};
      if !Referenced(entries, digest) && digest !in stuck {
        blobs := blobs - {digest};
      }
    }
  }

  /** Before each of the first n evictions the rest was still too large. */
  ghost predicate Overfull(entries: Index, order: seq<string>, maxBytes: int, n: nat)
    requires n <= |order| && forall key <- order :: key in entries
  {
    forall m {:trigger order[m..]} | 0 <= m < n :: SizeOf(entries, order[m..]) > maxBytes
  }

  lemma {:induction false} SizeStep(entries: Index, order: seq<string>, n: nat)
    requires n < |order| && forall key <- order :: key in entries
    ensures SizeOf(entries, order[n..]) == entries[order[n]].size + SizeOf(entries, order[n + 1..])
  {
    assert order[n..][1..] == order[n + 1..];
  }

  /** The number evicted is the least that makes the rest fit. */
  lemma {:induction false} ExcessIs(entries: Index, order: seq<string>, maxBytes: int, n: nat)
    requires n <= |order| && forall key <- order :: key in entries
    ensures n == Excess(entries, order, maxBytes)
       <==> Overfull(entries, order, maxBytes, n) && (n == |order| || SizeOf(entries, order[n..]) <= maxBytes)
    decreases |order|
  {
    assert order[0..] == order;
    if order != [] && SizeOf(entries, order) > maxBytes && n > 0 {
      var rest := order[1..];
      ExcessIs(entries, rest, maxBytes, n - 1);
      assert forall m: nat | m < |order| :: rest[m..] == order[m + 1..];
      assert Overfull(entries, order, maxBytes, n) ==> Overfull(entries, rest, maxBytes, n - 1);
      assert Overfull(entries, rest, maxBytes, n - 1) ==> Overfull(entries, order, maxBytes, n) by {
        assert forall m: nat | 0 < m < n :: order[m..] == rest[m - 1..];
      }
    }
  }

  lemma {:induction false} ExcessStep(entries: Index, order: seq<string>, n: nat, maxBytes: int)
    requires n < |order| && (forall key <- order :: key in entries) && SizeOf(entries, order[n..]) > maxBytes
    ensures Excess(entries, order[n..], maxBytes) == 1 + Excess(entries, order[n + 1..], maxBytes)
  {
    assert order[n..][1..] == order[n + 1..];
  }

  function Members(keys: seq<string>): set<string> {
    set key | key in keys
  }

  lemma {:induction false} EvictedEntries(s: Store, gone: seq<string>, stuck: set<string>)
    ensures AfterEvictions(s, gone, stuck).entries == s.entries - Members(gone)
    decreases |gone|
  {
    if gone == [] {
    } else {
      EvictedEntries(if gone[0] in s.entries then Evict(s, gone[0], stuck) else s, gone[1..], stuck);
      assert Members(gone) == {gone[0]} + Members(gone[1..]);
    }
  }

  lemma {:induction false} EvictedLast(s: Store, gone: seq<string>, key: string, stuck: set<string>)
    requires key in AfterEvictions(s, gone, stuck).entries
    ensures AfterEvictions(s, gone + [key], stuck) == Evict(AfterEvictions(s, gone, stuck), key, stuck)
    decreases |gone|
  {
    if gone == [] {
      assert ([] + [key])[1..] == [];
    } else {
      EvictedLast(if gone[0] in s.entries then Evict(s, gone[0], stuck) else s, gone[1..], key, stuck);
      assert (gone + [key])[1..] == gone[1..] + [key];
    }
  }

  lemma {:induction false} EvictOneMore(s: Store, order: seq<string>, n: nat, stuck: set<string>)
    requires IsLruOrder(s.entries, order) && n < |order|
    ensures order[n] in AfterEvictions(s, order[..n], stuck).entries
    ensures AfterEvictions(s, order[..n], stuck).entries[order[n]] == s.entries[order[n]]
    ensures AfterEvictions(s, order[..n + 1], stuck) == Evict(AfterEvictions(s, order[..n], stuck), order[n], stuck)
  {
    EvictedEntries(s, order[..n], stuck);
    forall i | 0 <= i < n ensures order[i] != order[n] {
      assert Before(s.entries, order[i], order[n]);
    }
    EvictedLast(s, order[..n], order[n], stuck);
    assert order[..n + 1] == order[..n] + [order[n]];
  }

  /** `ORDER BY last_used`. */
  method LruOrder(entries: Index) returns (order: seq<string>)
    ensures IsLruOrder(entries, order)
  {
    order := [];
    var left := entries.Keys;
    while left != {}
      invariant left <= entries.Keys
      invariant forall key :: key in order <==> key in entries && key !in left
      invariant forall i, j {:trigger Before(entries, order[i], order[j])} | 0 <= i < j < |order| ::
                  Before(entries, order[i], order[j])
      invariant forall i, key {:trigger Before(entries, order[i], key)} | 0 <= i < |order| && key in left ::
                  Before(entries, order[i], key)
      decreases |left|
    {
      var next := Oldest(entries, left);
      order, left := order + [next], left - {next};
    }
  }

  method Oldest(entries: Index, keys: set<string>) returns (oldest: string)
    requires keys != {} && keys <= entries.Keys
    ensures oldest in keys && forall key <- keys :: entries[oldest].lastUsed <= entries[key].lastUsed
  {
    oldest :| oldest in keys;
    var left := keys - {oldest};
    while left != {}
      invariant left <= keys && oldest in keys
      invariant forall key <- keys - left :: entries[oldest].lastUsed <= entries[key].lastUsed
      decreases |left|
    {
      var key :| key in left;
      left := left - {key};
      if entries[key].lastUsed < entries[oldest].lastUsed {
        oldest := key;
      }
    }
  }

  // ---- what eviction leaves behind --------------------------------------------------------------

  ghost predicate Dropped(entries: Index, gone: seq<string>, digest: string) {
    exists key :: key in gone && key in entries && entries[key].digest == digest
  }

  /** A blob goes exactly when a row that named it went, no row still names it, and its file
      could be removed. */
  ghost predicate Keeps(s: Store, gone: seq<string>, stuck: set<string>, digest: string) {
    digest in stuck || Referenced(s.entries - Members(gone), digest) || !Dropped(s.entries, gone, digest)
  }

  lemma {:induction false} EvictedBlobs(s: Store, gone: seq<string>, stuck: set<string>, digest: string)
    ensures digest in AfterEvictions(s, gone, stuck).blobs <==> digest in s.blobs && Keeps(s, gone, stuck, digest)
    ensures digest in AfterEvictions(s, gone, stuck).blobs
            ==> AfterEvictions(s, gone, stuck).blobs[digest] == s.blobs[digest]
    decreases |gone|
  {
    if gone == [] {
    } else if gone[0] !in s.entries {
      EvictedBlobs(s, gone[1..], stuck, digest);
      assert Members(gone) == {gone[0]} + Members(gone[1..]);
      assert s.entries - Members(gone) == s.entries - Members(gone[1..]);
      DroppedTail(s.entries, gone, digest);
    } else {
      var s1 := Evict(s, gone[0], stuck);
      EvictedBlobs(s1, gone[1..], stuck, digest);
      assert s.entries - Members(gone) == s1.entries - Members(gone[1..]);
      KeepsOneFewer(s, gone, stuck, digest);
    }
  }

  lemma DroppedTail(entries: Index, gone: seq<string>, digest: string)
    requires gone != [] && gone[0] !in entries
    ensures Dropped(entries, gone, digest) <==> Dropped(entries, gone[1..], digest)
  {
    if Dropped(entries, gone, digest) {
      var key :| key in gone && key in entries && entries[key].digest == digest;
      assert key in gone[1..];
    }
  }

  lemma KeepsOneFewer(s: Store, gone: seq<string>, stuck: set<string>, digest: string)
    requires gone != [] && gone[0] in s.entries
    requires s.entries - Members(gone) == (s.entries - {gone[0]}) - Members(gone[1..])
    ensures Keeps(s, gone, stuck, digest)
       <==> Keeps(Evict(s, gone[0], stuck), gone[1..], stuck, digest)
            && (s.entries[gone[0]].digest != digest || Referenced(s.entries - {gone[0]}, digest) || digest in stuck)
  {
    var rest := s.entries - {gone[0]};
    assert forall key :: key in rest - Members(gone[1..]) ==> key in rest;
    if Dropped(s.entries, gone, digest) && s.entries[gone[0]].digest != digest {
      var key :| key in gone && key in s.entries && s.entries[key].digest == digest;
      assert key in gone[1..] && key in rest;
    }
    if Referenced(rest, digest) {
      StillReferenced(rest, gone[1..], digest);
    }
  }

  lemma StillReferenced(entries: Index, gone: seq<string>, digest: string)
    requires Referenced(entries, digest)
    ensures Referenced(entries - Members(gone), digest) || Dropped(entries, gone, digest)
  {
    var key :| key in entries && entries[key].digest == digest;
    if key !in gone {
      assert key in entries - Members(gone);
    }
  }

  /** The summed size does not depend on how ties are ordered. */
  lemma {:induction false} SizeShuffled(entries: Index, a: seq<string>, b: seq<string>)
    requires multiset(a) == multiset(b) && (forall key <- a :: key in entries) && (forall key <- b :: key in entries)
    ensures SizeOf(entries, a) == SizeOf(entries, b)
    decreases |a|
  {
    SameElements(a, b);
    if a == [] {
    } else {
      var k := MatchHead(a, b);
      SizeShuffled(entries, a[1..], Without(b, k));
      SizeWithout(entries, b, k);
    }
  }

  lemma {:induction false} SizeWithout(entries: Index, b: seq<string>, k: nat)
    requires k < |b| && forall key <- b :: key in entries
    ensures SizeOf(entries, b) == entries[b[k]].size + SizeOf(entries, Without(b, k))
  {
    if k == 0 {
      assert Without(b, 0) == b[1..];
    } else {
      SizeWithout(entries, b[1..], k - 1);
      assert Without(b, k)[1..] == Without(b[1..], k - 1);
    }
  }

  // ---- runs -------------------------------------------------------------------------------------

  datatype Op = DoPut(key: string, data: Bytes, now: real) | DoGet(key: string, now: real)
              | DoPrune(order: seq<string>, maxBytes: int)

  ghost predicate CanApply(s: Store, op: Op) {
    op.DoPrune? ==> IsLruOrder(s.entries, op.order)
  }

  ghost function Apply(hash: Hash, s: Store, op: Op): Store
    requires CanApply(s, op)
  {
    match op
    case DoPut(key, data, now) => AfterPut(hash, s, key, data, now, NO_FAULTS)
    case DoGet(key, now) => AfterGet(s, key, now, NO_FAULTS)
    case DoPrune(order, maxBytes) => AfterEvictions(s, order[..Excess(s.entries, order, maxBytes)], {})
  }

  /** The state after all of `ops`, if each of them could be applied. */
  ghost function Run(hash: Hash, s: Store, ops: seq<Op>): Option<Store>
    decreases |ops|
  {
    if ops == [] then Some(s)
    else
      var before := Run(hash, s, ops[..|ops| - 1]);
      var op := ops[|ops| - 1];
      if before.None? || !CanApply(before.value, op) then None else Some(Apply(hash, before.value, op))
  }

  /** What was last put under a key. */
  function Latest(ops: seq<Op>, key: string): Option<Bytes>
    decreases |ops|
  {
    if ops == [] then None
    else
      var op := ops[|ops| - 1];
      if op.DoPut? && op.key == key then Some(op.data) else Latest(ops[..|ops| - 1], key)
  }

  ghost predicate Addressed(hash: Hash, blobs: map<string, Bytes>) {
    forall digest :: digest in blobs ==> hash(blobs[digest]) == digest
  }

  ghost predicate Backed(hash: Hash, s: Store, key: string, latest: Option<Bytes>) {
    && key in s.entries && latest.Some? && s.entries[key].size == |latest.value|
    && s.entries[key].digest == hash(latest.value) && hash(latest.value) in s.blobs
  }

  ghost predicate Intact(hash: Hash, s: Store, ops: seq<Op>) {
    && Addressed(hash, s.blobs)
    && forall key {:trigger key in s.entries} :: key in s.entries ==> Backed(hash, s, key, Latest(ops, key))
  }

  /** Evictions leave every surviving row its blob. */
  lemma {:induction false} EvictionsKeepBacked(hash: Hash, s: Store, gone: seq<string>, stuck: set<string>, key: string,
                                               latest: Option<Bytes>)
    requires Backed(hash, s, key, latest) && key in AfterEvictions(s, gone, stuck).entries
    ensures Backed(hash, AfterEvictions(s, gone, stuck), key, latest)
  {
    EvictedEntries(s, gone, stuck);
    EvictedBlobs(s, gone, stuck, hash(latest.value));
    assert Referenced(s.entries - Members(gone), hash(latest.value));
  }

  lemma {:induction false} EvictionsKeepAddressed(hash: Hash, s: Store, gone: seq<string>, stuck: set<string>)
    requires Addressed(hash, s.blobs)
    ensures Addressed(hash, AfterEvictions(s, gone, stuck).blobs)
  {
    forall digest | digest in AfterEvictions(s, gone, stuck).blobs
      ensures hash(AfterEvictions(s, gone, stuck).blobs[digest]) == digest
    {
      EvictedBlobs(s, gone, stuck, digest);
    }
  }

  lemma StepKeepsIntact(hash: Hash, s: Store, ops: seq<Op>, op: Op)
    requires Intact(hash, s, ops) && CanApply(s, op)
    ensures Intact(hash, Apply(hash, s, op), ops + [op])
  {
    var t := Apply(hash, s, op);
    assert (ops + [op])[..|ops|] == ops;
    if op.DoPrune? {
      var gone := op.order[..Excess(s.entries, op.order, op.maxBytes)];
      EvictionsKeepAddressed(hash, s, gone, {});
      EvictedEntries(s, gone, {});
      forall key | key in t.entries ensures Backed(hash, t, key, Latest(ops + [op], key)) {
        EvictionsKeepBacked(hash, s, gone, {}, key, Latest(ops, key));
      }
    } else {
      forall key | key in t.entries ensures Backed(hash, t, key, Latest(ops + [op], key)) {
        if key in s.entries {
          assert Backed(hash, s, key, Latest(ops, key));
        }
      }
    }
  }

  /** Over every run, each indexed key has its blob and it is the last value put. */
  lemma {:induction false} AlwaysIntact(hash: Hash, ops: seq<Op>)
    requires Run(hash, EMPTY, ops).Some?
    ensures Intact(hash, Run(hash, EMPTY, ops).value, ops)
    decreases |ops|
  {
    if ops == [] {
    } else {
      var before, op := ops[..|ops| - 1], ops[|ops| - 1];
      AlwaysIntact(hash, before);
      StepKeepsIntact(hash, Run(hash, EMPTY, before).value, before, op);
      assert before + [op] == ops;
    }
  }

  function PutValues(ops: seq<Op>): set<Bytes> {
    set op <- ops | op.DoPut? :: op.data
  }

  lemma {:induction false} LatestWasPut(ops: seq<Op>, key: string)
    requires Latest(ops, key).Some?
    ensures Latest(ops, key).value in PutValues(ops)
    decreases |ops|
  {
    var last := ops[|ops| - 1];
    assert last in ops;
    if !(last.DoPut? && last.key == key) {
      LatestWasPut(ops[..|ops| - 1], key);
    }
  }

  /** Whatever is on disk was put by the run. */
  lemma {:induction false} BlobWasPut(hash: Hash, ops: seq<Op>, digest: string)
    requires Run(hash, EMPTY, ops).Some? && digest in Run(hash, EMPTY, ops).value.blobs
    ensures Run(hash, EMPTY, ops).value.blobs[digest] in PutValues(ops)
    decreases |ops|
  {
    var before, op := ops[..|ops| - 1], ops[|ops| - 1];
    var s := Run(hash, EMPTY, before).value;
    assert op in ops && PutValues(before) <= PutValues(ops);
    if op.DoPrune? {
      EvictedBlobs(s, op.order[..Excess(s.entries, op.order, op.maxBytes)], {}, digest);
    }
    if digest in s.blobs {
      BlobWasPut(hash, before, digest);
    }
  }

  /** A read answers with the last value put, or nothing once the key is evicted. */
  lemma {:induction false} ReadsLatest(hash: Hash, ops: seq<Op>, key: string)
    requires Run(hash, EMPTY, ops).Some? && InjectiveOn(hash, PutValues(ops))
    ensures var s := Run(hash, EMPTY, ops).value;
            Found(s, key, NO_FAULTS) == if key in s.entries then Latest(ops, key) else None
  {
    AlwaysIntact(hash, ops);
    var s := Run(hash, EMPTY, ops).value;
    if key in s.entries {
      assert Backed(hash, s, key, Latest(ops, key));
      LatestWasPut(ops, key);
      BlobWasPut(hash, ops, s.entries[key].digest);
      assert !Collide(hash, s.blobs[s.entries[key].digest], Latest(ops, key).value);
    }
  }

  /** Only eviction forgets. */
  lemma {:induction false} OnlyPruneForgets(hash: Hash, ops: seq<Op>, key: string)
    requires Run(hash, EMPTY, ops).Some? && forall op <- ops :: !op.DoPrune?
    ensures key in Run(hash, EMPTY, ops).value.entries <==> Latest(ops, key).Some?
    decreases |ops|
  {
    if ops == [] {
    } else {
      OnlyPruneForgets(hash, ops[..|ops| - 1], key);
    }
  }

  /** A blob no row names, the old value of an overwritten key, outlives any run that does not
      put the same bytes again: pruning bounds what is indexed, not what is on disk. */
  lemma {:induction false} OrphanStays(hash: Hash, s: Store, ops: seq<Op>, digest: string)
    requires digest in s.blobs && !Referenced(s.entries, digest)
    requires Run(hash, s, ops).Some? && forall op <- ops :: op.DoPut? ==> hash(op.data) != digest
    ensures digest in Run(hash, s, ops).value.blobs && !Referenced(Run(hash, s, ops).value.entries, digest)
    decreases |ops|
  {
    if ops == [] {
    } else {
      OrphanStays(hash, s, ops[..|ops| - 1], digest);
      var before, op := Run(hash, s, ops[..|ops| - 1]).value, ops[|ops| - 1];
      if op.DoPrune? {
        var gone := op.order[..Excess(before.entries, op.order, op.maxBytes)];
        EvictedEntries(before, gone, {});
        EvictedBlobs(before, gone, {}, digest);
      }
    }
  }

  /** Every blob on disk belongs to an indexed row. */
  ghost predicate NoOrphans(s: Store) {
    forall digest {:trigger Referenced(s.entries, digest)} :: digest in s.blobs ==> Referenced(s.entries, digest)
  }

  /** The row's blob was on disk, and its file could not be removed with the last row naming it. */
  ghost predicate LeftStuck(s: Store, gone: seq<string>, stuck: set<string>, digest: string) {
    digest in stuck && digest in s.blobs && !Referenced(s.entries - Members(gone), digest)
  }

  /** Evictions reclaim whatever they unindex, no more: they leave no orphan exactly when there
      was none before and no file they should remove is stuck. */
  lemma {:induction false} ReclaimsIff(s: Store, gone: seq<string>, stuck: set<string>)
    ensures NoOrphans(AfterEvictions(s, gone, stuck))
       <==> NoOrphans(s) && forall digest :: !LeftStuck(s, gone, stuck, digest)
  {
    var t := AfterEvictions(s, gone, stuck);
    EvictedEntries(s, gone, stuck);
    forall digest ensures Referenced(t.entries, digest) ==> Referenced(s.entries, digest) {
    }
    forall digest | digest in s.blobs
      ensures (digest in t.blobs ==> Referenced(t.entries, digest))
         <==> Referenced(s.entries, digest) && !LeftStuck(s, gone, stuck, digest)
    {
      EvictedBlobs(s, gone, stuck, digest);
      if Referenced(s.entries, digest) {
        StillReferenced(s.entries, gone, digest);
      }
    }
    forall digest ensures digest in t.blobs ==> digest in s.blobs {
      EvictedBlobs(s, gone, stuck, digest);
    }
  }

  /** What can be checked before a put: the key is new, its value is unchanged, another row still
      names the old value, or that value's blob is gone already. Where the index fails, the blob
      must fail too, or belong to some row. */
  ghost predicate ReplacesCleanly(hash: Hash, s: Store, key: string, data: Bytes, faults: Faults) {
    if faults.index then faults.blob || Referenced(s.entries, hash(data))
    else
      || key !in s.entries || s.entries[key].digest == hash(data)
      || Referenced(s.entries - {key}, s.entries[key].digest) || s.entries[key].digest !in s.blobs
  }

  lemma PutOrphansIff(hash: Hash, s: Store, key: string, data: Bytes, now: real, faults: Faults)
    requires NoOrphans(s)
    ensures NoOrphans(AfterPut(hash, s, key, data, now, faults)) <==> ReplacesCleanly(hash, s, key, data, faults)
  {
    var t := AfterPut(hash, s, key, data, now, faults);
    if faults.index {
      assert hash(data) in t.blobs <==> hash(data) in s.blobs || !faults.blob;
    } else {
      assert key in t.entries && t.entries[key].digest == hash(data);
      forall digest | digest != hash(data)
        ensures Referenced(t.entries, digest) <==> Referenced(s.entries - {key}, digest)
      {
        if other :| other in t.entries && t.entries[other].digest == digest {
          assert other in s.entries - {key};
        }
        if other :| other in s.entries - {key} && s.entries[other].digest == digest {
          assert other in t.entries;
        }
      }
      forall digest | digest in s.blobs
        ensures Referenced(s.entries - {key}, digest) || (key in s.entries && s.entries[key].digest == digest)
      {
        assert Referenced(s.entries, digest);
        var other :| other in s.entries && s.entries[other].digest == digest;
        assert other == key || other in s.entries - {key};
      }
    }
  }

  /** Overwrite a key, then evict everything: the first value's bytes are still there. */
  lemma EvictingAllReclaimsNotAll(hash: Hash, key: string, first: Bytes, second: Bytes, now: real, later: real)
    requires hash(first) != hash(second)
    ensures var s := AfterPut(hash, AfterPut(hash, EMPTY, key, first, now, NO_FAULTS), key, second, later, NO_FAULTS);
            IsLruOrder(s.entries, [key]) && AfterEvictions(s, [key], {}) == Store(map[], map[hash(first) := first])
  {
    var s := AfterPut(hash, AfterPut(hash, EMPTY, key, first, now, NO_FAULTS), key, second, later, NO_FAULTS);
    assert s.entries - {key} == map[];
    assert s.blobs - {hash(second)} == map[hash(first) := first];
    assert AfterEvictions(s, [key], {}) == AfterEvictions(Evict(s, key, {}), [], {});
  }
}
