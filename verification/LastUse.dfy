// What "least recently used" means over a whole run.
module LastUse {
  // The time a row carries is that of the last call that put or read its key.

  import opened Basics
  import opened LocalCache

  predicate Touches(op: Op, key: string) {
    (op.DoPut? || op.DoGet?) && op.key == key
  }

  /** The position of the last put or read of the key, or -1. */
  function LastTouch(ops: seq<Op>, key: string): (at: int)
    ensures -1 <= at < |ops|
    ensures at >= 0 ==> Touches(ops[at], key)
    ensures forall i | at < i < |ops| :: !Touches(ops[i], key)
  {
    if ops == [] then -1
    else if Touches(ops[|ops| - 1], key) then |ops| - 1
    else LastTouch(ops[..|ops| - 1], key)
  }

  /** A key in the index is found, so a read of it refreshes its time. */
  lemma {:induction false} IndexedIsFound(hash: Hash, ops: seq<Op>, key: string)
    requires Run(hash, EMPTY, ops).Some? && key in Run(hash, EMPTY, ops).value.entries
    ensures Found(Run(hash, EMPTY, ops).value, key, NO_FAULTS).Some?
  {
    AlwaysIntact(hash, ops);
    assert Backed(hash, Run(hash, EMPTY, ops).value, key, Latest(ops, key));
  }

  /** Over every run, a row's time is that of the last put or read of its key. */
  lemma {:induction false} LastUsedIs(hash: Hash, ops: seq<Op>, key: string)
    requires Run(hash, EMPTY, ops).Some? && key in Run(hash, EMPTY, ops).value.entries
    ensures LastTouch(ops, key) >= 0
    ensures Run(hash, EMPTY, ops).value.entries[key].lastUsed == ops[LastTouch(ops, key)].now
    decreases |ops|
  {
    if ops == [] {
    } else {
      var before, op := ops[..|ops| - 1], ops[|ops| - 1];
      var s := Run(hash, EMPTY, before).value;
      if op.DoPrune? {
        EvictedEntries(s, op.order[..Excess(s.entries, op.order, op.maxBytes)], {});
      }
      if key in s.entries {
        LastUsedIs(hash, before, key);
        IndexedIsFound(hash, before, key);
      }
    }
  }

  /** Every put and read happens at a later time than those before it. */
  ghost predicate Ticking(ops: seq<Op>) {
    forall i, j | 0 <= i < j < |ops| && !ops[i].DoPrune? && !ops[j].DoPrune? :: ops[i].now < ops[j].now
  }

  lemma {:induction false} EvictedIsFront(s: Store, order: seq<string>, n: nat, gone: string, kept: string)
    requires IsLruOrder(s.entries, order) && n <= |order|
    requires gone in s.entries && gone !in AfterEvictions(s, order[..n], {}).entries
    requires kept in AfterEvictions(s, order[..n], {}).entries
    ensures Before(s.entries, gone, kept)
  {
    EvictedEntries(s, order[..n], {});
    assert gone in order[..n] && kept !in order[..n];
    var i :| 0 <= i < n && order[i] == gone;
    assert kept in order[n..] by {
      assert order == order[..n] + order[n..];
    }
    var j :| n <= j < |order| && order[j] == kept;
    assert Before(s.entries, order[i], order[j]);
  }

  /** Whatever a prune evicts was last put or read no later than whatever it keeps. */
  lemma {:induction false} EvictsLeastRecent(hash: Hash, ops: seq<Op>, prune: Op, gone: string, kept: string)
    requires prune.DoPrune? && Run(hash, EMPTY, ops + [prune]).Some?
    requires gone in Run(hash, EMPTY, ops).value.entries
    requires gone !in Run(hash, EMPTY, ops + [prune]).value.entries
    requires kept in Run(hash, EMPTY, ops + [prune]).value.entries
    ensures 0 <= LastTouch(ops, gone) && 0 <= LastTouch(ops, kept)
    ensures ops[LastTouch(ops, gone)].now <= ops[LastTouch(ops, kept)].now
    ensures Ticking(ops) ==> LastTouch(ops, gone) < LastTouch(ops, kept)
  {
    assert (ops + [prune])[..|ops|] == ops;
    var s := Run(hash, EMPTY, ops).value;
    var n := Excess(s.entries, prune.order, prune.maxBytes);
    EvictedEntries(s, prune.order[..n], {});
    EvictedIsFront(s, prune.order, n, gone, kept);
    LastUsedIs(hash, ops, gone);
    LastUsedIs(hash, ops, kept);
  }

  /** The lengths of the values last put under the keys. */
  function Lengths(ops: seq<Op>, keys: seq<string>): nat {
    if keys == [] then 0
    else (match Latest(ops, keys[0]) case Some(data) => |data| case None => 0) + Lengths(ops, keys[1..])
  }

  lemma {:induction false} SizesAreLengths(hash: Hash, ops: seq<Op>, keys: seq<string>)
    requires Run(hash, EMPTY, ops).Some? && forall key <- keys :: key in Run(hash, EMPTY, ops).value.entries
    ensures SizeOf(Run(hash, EMPTY, ops).value.entries, keys) == Lengths(ops, keys)
  {
    if keys == [] {
    } else {
      SizeIsLength(hash, ops, keys[0]);
      SizesAreLengths(hash, ops, keys[1..]);
    }
  }

  lemma {:induction false} SizeIsLength(hash: Hash, ops: seq<Op>, key: string)
    requires Run(hash, EMPTY, ops).Some? && key in Run(hash, EMPTY, ops).value.entries
    ensures Latest(ops, key).Some? && Run(hash, EMPTY, ops).value.entries[key].size == |Latest(ops, key).value|
  {
    AlwaysIntact(hash, ops);
    assert Backed(hash, Run(hash, EMPTY, ops).value, key, Latest(ops, key));
  }

  /** What a prune keeps is the shortest cut of the order whose values fit: it fits unless nothing
      is kept, and with the last key evicted it would not. */
  lemma {:induction false} PruneFits(hash: Hash, ops: seq<Op>, order: seq<string>, maxBytes: int) returns (n: nat)
    requires Run(hash, EMPTY, ops + [DoPrune(order, maxBytes)]).Some?
    ensures n <= |order|
    ensures forall key :: key in Run(hash, EMPTY, ops + [DoPrune(order, maxBytes)]).value.entries <==>
                          key in Run(hash, EMPTY, ops).value.entries && key !in order[..n]
    ensures n == |order| || Lengths(ops, order[n..]) <= maxBytes
    ensures n > 0 ==> Lengths(ops, order[n - 1..]) > maxBytes
  {
    assert (ops + [DoPrune(order, maxBytes)])[..|ops|] == ops;
    var s := Run(hash, EMPTY, ops).value;
    n := Excess(s.entries, order, maxBytes);
    EvictedEntries(s, order[..n], {});
    ExcessIs(s.entries, order, maxBytes, n);
    SizesAreLengths(hash, ops, order[n..]);
    if n > 0 {
      SizesAreLengths(hash, ops, order[n - 1..]);
    }
  }
}
