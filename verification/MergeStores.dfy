// Merging N inputs into one graph.
module MergeStores {
  // Components are grouped by shared identity keys, groups are written under fresh ids as the
  // strategy allows, and edges are remapped and deduplicated.

  import opened Links
  import opened UnionFind
  import opened Classes
  import opened KeyIndex

  datatype Component = Component(id: nat, excluded: bool, keys: seq<string>)
  datatype Edge = Edge(kind: string, src: nat, dst: nat)
  datatype Input = Input(name: string, components: seq<Component>, edges: seq<Edge>)
  datatype Strategy = Union | Hierarchical | Intersect

  /** A component that takes part, with the label of its input. */
  datatype Entry = Entry(name: string, id: nat, keys: seq<string>) {
    /** Where the id map files this entry. */
    function Slot(): (string, nat) {
      (name, id)
    }
  }

  type IdMap = map<(string, nat), nat>

  // ---- gathering ----------------------------------------------------------------------

  function Taken(name: string, components: seq<Component>): seq<Entry> {
    if components == [] then []
    else
      var c := components[|components| - 1];
      Taken(name, components[..|components| - 1]) + if c.excluded then [] else [Entry(name, c.id, c.keys)]
  }

  function Entries(inputs: seq<Input>): seq<Entry> {
    if inputs == [] then []
    else
      var last := inputs[|inputs| - 1];
      Entries(inputs[..|inputs| - 1]) + Taken(last.name, last.components)
  }

  method Gather(inputs: seq<Input>) returns (entries: seq<Entry>)
    ensures entries == Entries(inputs)
  {
    entries := [];
    for k := 0 to |inputs|
      invariant entries == Entries(inputs[..k])
    {
      var name, cs := inputs[k].name, inputs[k].components;
      for m := 0 to |cs|
        invariant entries == Entries(inputs[..k]) + Taken(name, cs[..m])
      {
        if !cs[m].excluded {
          entries := entries + [Entry(name, cs[m].id, cs[m].keys)];
        }
        assert cs[..m + 1][..m] == cs[..m];
      }
      assert cs[..|cs|] == cs;
      assert inputs[..k + 1][..k] == inputs[..k];
    }
    assert inputs[..|inputs|] == inputs;
  }

  /** Where an entry came from: component `m` of input `k`. */
  type Place = (nat, nat)

  predicate TakesPart(inputs: seq<Input>, at: Place) {
    at.0 < |inputs| && at.1 < |inputs[at.0].components| && !inputs[at.0].components[at.1].excluded
  }

  predicate Earlier(a: Place, b: Place) {
    a.0 < b.0 || (a.0 == b.0 && a.1 < b.1)
  }

  ghost predicate IsFrom(inputs: seq<Input>, e: Entry, at: Place) {
    && TakesPart(inputs, at)
    && e.name == inputs[at.0].name && e.id == inputs[at.0].components[at.1].id
    && e.keys == inputs[at.0].components[at.1].keys
  }

  /** Entry i comes from place i, places ascend, and these are the places before `end`. */
  ghost predicate Lists(inputs: seq<Input>, entries: seq<Entry>, from: seq<Place>, end: Place) {
    && |from| == |entries| && (forall i | 0 <= i < |from| :: IsFrom(inputs, entries[i], from[i]))
    && (forall i, j | 0 <= i < j < |from| :: Earlier(from[i], from[j]))
    && forall at: Place :: at in from <==> TakesPart(inputs, at) && Earlier(at, end)
  }

  lemma ListsOneMore(inputs: seq<Input>, entries: seq<Entry>, from: seq<Place>, at: Place, e: Entry)
    requires Lists(inputs, entries, from, at) && IsFrom(inputs, e, at)
    ensures Lists(inputs, entries + [e], from + [at], (at.0, at.1 + 1))
  {
    forall i | 0 <= i < |from| ensures Earlier(from[i], at) {
      assert from[i] in from;
    }
  }

  lemma ListsOneLess(inputs: seq<Input>, entries: seq<Entry>, from: seq<Place>, at: Place)
    requires Lists(inputs, entries, from, at) && !TakesPart(inputs, at)
    ensures Lists(inputs, entries, from, (at.0, at.1 + 1))
  {
  }

  lemma ListsNext(inputs: seq<Input>, entries: seq<Entry>, from: seq<Place>, k: nat)
    requires k < |inputs| && Lists(inputs, entries, from, (k, |inputs[k].components|))
    ensures Lists(inputs, entries, from, (k + 1, 0))
  {
  }

  lemma {:induction false} Gathered(inputs: seq<Input>, k: nat, m: nat) returns (from: seq<Place>)
    requires k < |inputs| && m <= |inputs[k].components|
    ensures Lists(inputs, Entries(inputs[..k]) + Taken(inputs[k].name, inputs[k].components[..m]), from, (k, m))
    decreases k, m + 1
  {
    var cs := inputs[k].components;
    if m > 0 {
      from := Gathered(inputs, k, m - 1);
      var before := Entries(inputs[..k]) + Taken(inputs[k].name, cs[..m - 1]);
      assert cs[..m][..m - 1] == cs[..m - 1];
      if cs[m - 1].excluded {
        assert Entries(inputs[..k]) + Taken(inputs[k].name, cs[..m]) == before;
        ListsOneLess(inputs, before, from, (k, m - 1));
      } else {
        var e := Entry(inputs[k].name, cs[m - 1].id, cs[m - 1].keys);
        assert Entries(inputs[..k]) + Taken(inputs[k].name, cs[..m]) == before + [e];
        ListsOneMore(inputs, before, from, (k, m - 1), e);
        from := from + [(k, m - 1)];
      }
    } else {
      from := GatheredInputs(inputs, k);
      assert Entries(inputs[..k]) + Taken(inputs[k].name, cs[..0]) == Entries(inputs[..k]);
    }
  }

  lemma {:induction false} GatheredInputs(inputs: seq<Input>, k: nat) returns (from: seq<Place>)
    requires k <= |inputs|
    ensures Lists(inputs, Entries(inputs[..k]), from, (k, 0))
    decreases k, 0
  {
    if k == 0 {
      from := [];
    } else {
      var last := inputs[k - 1];
      from := Gathered(inputs, k - 1, |last.components|);
      assert inputs[..k][..k - 1] == inputs[..k - 1] && last.components[..|last.components|] == last.components;
      ListsNext(inputs, Entries(inputs[..k]), from, k - 1);
    }
  }

  /** The entries are the components that are not excluded, each once, in input order. */
  lemma EntriesAre(inputs: seq<Input>) returns (from: seq<Place>)
    ensures |from| == |Entries(inputs)|
    ensures forall i | 0 <= i < |from| :: IsFrom(inputs, Entries(inputs)[i], from[i])
    ensures forall i, j | 0 <= i < j < |from| :: Earlier(from[i], from[j])
    ensures forall at: Place :: at in from <==> TakesPart(inputs, at)
  {
    from := GatheredInputs(inputs, |inputs|);
    assert inputs[..|inputs|] == inputs;
  }

  // ---- the classes --------------------------------------------------------------------

  function KeysOf(entries: seq<Entry>): KeyTable {
    seq(|entries|, i requires 0 <= i < |entries| => entries[i].keys)
  }

  ghost function Identity(entries: seq<Entry>): set<Link> {
    KeyLinks(KeysOf(entries))
  }

  method ReadKeys(entries: seq<Entry>, i: nat, uf: HalvingForest, first: map<string, nat>)
    returns (byKey: map<string, nat>)
    requires i < |entries| && uf.Valid() && Numbered(uf.parent, i + 1)
    requires Indexed(KeysOf(entries), i, 0, first, uf.links)
    modifies uf
    ensures uf.Valid() && Numbered(uf.parent, i + 1)
    ensures Indexed(KeysOf(entries), i + 1, 0, byKey, uf.links)
  {
    ghost var table := KeysOf(entries);
    byKey := first;
    for t := 0 to |entries[i].keys|
      invariant uf.Valid() && Numbered(uf.parent, i + 1)
      invariant Indexed(table, i, t, byKey, uf.links)
    {
      var key := entries[i].keys[t];
      if key in byKey {
        KnownKey(table, i, t, byKey, uf.links);
        assert Read(table, i, t, byKey[key], key);
        uf.Union(i, byKey[key]);
      } else {
        NewKey(table, i, t, byKey, uf.links);
        byKey := byKey[key := i];
      }
    }
    NextItem(table, i, byKey, uf.links);
  }

  method Group(entries: seq<Entry>) returns (groups: map<nat, seq<nat>>)
    ensures IsBucketing(|entries|, Identity(entries), groups)
  {
    var uf := new HalvingForest();
    var byKey: map<string, nat> := map[];
    for i := 0 to |entries|
      invariant fresh(uf) && uf.Valid() && Numbered(uf.parent, i)
      invariant Indexed(KeysOf(entries), i, 0, byKey, uf.links)
    {
      var _ := uf.Find(i);
      byKey := ReadKeys(entries, i, uf, byKey);
    }
    IndexComplete(KeysOf(entries), byKey, uf.links);
    groups := Collect(|entries|, uf, Identity(entries));
  }

  method Collect(n: nat, uf: HalvingForest, ghost final: set<Link>) returns (groups: map<nat, seq<nat>>)
    requires uf.Valid() && Numbered(uf.parent, n) && Equivalent(uf.links, final)
    modifies uf`parent
    ensures IsBucketing(n, final, groups)
  {
    groups := map[];
    ghost var p := uf.parent;
    for k := 0 to n
      invariant uf.Valid() && SameRoots(p, uf.parent)
      invariant Collected(p, k, groups)
    {
      var r := uf.Find(k);
      CollectOne(p, n, k, groups, r);
      groups := groups[r := (if r in groups then groups[r] else []) + [k]];
    }
    BucketsAreClasses(n, p, uf.parent, uf.links, final, groups);
  }

  // ---- writing components ---------------------------------------------------------------

  /** The inputs that contribute to the class of entry i. */
  ghost function Contributors(entries: seq<Entry>, i: nat): set<string> {
    set j: nat | j < |entries| && Chained(Identity(entries), i, j) :: entries[j].name
  }

  ghost predicate Kept(entries: seq<Entry>, all: set<string>, strategy: Strategy, i: nat) {
    strategy == Intersect ==> Contributors(entries, i) == all
  }

  ghost predicate IsHead(entries: seq<Entry>, i: nat) {
    i < |entries| && forall j: nat | j < |entries| && Chained(Identity(entries), i, j) :: i <= j
  }

  /** The least member of every class: one index per class. */
  ghost function ClassHeads(entries: seq<Entry>): set<nat> {
    set i: nat | i < |entries| && IsHead(entries, i)
  }

  lemma HeadsAreBuckets(entries: seq<Entry>, groups: map<nat, seq<nat>>)
    requires IsBucketing(|entries|, Identity(entries), groups)
    ensures ClassHeads(entries) == groups.Keys
  {
    var links := Identity(entries);
    forall r | r in groups ensures IsHead(entries, r) {
      assert InBucket(groups, r, groups[r][0]);
      forall j: nat | j < |entries| && Chained(links, r, j) ensures r <= j {
        assert InBucket(groups, r, j);
      }
    }
    forall i | i in ClassHeads(entries) ensures i in groups {
      assert Placed(groups, i);
      var r: nat :| InBucket(groups, r, i);
      assert InBucket(groups, r, groups[r][0]);
      ChainedSym(links, r, i);
      assert i <= r;
      var k :| 0 <= k < |groups[r]| && groups[r][k] == i;
      assert k > 0 ==> groups[r][0] < groups[r][k];
    }
  }

  ghost predicate InClass(entries: seq<Entry>, r: nat, i: nat) {
    i < |entries| && Chained(Identity(entries), r, i)
  }

  /** `order` lists the heads written so far: the k-th one got id k + 1. */
  ghost predicate Written(entries: seq<Entry>, order: seq<nat>, idMap: IdMap) {
    && (forall slot {:trigger Filed(entries, order, slot, idMap[slot])} | slot in idMap ::
          Filed(entries, order, slot, idMap[slot]))
    && forall i: nat, r: nat | r in order && InClass(entries, r, i) :: entries[i].Slot() in idMap
  }

  /** The id belongs to the class of some entry with that slot. */
  ghost predicate Filed(entries: seq<Entry>, order: seq<nat>, slot: (string, nat), cid: nat) {
    1 <= cid <= |order| && exists i: nat :: InClass(entries, order[cid - 1], i) && entries[i].Slot() == slot
  }

  /** `sources[cid - 1]` is the provenance list of component `cid`. */
  datatype Output = Output(sources: seq<set<string>>, idMap: IdMap, merged: nat, dropped: nat)

  /** `for i in members: id_map[(label, comp.id)] = cid`. */
  method FileMembers(entries: seq<Entry>, members: seq<nat>, cid: nat, before: IdMap) returns (idMap: IdMap)
    requires forall i <- members :: i < |entries|
    ensures forall i <- members :: i < |entries| && entries[i].Slot() in idMap && idMap[entries[i].Slot()] == cid
    ensures forall slot | slot in idMap ::
              (slot in before && idMap[slot] == before[slot])
              || (idMap[slot] == cid && exists i :: i in members && entries[i].Slot() == slot)
    ensures before.Keys <= idMap.Keys
  {
    idMap := before;
    for k := 0 to |members|
      invariant forall i <- members[..k] ::
                i < |entries| && entries[i].Slot() in idMap && idMap[entries[i].Slot()] == cid
      invariant forall slot | slot in idMap ::
                  (slot in before && idMap[slot] == before[slot])
                  || (idMap[slot] == cid && exists i :: i in members && entries[i].Slot() == slot)
      invariant before.Keys <= idMap.Keys
    {
      assert members[k] in members;
      idMap := idMap[entries[members[k]].Slot() := cid];
      assert members[..k + 1] == members[..k] + [members[k]];
    }
    assert members[..|members|] == members;
  }

  lemma WriteOne(entries: seq<Entry>, groups: map<nat, seq<nat>>, r: nat, order: seq<nat>, before: IdMap, idMap: IdMap)
    requires IsBucketing(|entries|, Identity(entries), groups) && r in groups
    requires Written(entries, order, before) && before.Keys <= idMap.Keys
    requires forall i <- groups[r] :: i < |entries| && entries[i].Slot() in idMap
    requires forall slot | slot in idMap ::
               (slot in before && idMap[slot] == before[slot])
               || (idMap[slot] == |order| + 1 && exists i :: i in groups[r] && entries[i].Slot() == slot)
    ensures Written(entries, order + [r], idMap)
  {
    var more := order + [r];
    forall slot | slot in idMap ensures Filed(entries, more, slot, idMap[slot]) {
      if slot in before && idMap[slot] == before[slot] {
        StillFiled(entries, order, r, slot, idMap[slot]);
      } else {
        var i :| i in groups[r] && entries[i].Slot() == slot;
        assert InBucket(groups, r, i);
        assert more[idMap[slot] - 1] == r && InClass(entries, r, i);
      }
    }
    forall i: nat, s: nat | s in more && InClass(entries, s, i) ensures entries[i].Slot() in idMap {
      if s == r {
        assert InBucket(groups, r, i);
      } else {
        assert s in order;
      }
    }
  }

  lemma StillFiled(entries: seq<Entry>, order: seq<nat>, r: nat, slot: (string, nat), cid: nat)
    requires Filed(entries, order, slot, cid)
    ensures Filed(entries, order + [r], slot, cid)
  {
    var i: nat :| InClass(entries, order[cid - 1], i) && entries[i].Slot() == slot;
    assert (order + [r])[cid - 1] == order[cid - 1];
  }

  ghost predicate Distinct(order: seq<nat>) {
    forall k, m | 0 <= k < m < |order| :: order[k] != order[m]
  }

  ghost function KeptHeads(entries: seq<Entry>, all: set<string>, strategy: Strategy, heads: set<nat>): set<nat> {
    set r | r in heads && Kept(entries, all, strategy, r)
  }

  ghost predicate SourcesOf(entries: seq<Entry>, order: seq<nat>, sources: seq<set<string>>) {
    |sources| == |order| && forall k | 0 <= k < |order| :: sources[k] == Contributors(entries, order[k])
  }

  /** What writing the groups under `heads` leaves behind. */
  ghost predicate Outcome(entries: seq<Entry>, all: set<string>, strategy: Strategy, heads: set<nat>,
                          order: seq<nat>, out: Output) {
    && Distinct(order) && Members(order) == KeptHeads(entries, all, strategy, heads)
    && Written(entries, order, out.idMap) && SourcesOf(entries, order, out.sources)
    && out.merged == |order| && out.merged + out.dropped == |heads|
  }

  lemma DropStep(entries: seq<Entry>, all: set<string>, strategy: Strategy, done: set<nat>, order: seq<nat>,
                 out: Output,
                 r: nat)
    requires Outcome(entries, all, strategy, done, order, out)
    requires r !in done && !Kept(entries, all, strategy, r)
    ensures Outcome(entries, all, strategy, done + {r}, order, out.(dropped := out.dropped + 1))
  {
    assert KeptHeads(entries, all, strategy, done + {r}) == KeptHeads(entries, all, strategy, done);
  }

  lemma KeepStep(entries: seq<Entry>, all: set<string>, strategy: Strategy, done: set<nat>, order: seq<nat>,
                 out: Output,
                 r: nat, idMap: IdMap)
    requires Outcome(entries, all, strategy, done, order, out)
    requires r !in done && Kept(entries, all, strategy, r) && Written(entries, order + [r], idMap)
    ensures Outcome(entries, all, strategy, done + {r}, order + [r],
                    Output(out.sources + [Contributors(entries, r)], idMap, out.merged + 1, out.dropped))
  {
    assert KeptHeads(entries, all, strategy, done + {r}) == KeptHeads(entries, all, strategy, done) + {r};
    DistinctStep(order, r, KeptHeads(entries, all, strategy, done));
    SourcesStep(entries, order, r, out.sources);
  }

  lemma DistinctStep(order: seq<nat>, r: nat, kept: set<nat>)
    requires Distinct(order) && Members(order) == kept && r !in kept
    ensures Distinct(order + [r]) && Members(order + [r]) == kept + {r}
  {
    forall k | 0 <= k < |order| ensures order[k] != r {
      assert order[k] in order;
    }
  }

  lemma SourcesStep(entries: seq<Entry>, order: seq<nat>, r: nat, sources: seq<set<string>>)
    requires SourcesOf(entries, order, sources)
    ensures SourcesOf(entries, order + [r], sources + [Contributors(entries, r)])
  {
  }

  method WriteComponents(entries: seq<Entry>, groups: map<nat, seq<nat>>, all: set<string>, strategy: Strategy)
    returns (out: Output, ghost order: seq<nat>)
    requires IsBucketing(|entries|, Identity(entries), groups)
    ensures Outcome(entries, all, strategy, groups.Keys, order, out)
  {
    out := Output([], map[], 0, 0);
    order := [];
    var todo := groups.Keys;
    ghost var done: set<nat> := {};
    assert KeptHeads(entries, all, strategy, done) == {};
    while todo != {}
      invariant todo !! done && groups.Keys == done + todo
      invariant Outcome(entries, all, strategy, done, order, out)
      decreases |todo|
    {
      var r :| r in todo;
      out, order := WriteGroup(entries, groups, all, strategy, r, done, order, out);
      done := done + {r};
      todo := todo - {r};
    }
    assert done == groups.Keys;
  }

  method WriteGroup(entries: seq<Entry>, groups: map<nat, seq<nat>>, all: set<string>, strategy: Strategy, r: nat,
                    ghost done: set<nat>, ghost order: seq<nat>, out: Output)
    returns (out': Output, ghost order': seq<nat>)
    requires IsBucketing(|entries|, Identity(entries), groups) && r in groups && r !in done
    requires Outcome(entries, all, strategy, done, order, out)
    ensures Outcome(entries, all, strategy, done + {r}, order', out')
  {
    var names := NamesIn(entries, groups, r);
    if strategy == Intersect && names != all {
      DropStep(entries, all, strategy, done, order, out, r);
      out', order' := out.(dropped := out.dropped + 1), order;
    } else {
      var cid := out.merged + 1;
      var idMap := FileMembers(entries, groups[r], cid, out.idMap);
      WriteOne(entries, groups, r, order, out.idMap, idMap);
      KeepStep(entries, all, strategy, done, order, out, r, idMap);
      out', order' := Output(out.sources + [names], idMap, cid, out.dropped), order + [r];
    }
  }

  method NamesIn(entries: seq<Entry>, groups: map<nat, seq<nat>>, r: nat) returns (names: set<string>)
    requires IsBucketing(|entries|, Identity(entries), groups) && r in groups
    ensures forall i <- groups[r] :: i < |entries|
    ensures names == Contributors(entries, r)
  {
    forall i: nat ensures i in groups[r] <==> i < |entries| && Chained(Identity(entries), r, i) {
      assert InBucket(groups, r, i) <==> i < |entries| && Chained(Identity(entries), r, i);
    }
    names := set i | i in groups[r] :: entries[i].name;
  }

  // ---- edges --------------------------------------------------------------------------

  type MergedEdge = (string, nat, nat)

  /** The image of an edge, when both ends survived and were not merged into one. */
  ghost predicate MapsTo(name: string, e: Edge, idMap: IdMap, out: MergedEdge) {
    && (name, e.src) in idMap && (name, e.dst) in idMap
    && out == (e.kind, idMap[(name, e.src)], idMap[(name, e.dst)])
    && out.1 != out.2
  }

  ghost predicate ImageOf(inputs: seq<Input>, idMap: IdMap, out: MergedEdge) {
    exists k, m :: 0 <= k < |inputs| && 0 <= m < |inputs[k].edges|
        && MapsTo(inputs[k].name, inputs[k].edges[m], idMap, out)
  }

  /** Edges read so far: every input before k, and m edges of input k. */
  ghost predicate ImageUpTo(inputs: seq<Input>, idMap: IdMap, k: nat, m: nat, out: MergedEdge) {
    exists a, b :: 0 <= a < |inputs| && 0 <= b < |inputs[a].edges| && (a < k || (a == k && b < m))
                   && MapsTo(inputs[a].name, inputs[a].edges[b], idMap, out)
  }

  method RemapEdges(inputs: seq<Input>, idMap: IdMap) returns (edges: seq<MergedEdge>)
    ensures forall e: MergedEdge :: e in edges <==> ImageOf(inputs, idMap, e)
    ensures forall i, j | 0 <= i < j < |edges| :: edges[i] != edges[j]
  {
    edges := [];
    var seen: set<MergedEdge> := {};
    for k := 0 to |inputs|
      invariant forall e :: e in seen <==> e in edges
      invariant forall e: MergedEdge :: e in edges <==> ImageUpTo(inputs, idMap, k, 0, e)
      invariant forall i, j | 0 <= i < j < |edges| :: edges[i] != edges[j]
    {
      var name, es := inputs[k].name, inputs[k].edges;
      for m := 0 to |es|
        invariant forall e :: e in seen <==> e in edges
        invariant forall e: MergedEdge :: e in edges <==> ImageUpTo(inputs, idMap, k, m, e)
        invariant forall i, j | 0 <= i < j < |edges| :: edges[i] != edges[j]
      {
        OneMoreEdge(inputs, idMap, k, m);
        var e := es[m];
        if (name, e.src) in idMap && (name, e.dst) in idMap && idMap[(name, e.src)] != idMap[(name, e.dst)] {
          var key := (e.kind, idMap[(name, e.src)], idMap[(name, e.dst)]);
          if key !in seen {
            seen := seen + {key};
            edges := edges + [key];
          }
        }
      }
      NextInput(inputs, idMap, k);
    }
    forall e: MergedEdge ensures ImageUpTo(inputs, idMap, |inputs|, 0, e) <==> ImageOf(inputs, idMap, e) {}
  }

  lemma OneMoreEdge(inputs: seq<Input>, idMap: IdMap, k: nat, m: nat)
    requires k < |inputs| && m < |inputs[k].edges|
    ensures forall e: MergedEdge :: ImageUpTo(inputs, idMap, k, m + 1, e) <==>
              ImageUpTo(inputs, idMap, k, m, e) || MapsTo(inputs[k].name, inputs[k].edges[m], idMap, e)
  {
  }

  lemma NextInput(inputs: seq<Input>, idMap: IdMap, k: nat)
    requires k < |inputs|
    ensures forall e: MergedEdge :: ImageUpTo(inputs, idMap, k + 1, 0, e) <==>
              ImageUpTo(inputs, idMap, k, |inputs[k].edges|, e)
  {
  }

  // ---- what the merge promises ------------------------------------------------------------

  /** Two surviving entries are filed under one id exactly when identity chains them. */
  ghost predicate Faithful(entries: seq<Entry>, all: set<string>, strategy: Strategy, idMap: IdMap) {
    forall i: nat, j: nat {:trigger FaithfulPair(entries, idMap, i, j)} |
      Survives(entries, all, strategy, i) && Survives(entries, all, strategy, j) :: FaithfulPair(entries, idMap, i, j)
  }

  ghost predicate FaithfulPair(entries: seq<Entry>, idMap: IdMap, i: nat, j: nat)
    requires i < |entries| && j < |entries|
  {
    && entries[i].Slot() in idMap && entries[j].Slot() in idMap
    && (idMap[entries[i].Slot()] == idMap[entries[j].Slot()] <==> Chained(Identity(entries), i, j))
  }

  ghost predicate Survives(entries: seq<Entry>, all: set<string>, strategy: Strategy, i: nat) {
    i < |entries| && Kept(entries, all, strategy, i)
  }

  /** No two surviving classes compete for one (label, id) slot. */
  ghost predicate SlotsAgree(entries: seq<Entry>, all: set<string>, strategy: Strategy) {
    forall i: nat, j: nat {:trigger SlotsClash(entries, i, j)} |
      Survives(entries, all, strategy, i) && Survives(entries, all, strategy, j) :: !SlotsClash(entries, i, j)
  }

  ghost predicate SlotsClash(entries: seq<Entry>, i: nat, j: nat)
    requires i < |entries| && j < |entries|
  {
    entries[i].Slot() == entries[j].Slot() && !Chained(Identity(entries), i, j)
  }

  lemma SameContributors(entries: seq<Entry>, i: nat, j: nat)
    requires Chained(Identity(entries), i, j)
    ensures Contributors(entries, i) == Contributors(entries, j)
  {
    var links := Identity(entries);
    ChainedSym(links, i, j);
    forall k: nat ensures Chained(links, i, k) <==> Chained(links, j, k) {
      if Chained(links, i, k) {
        ChainedTrans(links, j, i, k);
      }
      if Chained(links, j, k) {
        ChainedTrans(links, i, j, k);
      }
    }
  }

  lemma SurvivorFiled(entries: seq<Entry>, all: set<string>, strategy: Strategy, groups: map<nat, seq<nat>>,
                      order: seq<nat>, out: Output, i: nat)
    requires IsBucketing(|entries|, Identity(entries), groups)
    requires Outcome(entries, all, strategy, groups.Keys, order, out) && Survives(entries, all, strategy, i)
    ensures entries[i].Slot() in out.idMap
  {
    assert Placed(groups, i);
    var r: nat :| InBucket(groups, r, i);
    SameContributors(entries, r, i);
    assert r in KeptHeads(entries, all, strategy, groups.Keys);
    assert r in order && InClass(entries, r, i);
  }

  /** Under agreeing slots a survivor's id belongs to the survivor's own class. */
  lemma SurvivorHome(entries: seq<Entry>, all: set<string>, strategy: Strategy, groups: map<nat, seq<nat>>,
                     order: seq<nat>, out: Output, i: nat)
    requires IsBucketing(|entries|, Identity(entries), groups) && SlotsAgree(entries, all, strategy)
    requires Outcome(entries, all, strategy, groups.Keys, order, out) && Survives(entries, all, strategy, i)
    ensures entries[i].Slot() in out.idMap && 1 <= out.idMap[entries[i].Slot()] <= |order|
    ensures Chained(Identity(entries), order[out.idMap[entries[i].Slot()] - 1], i)
    ensures out.sources[out.idMap[entries[i].Slot()] - 1] == Contributors(entries, i)
  {
    var slot := entries[i].Slot();
    SurvivorFiled(entries, all, strategy, groups, order, out, i);
    assert Filed(entries, order, slot, out.idMap[slot]);
    var r := order[out.idMap[slot] - 1];
    var j: nat :| InClass(entries, r, j) && entries[j].Slot() == slot;
    assert r in order;
    assert r in KeptHeads(entries, all, strategy, groups.Keys);
    SlotMates(entries, all, strategy, r, j, i);
  }

  lemma SlotMates(entries: seq<Entry>, all: set<string>, strategy: Strategy, r: nat, j: nat, i: nat)
    requires SlotsAgree(entries, all, strategy) && Kept(entries, all, strategy, r)
    requires InClass(entries, r, j) && Survives(entries, all, strategy, i) && entries[i].Slot() == entries[j].Slot()
    ensures Chained(Identity(entries), r, i) && Contributors(entries, r) == Contributors(entries, i)
  {
    SameContributors(entries, r, j);
    assert Survives(entries, all, strategy, j);
    assert !SlotsClash(entries, j, i);
    ChainedTrans(Identity(entries), r, j, i);
    SameContributors(entries, r, i);
  }

  lemma HeadsApart(entries: seq<Entry>, groups: map<nat, seq<nat>>, r: nat, s: nat)
    requires IsBucketing(|entries|, Identity(entries), groups) && r in groups && s in groups
    requires Chained(Identity(entries), r, s)
    ensures r == s
  {
    HeadsAreBuckets(entries, groups);
    assert IsHead(entries, r) && IsHead(entries, s);
    ChainedSym(Identity(entries), r, s);
  }

  /** The id map is faithful exactly when no two surviving classes share a slot. */
  lemma FaithfulIff(entries: seq<Entry>, all: set<string>, strategy: Strategy, groups: map<nat, seq<nat>>,
                    order: seq<nat>, out: Output)
    requires IsBucketing(|entries|, Identity(entries), groups)
    requires Outcome(entries, all, strategy, groups.Keys, order, out)
    ensures Faithful(entries, all, strategy, out.idMap) <==> SlotsAgree(entries, all, strategy)
  {
    if SlotsAgree(entries, all, strategy) {
      forall i: nat, j: nat | Survives(entries, all, strategy, i) && Survives(entries, all, strategy, j)
        ensures FaithfulPair(entries, out.idMap, i, j)
      {
        SurvivorPair(entries, all, strategy, groups, order, out, i, j);
      }
    }
    if Faithful(entries, all, strategy, out.idMap) {
      forall i: nat, j: nat | Survives(entries, all, strategy, i) && Survives(entries, all, strategy, j)
        ensures !SlotsClash(entries, i, j)
      {
        assert FaithfulPair(entries, out.idMap, i, j);
      }
    }
  }

  lemma SurvivorPair(entries: seq<Entry>, all: set<string>, strategy: Strategy, groups: map<nat, seq<nat>>,
                     order: seq<nat>, out: Output, i: nat, j: nat)
    requires IsBucketing(|entries|, Identity(entries), groups) && SlotsAgree(entries, all, strategy)
    requires Outcome(entries, all, strategy, groups.Keys, order, out)
    requires Survives(entries, all, strategy, i) && Survives(entries, all, strategy, j)
    ensures FaithfulPair(entries, out.idMap, i, j)
  {
    SurvivorHome(entries, all, strategy, groups, order, out, i);
    SurvivorHome(entries, all, strategy, groups, order, out, j);
    var a, b := out.idMap[entries[i].Slot()] - 1, out.idMap[entries[j].Slot()] - 1;
    assert order[a] in Members(order) && order[b] in Members(order);
    SameHome(entries, groups, order, a, b, i, j);
  }

  lemma SameHome(entries: seq<Entry>, groups: map<nat, seq<nat>>, order: seq<nat>, a: nat, b: nat, i: nat, j: nat)
    requires IsBucketing(|entries|, Identity(entries), groups) && Distinct(order) && a < |order| && b < |order|
    requires order[a] in groups && order[b] in groups
    requires Chained(Identity(entries), order[a], i) && Chained(Identity(entries), order[b], j)
    ensures a == b <==> Chained(Identity(entries), i, j)
  {
    var links := Identity(entries);
    ChainedSym(links, order[a], i);
    ChainedSym(links, order[b], j);
    if a == b {
      ChainedTrans(links, i, order[a], j);
    }
    if Chained(links, i, j) {
      ChainedTrans(links, order[a], i, j);
      ChainedTrans(links, order[a], j, order[b]);
      HeadsApart(entries, groups, order[a], order[b]);
    }
  }

  ghost predicate DistinctInputs(inputs: seq<Input>) {
    && (forall k, m | 0 <= k < m < |inputs| :: inputs[k].name != inputs[m].name)
    && forall k | 0 <= k < |inputs| :: DistinctIds(inputs[k].components)
  }

  ghost predicate DistinctIds(cs: seq<Component>) {
    forall k, m | 0 <= k < m < |cs| :: cs[k].id != cs[m].id
  }

  ghost predicate DistinctSlots(entries: seq<Entry>) {
    forall i, j | 0 <= i < j < |entries| :: entries[i].Slot() != entries[j].Slot()
  }

  lemma {:induction false} TakenDistinct(name: string, cs: seq<Component>)
    requires DistinctIds(cs)
    ensures DistinctSlots(Taken(name, cs))
    ensures forall e <- Taken(name, cs) :: e.name == name && exists c :: c in cs && c.id == e.id
  {
    if cs == [] {
    } else {
      var rest := cs[..|cs| - 1];
      TakenDistinct(name, rest);
      forall e <- Taken(name, rest) ensures e.id != cs[|cs| - 1].id {
        var c :| c in rest && c.id == e.id;
      }
      forall e <- Taken(name, cs) ensures e.name == name && exists c :: c in cs && c.id == e.id {
        if e in Taken(name, rest) {
          var c :| c in rest && c.id == e.id;
          assert c in cs;
        } else {
          assert cs[|cs| - 1] in cs;
        }
      }
    }
  }

  lemma {:induction false} EntriesDistinct(inputs: seq<Input>)
    requires DistinctInputs(inputs)
    ensures DistinctSlots(Entries(inputs))
    ensures forall e <- Entries(inputs) :: exists k :: 0 <= k < |inputs| && inputs[k].name == e.name
  {
    if inputs == [] {
    } else {
      var rest, last := inputs[..|inputs| - 1], inputs[|inputs| - 1];
      EntriesDistinct(rest);
      TakenDistinct(last.name, last.components);
      forall e <- Entries(rest) ensures e.name != last.name {
        var k :| 0 <= k < |rest| && rest[k].name == e.name;
      }
      forall e <- Entries(inputs) ensures exists k :: 0 <= k < |inputs| && inputs[k].name == e.name {
        if e in Entries(rest) {
          var k :| 0 <= k < |rest| && rest[k].name == e.name;
          assert inputs[k].name == e.name;
        }
      }
    }
  }

  /** Distinct labels, and distinct ids within each input, keep every slot to one class. */
  lemma {:induction false} DistinctInputsAgree(inputs: seq<Input>, all: set<string>, strategy: Strategy)
    requires DistinctInputs(inputs)
    ensures SlotsAgree(Entries(inputs), all, strategy)
  {
    EntriesDistinct(inputs);
    var entries := Entries(inputs);
    forall i: nat, j: nat | i < |entries| && j < |entries| ensures !SlotsClash(entries, i, j) {
      ChainedSelf(Identity(entries), i);
    }
  }

  /** The failing input: two inputs of one label, with different components of one id. */
  const SAME_LABEL: seq<Input> :=
    [Input("a", [Component(1, false, ["x"])], []), Input("a", [Component(1, false, ["y"])], [])]

  lemma SameLabelEntries()
    ensures Entries(SAME_LABEL) == [Entry("a", 1, ["x"]), Entry("a", 1, ["y"])]
  {
    var first, second := SAME_LABEL[0], SAME_LABEL[1];
    assert SAME_LABEL[..1] == [first] && [first][..0] == [];
    assert first.components[..0] == [] && second.components[..0] == [];
    assert Entries([first]) == [Entry("a", 1, ["x"])];
  }

  lemma {:induction false} SameLabelWalk(path: seq<nat>, y: nat)
    requires IsWalk(Identity(Entries(SAME_LABEL)), 0, path, y)
    ensures y == 0
    decreases |path|
  {
    if path == [] {
    } else {
      SameLabelEntries();
      assert KeysOf(Entries(SAME_LABEL))[0] == ["x"] && KeysOf(Entries(SAME_LABEL))[1] == ["y"];
      assert path[0] == 0;
      SameLabelWalk(path[1..], y);
    }
  }

  lemma SameLabelClashes(all: set<string>)
    ensures !SlotsAgree(Entries(SAME_LABEL), all, Union)
  {
    SameLabelEntries();
    var entries := Entries(SAME_LABEL);
    if Chained(Identity(entries), 0, 1) {
      var path :| IsWalk(Identity(entries), 0, path, 1);
      SameLabelWalk(path, 1);
    }
    assert SlotsClash(entries, 0, 1);
  }

  function Names(inputs: seq<Input>): set<string> {
    set input <- inputs :: input.name
  }

  /** Every survivor's component lists exactly the inputs that contribute to its class. */
  ghost predicate Provenance(entries: seq<Entry>, all: set<string>, strategy: Strategy, out: Output) {
    forall i: nat | Survives(entries, all, strategy, i) :: SourcesRight(entries, out, i)
  }

  ghost predicate SourcesRight(entries: seq<Entry>, out: Output, i: nat)
    requires i < |entries|
  {
    var slot := entries[i].Slot();
    && slot in out.idMap && 1 <= out.idMap[slot] <= |out.sources|
    && out.sources[out.idMap[slot] - 1] == Contributors(entries, i)
  }

  lemma SlotsGiveProvenance(entries: seq<Entry>, all: set<string>, strategy: Strategy, groups: map<nat, seq<nat>>,
                            order: seq<nat>, out: Output)
    requires IsBucketing(|entries|, Identity(entries), groups) && SlotsAgree(entries, all, strategy)
    requires Outcome(entries, all, strategy, groups.Keys, order, out)
    ensures Provenance(entries, all, strategy, out)
  {
    forall i: nat | Survives(entries, all, strategy, i) ensures SourcesRight(entries, out, i) {
      SurvivorHome(entries, all, strategy, groups, order, out, i);
    }
  }

  /** Exactly the slots of survivors are filed: what is dropped has no id, and so no edges. */
  ghost predicate FilesSurvivors(entries: seq<Entry>, all: set<string>, strategy: Strategy, idMap: IdMap) {
    forall slot {:trigger slot in idMap} :: slot in idMap <==> HasSurvivor(entries, all, strategy, slot)
  }

  ghost predicate HasSurvivor(entries: seq<Entry>, all: set<string>, strategy: Strategy, slot: (string, nat)) {
    exists i: nat :: Survives(entries, all, strategy, i) && entries[i].Slot() == slot
  }

  lemma OnlySurvivorsFiled(entries: seq<Entry>, all: set<string>, strategy: Strategy, groups: map<nat, seq<nat>>,
                           order: seq<nat>, out: Output)
    requires IsBucketing(|entries|, Identity(entries), groups)
    requires Outcome(entries, all, strategy, groups.Keys, order, out)
    ensures FilesSurvivors(entries, all, strategy, out.idMap)
  {
    forall slot ensures slot in out.idMap <==> HasSurvivor(entries, all, strategy, slot) {
      if slot in out.idMap {
        assert Filed(entries, order, slot, out.idMap[slot]);
        var r := order[out.idMap[slot] - 1];
        var i: nat :| InClass(entries, r, i) && entries[i].Slot() == slot;
        assert r in Members(order);
        SameContributors(entries, r, i);
        assert Survives(entries, all, strategy, i);
      }
      if i: nat :| Survives(entries, all, strategy, i) && entries[i].Slot() == slot {
        SurvivorFiled(entries, all, strategy, groups, order, out, i);
      }
    }
  }

  /** With distinct inputs an entry is filed exactly when it survives. */
  lemma {:induction false} DistinctFiled(inputs: seq<Input>, all: set<string>, strategy: Strategy, idMap: IdMap, i: nat)
    requires DistinctInputs(inputs) && FilesSurvivors(Entries(inputs), all, strategy, idMap) && i < |Entries(inputs)|
    ensures Entries(inputs)[i].Slot() in idMap <==> Survives(Entries(inputs), all, strategy, i)
  {
    EntriesDistinct(inputs);
    var entries := Entries(inputs);
    if entries[i].Slot() in idMap {
      var j: nat :| Survives(entries, all, strategy, j) && entries[j].Slot() == entries[i].Slot();
      assert j == i;
    }
  }

  method MergeEntries(entries: seq<Entry>, all: set<string>, strategy: Strategy) returns (out: Output)
    ensures out.merged + out.dropped == |ClassHeads(entries)| && |out.sources| == out.merged
    ensures out.merged == |KeptHeads(entries, all, strategy, ClassHeads(entries))|
    ensures Faithful(entries, all, strategy, out.idMap) <==> SlotsAgree(entries, all, strategy)
    ensures SlotsAgree(entries, all, strategy) ==> Provenance(entries, all, strategy, out)
    ensures FilesSurvivors(entries, all, strategy, out.idMap)
  {
    var groups := Group(entries);
    HeadsAreBuckets(entries, groups);
    ghost var order;
    out, order := WriteComponents(entries, groups, all, strategy);
    OrderCounts(order);
    OnlySurvivorsFiled(entries, all, strategy, groups, order, out);
    FaithfulIff(entries, all, strategy, groups, order, out);
    if SlotsAgree(entries, all, strategy) {
      SlotsGiveProvenance(entries, all, strategy, groups, order, out);
    }
  }

  method Merge(inputs: seq<Input>, strategy: Strategy) returns (out: Output, edges: seq<MergedEdge>)
    ensures out.merged + out.dropped == |ClassHeads(Entries(inputs))| && |out.sources| == out.merged
    ensures out.merged == |KeptHeads(Entries(inputs), Names(inputs), strategy, ClassHeads(Entries(inputs)))|
    ensures Faithful(Entries(inputs), Names(inputs), strategy, out.idMap)
            <==> SlotsAgree(Entries(inputs), Names(inputs), strategy)
    ensures DistinctInputs(inputs) ==> Faithful(Entries(inputs), Names(inputs), strategy, out.idMap)
    ensures DistinctInputs(inputs) ==> Provenance(Entries(inputs), Names(inputs), strategy, out)
    ensures FilesSurvivors(Entries(inputs), Names(inputs), strategy, out.idMap)
    ensures DistinctInputs(inputs) ==> forall i: nat | i < |Entries(inputs)| ::
              Entries(inputs)[i].Slot() in out.idMap <==> Survives(Entries(inputs), Names(inputs), strategy, i)
    ensures forall e: MergedEdge :: e in edges <==> ImageOf(inputs, out.idMap, e)
    ensures forall i, j | 0 <= i < j < |edges| :: edges[i] != edges[j]
  {
    var entries := Gather(inputs);
    out := MergeEntries(entries, Names(inputs), strategy);
    if DistinctInputs(inputs) {
      DistinctInputsAgree(inputs, Names(inputs), strategy);
      forall i: nat | i < |Entries(inputs)|
        ensures Entries(inputs)[i].Slot() in out.idMap <==> Survives(Entries(inputs), Names(inputs), strategy, i)
      {
        DistinctFiled(inputs, Names(inputs), strategy, out.idMap, i);
      }
    }
    edges := RemapEdges(inputs, out.idMap);
  }

  lemma {:induction false} OrderCounts(order: seq<nat>)
    requires Distinct(order)
    ensures |Members(order)| == |order|
  {
    if order == [] {
    } else {
      var rest, last := order[..|order| - 1], order[|order| - 1];
      OrderCounts(rest);
      assert order == rest + [last];
      assert last !in rest;
      assert Members(order) == Members(rest) + {last};
    }
  }
}
