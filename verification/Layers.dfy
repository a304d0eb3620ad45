// Squashing container layers.
module Layers {
  // Whiteouts, the transition log, and time travel.

  // ---- paths --------------------------------------------------------------------------

  /** `s.rfind("/")`, or -1. */
  function LastSlash(s: string): (k: int)
    ensures -1 <= k < |s|
  {
    if s == "" then -1 else if s[|s| - 1] == '/' then |s| - 1 else LastSlash(s[..|s| - 1])
  }

  function Basename(p: string): string {
    p[LastSlash(p) + 1..]
  }

  function TrimSlashes(s: string): string {
    if s == "" || s[|s| - 1] != '/' then s else TrimSlashes(s[..|s| - 1])
  }

  /** The directory part, without trailing slashes unless it is nothing but slashes. */
  function Dirname(p: string): string {
    var head := p[..LastSlash(p) + 1];
    if TrimSlashes(head) == "" then head else TrimSlashes(head)
  }

  /** `posixpath.join(a, b)` for a `b` without slashes. */
  function Join(a: string, b: string): string {
    if a == "" || a[|a| - 1] == '/' then a + b else a + "/" + b
  }

  // ---- layers -------------------------------------------------------------------------

  const WHITEOUT_PREFIX := ".wh."
  const OPAQUE_MARKER := ".wh..wh..opq"

  datatype Layer = Layer(digest: string, members: seq<Kind>)

  datatype Kind = Opaque(dir: string) | Whiteout(target: string) | Regular(path: string)

  function KindOf(path: string): Kind {
    var base, parent := Basename(path), Dirname(path);
    if base == OPAQUE_MARKER then Opaque(parent)
    else if WHITEOUT_PREFIX <= base then Whiteout(Join(parent, base[|WHITEOUT_PREFIX|..]))
    else Regular(path)
  }

  /** Does a marker hide a lower-layer path? */
  predicate Covers(kind: Kind, p: string) {
    match kind
    case Opaque(dir) => (if dir == "" then "" else dir + "/") <= p
    case Whiteout(target) => p == target || target + "/" <= p
    case Regular(_) => false
  }

  predicate Writes(layer: Layer, p: string) {
    Regular(p) in layer.members
  }

  predicate Hides(layer: Layer, p: string) {
    exists m <- layer.members :: Covers(m, p)
  }

  /** Some opaque directory of the layer covers the path. */
  predicate Clears(layer: Layer, p: string) {
    exists m <- layer.members :: m.Opaque? && Covers(m, p)
  }

  // ---- what the merged view is meant to be ----------------------------------------------

  /** Of the first n layers, layer k owns p: it is the last to write p, and no later layer
      hides p. Its own markers do not matter. */
  ghost predicate Owns(layers: seq<Layer>, n: nat, p: string, k: nat) {
    && k < n <= |layers| && Writes(layers[k], p)
    && forall j | k < j < n :: !Writes(layers[j], p) && !Hides(layers[j], p)
  }

  type Owners = map<string, nat>

  ghost predicate IsOverlay(layers: seq<Layer>, n: nat, owners: Owners) {
    forall p, k: nat {:trigger Owns(layers, n, p, k)} :: p in owners && owners[p] == k <==> Owns(layers, n, p, k)
  }

  lemma OwnsStep(layers: seq<Layer>, n: nat, p: string, k: nat)
    requires n < |layers|
    ensures Owns(layers, n + 1, p, k) <==>
            if Writes(layers[n], p) then k == n else !Hides(layers[n], p) && Owns(layers, n, p, k)
  {
  }

  /** What the first n layers own is what a stack of those layers alone owns. */
  lemma PrefixOverlay(layers: seq<Layer>, n: nat, owners: Owners)
    requires n <= |layers|
    ensures IsOverlay(layers, n, owners) <==> IsOverlay(layers[..n], n, owners)
  {
    forall p, k: nat ensures Owns(layers, n, p, k) <==> Owns(layers[..n], n, p, k) {}
  }

  // ---- the log --------------------------------------------------------------------------

  datatype State = Added | Modified | Removed | OpaqueCleared

  datatype Transition = Transition(path: string, ordinal: nat, digest: string, state: State) {
    predicate IsWrite() {
      state == Added || state == Modified
    }
  }

  type Log = seq<Transition>

  function Apply(visible: Owners, t: Transition): Owners {
    if t.IsWrite() then visible[t.path := t.ordinal] else visible - {t.path}
  }

  function Replay(log: Log): Owners {
    if log == [] then map[] else Apply(Replay(log[..|log| - 1]), log[|log| - 1])
  }

  /** The entries before the first one beyond layer k. */
  function Upto(log: Log, k: int): Log {
    if log == [] || log[0].ordinal > k then [] else [log[0]] + Upto(log[1..], k)
  }

  /** `max` of the ordinals that wrote the path, 0 when none did. */
  function LastWrite(log: Log, p: string): nat {
    if log == [] then 0
    else
      var t, before := log[|log| - 1], LastWrite(log[..|log| - 1], p);
      if t.path == p && t.IsWrite() && t.ordinal > before then t.ordinal else before
  }

  type Gone = map<string, (nat, nat)>

  /** The (last write, removal) pair of every removal, later ones replacing earlier ones. */
  function RemovedOf(log: Log): Gone {
    if log == [] then map[]
    else
      var t, before := log[|log| - 1], log[..|log| - 1];
      if t.IsWrite() then RemovedOf(before)
      else RemovedOf(before)[t.path := (LastWrite(before, t.path), t.ordinal)]
  }

  /** Entry t may follow `before`: a write is `modified` exactly when its path is visible, and
      only a visible path can go. */
  predicate Fits(before: Log, t: Transition) {
    && (before != [] ==> before[|before| - 1].ordinal <= t.ordinal)
    && (t.path in Replay(before) <==> t.state != Added)
  }

  predicate Honest(log: Log) {
    log == [] || (Honest(log[..|log| - 1]) && Fits(log[..|log| - 1], log[|log| - 1]))
  }

  lemma {:induction false} Snoc(log: Log, t: Transition)
    ensures Replay(log + [t]) == Apply(Replay(log), t)
    ensures Honest(log + [t]) <==> Honest(log) && Fits(log, t)
    ensures RemovedOf(log + [t]) == if t.IsWrite() then RemovedOf(log)
                                    else RemovedOf(log)[t.path := (LastWrite(log, t.path), t.ordinal)]
  {
    assert (log + [t])[..|log|] == log;
  }

  lemma {:induction false} LastWriteBounded(log: Log, p: string)
    requires Honest(log) && log != []
    ensures LastWrite(log, p) <= log[|log| - 1].ordinal
  {
    if |log| > 1 {
      LastWriteBounded(log[..|log| - 1], p);
    }
  }

  /** A visible path is owned by its last writer, so the maximum over the log finds it. */
  lemma {:induction false} LastWriteIsOwner(log: Log, p: string)
    requires Honest(log) && p in Replay(log)
    ensures LastWrite(log, p) == Replay(log)[p]
  {
    var before, t := log[..|log| - 1], log[|log| - 1];
    if t.path == p {
      if before != [] {
        LastWriteBounded(before, p);
      }
    } else {
      LastWriteIsOwner(before, p);
    }
  }

  lemma {:induction false} UptoAppend(log: Log, more: Log, k: int)
    requires forall t <- more :: t.ordinal > k
    ensures Upto(log + more, k) == Upto(log, k)
    decreases |log|
  {
    if log == [] {
      assert log + more == more;
      assert more != [] ==> more[0] in more;
    } else {
      assert (log + more)[1..] == log[1..] + more;
      UptoAppend(log[1..], more, k);
    }
  }

  lemma {:induction false} UptoAll(log: Log, k: int)
    requires forall t <- log :: t.ordinal <= k
    ensures Upto(log, k) == log
  {
    if log == [] {
    } else {
      UptoAll(log[1..], k);
    }
  }

  /** The replay, which stops at the first transition past the ordinal. */
  method ReplayUpto(log: Log, upto: int) returns (visible: Owners)
    ensures visible == Replay(Upto(log, upto))
  {
    visible := map[];
    var i := 0;
    while i < |log| && log[i].ordinal <= upto
      invariant 0 <= i <= |log|
      invariant Upto(log, upto) == log[..i] + Upto(log[i..], upto)
      invariant visible == Replay(log[..i])
    {
      UptoStep(log, i, upto);
      visible := Apply(visible, log[i]);
      i := i + 1;
    }
    assert Upto(log, upto) == log[..i];
  }

  // ---- the log of a stack -----------------------------------------------------------------

  function PathsOf(log: Log): set<string> {
    set t <- log :: t.path
  }

  /** The paths of the entries, in order. */
  function Listing(log: Log): seq<string> {
    seq(|log|, i requires 0 <= i < |log| => log[i].path)
  }

  /** The files among a layer's members, in order. */
  function Files(members: seq<Kind>): seq<string> {
    if members == [] then []
    else
      var last := members[|members| - 1];
      Files(members[..|members| - 1]) + if last.Regular? then [last.path] else []
  }

  function PathsIn(log: Log, state: State): set<string> {
    set t <- log | t.state == state :: t.path
  }

  /** What layer k adds to the log: first its markers clear or remove exactly the visible paths
      they cover, opaque directories claiming theirs first, then exactly its files are written, in
      archive order. */
  ghost predicate IsLayerLog(layer: Layer, k: nat, before: Owners, gone: Log, writes: Log) {
    && (forall t <- gone :: t.ordinal == k && t.digest == layer.digest && !t.IsWrite())
    && (forall t <- writes :: t.ordinal == k && t.digest == layer.digest && t.IsWrite())
    && PathsIn(gone, OpaqueCleared) == (set p | p in before && Clears(layer, p))
    && PathsIn(gone, Removed) == (set p | p in before && Hides(layer, p) && !Clears(layer, p))
    && (forall p :: p in PathsOf(writes) <==> Writes(layer, p))
    && Listing(writes) == Files(layer.members)
  }

  ghost predicate IsLog(layers: seq<Layer>, n: nat, log: Log)
    requires n <= |layers|
  {
    if n == 0 then log == []
    else exists early, gone, writes :: NextLog(layers, n, log, early, gone, writes) && IsLog(layers, n - 1, early)
  }

  /** The log is `early` followed by what layer n - 1 adds. */
  ghost predicate NextLog(layers: seq<Layer>, n: nat, log: Log, early: Log, gone: Log, writes: Log)
    requires 0 < n <= |layers|
  {
    log == early + gone + writes && IsLayerLog(layers[n - 1], n - 1, Replay(early), gone, writes)
  }

  lemma {:induction false} ReplayGone(log: Log, gone: Log)
    requires forall t <- gone :: !t.IsWrite()
    ensures Replay(log + gone) == Replay(log) - PathsOf(gone)
    decreases |gone|
  {
    if gone == [] {
      assert log + gone == log;
    } else {
      var rest, t := gone[..|gone| - 1], gone[|gone| - 1];
      ReplayGone(log, rest);
      assert log + gone == (log + rest) + [t] && gone == rest + [t];
      Snoc(log + rest, t);
      DropOne(Replay(log), rest, t);
    }
  }

  lemma DropOne(owners: Owners, rest: Log, t: Transition)
    ensures owners - PathsOf(rest) - {t.path} == owners - PathsOf(rest + [t])
  {
    assert PathsOf(rest + [t]) == PathsOf(rest) + {t.path};
  }

  function Painted(owners: Owners, paths: set<string>, k: nat): Owners {
    map p | p in owners.Keys + paths :: if p in paths then k else owners[p]
  }

  lemma {:induction false} ReplayWrites(log: Log, writes: Log, k: nat)
    requires forall t <- writes :: t.IsWrite() && t.ordinal == k
    ensures Replay(log + writes) == Painted(Replay(log), PathsOf(writes), k)
    decreases |writes|
  {
    if writes == [] {
      assert log + writes == log;
    } else {
      var rest, t := writes[..|writes| - 1], writes[|writes| - 1];
      ReplayWrites(log, rest, k);
      ReplayWriteOne(log, rest, t, k);
      assert writes == rest + [t];
    }
  }

  lemma {:induction false} ReplayWriteOne(log: Log, rest: Log, t: Transition, k: nat)
    requires Replay(log + rest) == Painted(Replay(log), PathsOf(rest), k) && t.IsWrite() && t.ordinal == k
    ensures Replay(log + (rest + [t])) == Painted(Replay(log), PathsOf(rest + [t]), k)
  {
    assert log + (rest + [t]) == (log + rest) + [t];
    Snoc(log + rest, t);
    PaintOne(Replay(log), rest, t, k);
  }

  lemma PaintOne(owners: Owners, rest: Log, t: Transition, k: nat)
    ensures Painted(owners, PathsOf(rest), k)[t.path := k] == Painted(owners, PathsOf(rest + [t]), k)
  {
    assert PathsOf(rest + [t]) == PathsOf(rest) + {t.path};
  }

  lemma GonePaths(layer: Layer, k: nat, before: Owners, gone: Log, writes: Log)
    requires IsLayerLog(layer, k, before, gone, writes)
    ensures PathsOf(gone) == set p | p in before && Hides(layer, p)
  {
    assert PathsOf(gone) == PathsIn(gone, OpaqueCleared) + PathsIn(gone, Removed);
    forall p | Clears(layer, p) ensures Hides(layer, p) {}
  }

  /** One layer's entries turn the overlay of the layers below into the overlay with it. */
  lemma {:induction false} LayerOverlay(layers: seq<Layer>, k: nat, log: Log, gone: Log, writes: Log)
    requires k < |layers| && IsOverlay(layers, k, Replay(log))
    requires IsLayerLog(layers[k], k, Replay(log), gone, writes)
    ensures IsOverlay(layers, k + 1, Replay(log + gone + writes))
  {
    var before, after := Replay(log), Replay(log + gone + writes);
    ReplayGone(log, gone);
    ReplayWrites(log + gone, writes, k);
    GonePaths(layers[k], k, before, gone, writes);
    forall p, j: nat {:trigger Owns(layers, k + 1, p, j)}
      ensures p in after && after[p] == j <==> Owns(layers, k + 1, p, j)
    {
      OwnsStep(layers, k, p, j);
    }
  }

  lemma {:induction false} LogOrdinals(layers: seq<Layer>, n: nat, log: Log)
    requires n <= |layers| && IsLog(layers, n, log)
    ensures forall t <- log :: t.ordinal < n
  {
    if n == 0 {
    } else {
      var early, gone, writes :| NextLog(layers, n, log, early, gone, writes) && IsLog(layers, n - 1, early);
      LogOrdinals(layers, n - 1, early);
      forall t | t in log ensures t.ordinal < n {
        assert t in early || t in gone || t in writes;
      }
    }
  }

  /** The view the log leaves is the overlay of all its layers. */
  lemma {:induction false} LogOverlay(layers: seq<Layer>, n: nat, log: Log)
    requires n <= |layers| && IsLog(layers, n, log)
    ensures IsOverlay(layers, n, Replay(log))
  {
    if n == 0 {
    } else {
      var early, gone, writes :| NextLog(layers, n, log, early, gone, writes) && IsLog(layers, n - 1, early);
      LogOverlay(layers, n - 1, early);
      LayerOverlay(layers, n - 1, early, gone, writes);
    }
  }

  /** Time travel: replaying the entries up to layer k gives the overlay of layers 0..k alone. */
  lemma {:induction false} TimeTravel(layers: seq<Layer>, n: nat, log: Log, k: nat)
    requires n <= |layers| && IsLog(layers, n, log) && k < n
    ensures IsOverlay(layers, k + 1, Replay(Upto(log, k)))
  {
    if k == n - 1 {
      LogOverlay(layers, n, log);
      LogOrdinals(layers, n, log);
      UptoAll(log, k);
    } else {
      var early, gone, writes :| NextLog(layers, n, log, early, gone, writes) && IsLog(layers, n - 1, early);
      UptoEarly(layers, n, log, early, gone, writes, k);
      TimeTravel(layers, n - 1, early, k);
    }
  }

  lemma {:induction false} UptoEarly(layers: seq<Layer>, n: nat, log: Log, early: Log, gone: Log, writes: Log, k: nat)
    requires k + 1 < n <= |layers| && NextLog(layers, n, log, early, gone, writes)
    ensures Upto(log, k) == Upto(early, k)
  {
    assert log == early + (gone + writes);
    forall t | t in gone + writes ensures t.ordinal > k {
      assert t in gone || t in writes;
    }
    UptoAppend(early, gone + writes, k);
  }

  // ---- removals -----------------------------------------------------------------------------

  /** Layer r takes p away from the layer w that owned it until then. */
  ghost predicate Takes(layers: seq<Layer>, r: nat, p: string, w: nat) {
    r < |layers| && Hides(layers[r], p) && Owns(layers, r, p, w)
  }

  /** The last removal of p among the first n layers, with the writer it took p from. */
  ghost predicate LastTaken(layers: seq<Layer>, n: nat, p: string, w: nat, r: nat) {
    && r < n <= |layers| && Takes(layers, r, p, w)
    && forall j: nat, v: nat | r < j < n :: !Takes(layers, j, p, v)
  }

  function Marked(removed: Gone, owners: Owners, paths: set<string>, k: nat): Gone
    requires paths <= owners.Keys
  {
    map p | p in removed.Keys + paths :: if p in paths then (owners[p], k) else removed[p]
  }

  lemma {:induction false} LastGone(log: Log, rest: Log, t: Transition)
    requires Honest(log + rest) && Fits(log + rest, t) && !t.IsWrite() && forall u <- rest :: !u.IsWrite()
    ensures t.path in Replay(log) && LastWrite(log + rest, t.path) == Replay(log)[t.path]
  {
    ReplayGone(log, rest);
    LastWriteIsOwner(log + rest, t.path);
  }

  lemma {:induction false} RemovedThroughGone(log: Log, gone: Log, k: nat)
    requires Honest(log + gone) && forall t <- gone :: !t.IsWrite() && t.ordinal == k
    ensures PathsOf(gone) <= Replay(log).Keys
    ensures RemovedOf(log + gone) == Marked(RemovedOf(log), Replay(log), PathsOf(gone), k)
    decreases |gone|
  {
    if gone == [] {
      assert log + gone == log;
    } else {
      var rest, t := gone[..|gone| - 1], gone[|gone| - 1];
      assert log + gone == (log + rest) + [t] && gone == rest + [t];
      Snoc(log + rest, t);
      RemovedThroughGone(log, rest, k);
      LastGone(log, rest, t);
      MarkOne(RemovedOf(log), Replay(log), rest, t, k);
    }
  }

  lemma MarkOne(removed: Gone, owners: Owners, rest: Log, t: Transition, k: nat)
    requires PathsOf(rest) <= owners.Keys && t.path in owners
    ensures PathsOf(rest + [t]) <= owners.Keys
    ensures Marked(removed, owners, PathsOf(rest), k)[t.path := (owners[t.path], k)]
         == Marked(removed, owners, PathsOf(rest + [t]), k)
  {
    assert PathsOf(rest + [t]) == PathsOf(rest) + {t.path};
  }

  lemma {:induction false} RemovedThroughWrites(log: Log, writes: Log)
    requires forall t <- writes :: t.IsWrite()
    ensures RemovedOf(log + writes) == RemovedOf(log)
    decreases |writes|
  {
    if writes == [] {
      assert log + writes == log;
    } else {
      var rest, t := writes[..|writes| - 1], writes[|writes| - 1];
      assert log + writes == (log + rest) + [t] && writes == rest + [t];
      Snoc(log + rest, t);
      RemovedThroughWrites(log, rest);
    }
  }

  lemma {:induction false} HonestPrefix(log: Log, more: Log)
    requires Honest(log + more)
    ensures Honest(log)
    decreases |more|
  {
    if more == [] {
      assert log + more == log;
    } else {
      assert (log + more)[..|log + more| - 1] == log + more[..|more| - 1];
      HonestPrefix(log, more[..|more| - 1]);
    }
  }

  ghost predicate NeverTaken(layers: seq<Layer>, n: nat, p: string) {
    forall j: nat, v: nat | j < n :: !Takes(layers, j, p, v)
  }

  /** `removed` says about p what the first n layers did to it. */
  ghost predicate RemovalRight(layers: seq<Layer>, n: nat, p: string, removed: Gone) {
    if p in removed then LastTaken(layers, n, p, removed[p].0, removed[p].1) else NeverTaken(layers, n, p)
  }

  /** Layer k's effect on what `removed` says about p. */
  ghost predicate RemovalStep(layers: seq<Layer>, k: nat, p: string, before: Gone, after: Gone) {
    || (p in after && after[p].1 == k && Takes(layers, k, p, after[p].0))
    || ((p in after <==> p in before) && (p in before ==> after[p] == before[p])
        && forall v: nat :: !Takes(layers, k, p, v))
  }

  lemma {:induction false} LayerRemovals(layers: seq<Layer>, k: nat, log: Log, gone: Log, writes: Log, p: string)
    requires k < |layers| && IsOverlay(layers, k, Replay(log)) && Honest(log + gone + writes)
    requires IsLayerLog(layers[k], k, Replay(log), gone, writes)
    ensures RemovalStep(layers, k, p, RemovedOf(log), RemovedOf(log + gone + writes))
  {
    HonestPrefix(log + gone, writes);
    RemovedThroughGone(log, gone, k);
    RemovedThroughWrites(log + gone, writes);
    GonePaths(layers[k], k, Replay(log), gone, writes);
    if p in Replay(log) {
      assert Owns(layers, k, p, Replay(log)[p]);
    }
  }

  lemma RemovalNext(layers: seq<Layer>, k: nat, p: string, before: Gone, after: Gone)
    requires k < |layers| && RemovalRight(layers, k, p, before) && RemovalStep(layers, k, p, before, after)
    ensures RemovalRight(layers, k + 1, p, after)
  {
  }

  /** `removed[p]` is the last removal of p and the writer it was taken from; a path without
      an entry was never taken. */
  lemma {:induction false} RemovedMeans(layers: seq<Layer>, n: nat, log: Log, p: string)
    requires n <= |layers| && IsLog(layers, n, log) && Honest(log)
    ensures RemovalRight(layers, n, p, RemovedOf(log))
  {
    if n == 0 {
    } else {
      var early, gone, writes :| NextLog(layers, n, log, early, gone, writes) && IsLog(layers, n - 1, early);
      HonestPrefix(early + gone, writes);
      HonestPrefix(early, gone);
      RemovedMeans(layers, n - 1, early, p);
      RemovedNext(layers, n, log, early, gone, writes, p);
    }
  }

  lemma RemovedNext(layers: seq<Layer>, n: nat, log: Log, early: Log, gone: Log, writes: Log, p: string)
    requires 0 < n <= |layers| && NextLog(layers, n, log, early, gone, writes) && IsLog(layers, n - 1, early)
    requires Honest(log) && RemovalRight(layers, n - 1, p, RemovedOf(early))
    ensures RemovalRight(layers, n, p, RemovedOf(log))
  {
    LogOverlay(layers, n - 1, early);
    LayerRemovals(layers, n - 1, early, gone, writes, p);
    RemovalNext(layers, n - 1, p, RemovedOf(early), RemovedOf(log));
  }

  /** Some layer between k and n takes p away. */
  ghost predicate TakenAfter(layers: seq<Layer>, k: nat, n: nat, p: string) {
    exists r: nat, w: nat :: k < r < n && Takes(layers, r, p, w)
  }

  ghost predicate Visible(layers: seq<Layer>, n: nat, p: string) {
    exists j: nat :: Owns(layers, n, p, j)
  }

  /** A path some layer wrote is either owned at the end or was taken by a later layer. */
  lemma {:induction false} WrittenIsKnown(layers: seq<Layer>, n: nat, p: string, k: nat)
    requires k < n <= |layers| && Writes(layers[k], p)
    ensures Visible(layers, n, p) || TakenAfter(layers, k, n, p)
  {
    if k == n - 1 {
      OwnsStep(layers, k, p, k);
    } else {
      WrittenIsKnown(layers, n - 1, p, k);
      if TakenAfter(layers, k, n - 1, p) {
        var r: nat, w: nat :| k < r < n - 1 && Takes(layers, r, p, w);
      } else {
        var j: nat :| Owns(layers, n - 1, p, j);
        StillVisibleOrTaken(layers, n - 1, p, j);
      }
    }
  }

  lemma StillVisibleOrTaken(layers: seq<Layer>, n: nat, p: string, j: nat)
    requires n < |layers| && Owns(layers, n, p, j)
    ensures Visible(layers, n + 1, p) || Takes(layers, n, p, j)
  {
    OwnsStep(layers, n, p, j);
    OwnsStep(layers, n, p, n);
  }

  // ---- the stack ----------------------------------------------------------------------------

  /** A layer tar as indexed: its identity and its member paths in archive order. */
  datatype LayerTar = LayerTar(digest: string, paths: seq<string>)

  function Classified(tar: LayerTar): Layer {
    Layer(tar.digest, seq(|tar.paths|, i requires 0 <= i < |tar.paths| => KindOf(tar.paths[i])))
  }

  function LayersOf(tars: seq<LayerTar>): seq<Layer> {
    seq(|tars|, i requires 0 <= i < |tars| => Classified(tars[i]))
  }

  /** Entries of one layer and one state. */
  predicate Uniform(log: Log, k: nat, digest: string, state: State) {
    forall t <- log :: t.ordinal == k && t.digest == digest && t.state == state
  }

  predicate IsWriting(log: Log, k: nat, digest: string) {
    forall t <- log :: t.ordinal == k && t.digest == digest && t.IsWrite()
  }

  lemma WritingOne(added: Log, k: nat, digest: string, regular: seq<string>, i: nat, t: Transition)
    requires i < |regular| && IsWriting(added, k, digest)
    requires PathsOf(added) == Members(regular[..i]) && Listing(added) == regular[..i]
    requires t.path == regular[i] && t.ordinal == k && t.digest == digest && t.IsWrite()
    ensures IsWriting(added + [t], k, digest)
    ensures PathsOf(added + [t]) == Members(regular[..i + 1]) && Listing(added + [t]) == regular[..i + 1]
  {
    PathsConcat(added, [t]);
    assert regular[..i + 1] == regular[..i] + [regular[i]];
  }

  function Members(paths: seq<string>): set<string> {
    set p <- paths
  }

  lemma PathsConcat(a: Log, b: Log)
    ensures PathsOf(a + b) == PathsOf(a) + PathsOf(b)
  {
  }

  /** The visible paths under one marker. */
  function Under(kind: Kind, owners: Owners): set<string> {
    set p | p in owners && Covers(kind, p)
  }

  function Covered(kinds: seq<Kind>, owners: Owners): set<string> {
    set p | p in owners && exists m <- kinds :: Covers(m, p)
  }

  /** `added` has entries of one layer and state, for exactly these paths. */
  ghost predicate Adds(added: Log, k: nat, digest: string, state: State, paths: set<string>) {
    Uniform(added, k, digest, state) && PathsOf(added) == paths
  }

  lemma AddsOne(added: Log, k: nat, digest: string, state: State, paths: set<string>, p: string)
    requires Adds(added, k, digest, state, paths)
    ensures Adds(added + [Transition(p, k, digest, state)], k, digest, state, paths + {p})
  {
    PathsConcat(added, [Transition(p, k, digest, state)]);
  }

  lemma {:induction false} ReplayAdds(log: Log, added: Log, k: nat, digest: string, state: State, paths: set<string>)
    requires Adds(added, k, digest, state, paths) && state != Added && state != Modified
    ensures Replay(log + added) == Replay(log) - paths
  {
    ReplayGone(log, added);
  }

  lemma AddsMore(added: Log, more: Log, k: nat, digest: string, state: State, paths: set<string>, others: set<string>)
    requires Adds(added, k, digest, state, paths) && Adds(more, k, digest, state, others)
    ensures Adds(added + more, k, digest, state, paths + others)
  {
    PathsConcat(added, more);
  }

  class LayerStack {
    const tars: seq<LayerTar>
    var transitions: Log
    var owners: Owners
    var removed: Gone

    /** The fields agree with a log of the first n layers that shows `visible`. */
    ghost predicate Consistent(n: nat, visible: Owners)
      reads this
    {
      && n <= |tars| && IsLog(LayersOf(tars), n, transitions)
      && Current(n, visible)
    }

    /** The log so far is honest, has no entry beyond layer n, and shows `visible`. */
    ghost predicate Current(n: nat, visible: Owners)
      reads this
    {
      && Honest(transitions) && Replay(transitions) == visible && removed == RemovedOf(transitions)
      && (transitions != [] ==> transitions[|transitions| - 1].ordinal <= n)
    }

    ghost predicate Valid()
      reads this
    {
      Consistent(|tars|, owners)
    }

    constructor (image: seq<LayerTar>)
      ensures Valid() && tars == image
    {
      tars := image;
      transitions, owners, removed := [], map[], map[];
      new;
      Compute();
    }

    method Compute()
      requires Consistent(0, map[])
      modifies this
      ensures Valid()
    {
      var visible: Owners := map[];
      for k := 0 to |tars|
        invariant Consistent(k, visible)
      {
        visible := ApplyLayer(k, visible);
      }
      owners := visible;
    }

    method ApplyLayer(k: nat, visible: Owners) returns (after: Owners)
      requires k < |tars| && Consistent(k, visible)
      modifies this`transitions, this`removed
      ensures Consistent(k + 1, after)
    {
      var digest := tars[k].digest;
      var opaques, whiteouts, regular := Sort(tars[k]);
      ghost var log := transitions;
      ghost var cleared, taken, writes;
      after, cleared := HideAll(k, digest, opaques, OpaqueCleared, visible);
      after, taken := HideAll(k, digest, whiteouts, State.Removed, after);
      after, writes := WriteAll(k, digest, regular, after);
      LayerLogged(tars[k], k, visible, opaques, whiteouts, cleared, taken, writes);
      NextLogOf(tars, k, log, cleared, taken, writes);
    }

    /** All markers of one kind, in archive order. */
    method HideAll(k: nat, digest: string, kinds: seq<Kind>, state: State, visible: Owners)
      returns (after: Owners, ghost added: Log)
      requires Current(k, visible) && state != Added && state != Modified
      modifies this`transitions, this`removed
      ensures Current(k, after) && transitions == old(transitions) + added
      ensures Adds(added, k, digest, state, Covered(kinds, visible))
      ensures after == visible - Covered(kinds, visible)
    {
      after, added := visible, [];
      ghost var log := transitions;
      for i := 0 to |kinds|
        invariant Current(k, after) && transitions == log + added
        invariant Adds(added, k, digest, state, Covered(kinds[..i], visible))
      {
        after, added := HideNext(k, digest, kinds, i, state, after, visible, log, added);
      }
      assert kinds[..|kinds|] == kinds;
      ReplayAdds(log, added, k, digest, state, Covered(kinds, visible));
    }

    method HideNext(k: nat, digest: string, kinds: seq<Kind>, i: nat, state: State, current: Owners,
                    ghost visible: Owners, ghost log: Log, ghost added: Log)
      returns (after: Owners, ghost more: Log)
      requires Current(k, current) && transitions == log + added && state != Added && state != Modified
      requires i < |kinds| && visible == Replay(log) && Adds(added, k, digest, state, Covered(kinds[..i], visible))
      modifies this`transitions, this`removed
      ensures Current(k, after) && transitions == log + more
      ensures Adds(more, k, digest, state, Covered(kinds[..i + 1], visible))
    {
      ghost var covered := Covered(kinds[..i], visible);
      ReplayAdds(log, added, k, digest, state, covered);
      ghost var one;
      after, one := HidePaths(k, digest, kinds[i], state, current);
      CoverOneMore(kinds, i, visible);
      AddsMore(added, one, k, digest, state, covered, Under(kinds[i], visible - covered));
      more := added + one;
      assert transitions == log + more;
    }

    /** One marker: every visible path it covers goes, in whatever order they are listed. */
    method HidePaths(k: nat, digest: string, kind: Kind, state: State, visible: Owners)
      returns (after: Owners, ghost added: Log)
      requires Current(k, visible) && state != Added && state != Modified
      modifies this`transitions, this`removed
      ensures Current(k, after) && transitions == old(transitions) + added
      ensures Adds(added, k, digest, state, Under(kind, visible))
      ensures after == visible - Under(kind, visible)
    {
      after, added := visible, [];
      var victims := Under(kind, visible);
      ghost var log, all := transitions, victims;
      while victims != {}
        invariant Current(k, after) && transitions == log + added
        invariant victims <= all && Adds(added, k, digest, state, all - victims)
        decreases |victims|
      {
        var p :| p in victims;
        after, added := HideOne(p, k, digest, state, after, log, added, all - victims);
        assert all - victims + {p} == all - (victims - {p});
        victims := victims - {p};
      }
      ReplayAdds(log, added, k, digest, state, all - victims);
      assert all - victims == all;
    }

    method HideOne(p: string, k: nat, digest: string, state: State, visible: Owners,
                   ghost log: Log, ghost added: Log, ghost done: set<string>)
      returns (after: Owners, ghost more: Log)
      requires Current(k, visible) && transitions == log + added && state != Added && state != Modified
      requires Adds(added, k, digest, state, done) && p in Replay(log) && p !in done
      modifies this`transitions, this`removed
      ensures Current(k, after) && transitions == log + more
      ensures Adds(more, k, digest, state, done + {p})
    {
      ReplayAdds(log, added, k, digest, state, done);
      AddsOne(added, k, digest, state, done, p);
      RecordGone(p, k, digest, state);
      more := added + [Transition(p, k, digest, state)];
      assert transitions == log + more;
      after := visible - {p};
    }

    method RecordGone(p: string, k: nat, digest: string, state: State)
      requires Current(k, Replay(transitions)) && p in Replay(transitions) && state != Added && state != Modified
      modifies this`transitions, this`removed
      ensures transitions == old(transitions) + [Transition(p, k, digest, state)]
      ensures removed == old(removed)[p := (old(LastWrite(transitions, p)), k)]
      ensures Current(k, old(Replay(transitions)) - {p})
    {
      var t := Transition(p, k, digest, state);
      Snoc(transitions, t);
      removed := removed[p := (LastWrite(transitions, p), k)];
      transitions := transitions + [t];
    }

    method WriteAll(k: nat, digest: string, regular: seq<string>, visible: Owners)
      returns (after: Owners, ghost added: Log)
      requires Current(k, visible)
      modifies this`transitions
      ensures Current(k, after) && transitions == old(transitions) + added
      ensures IsWriting(added, k, digest) && PathsOf(added) == Members(regular) && Listing(added) == regular
    {
      after, added := visible, [];
      ghost var log := transitions;
      for i := 0 to |regular|
        invariant Current(k, after) && transitions == log + added
        invariant IsWriting(added, k, digest) && PathsOf(added) == Members(regular[..i])
                  && Listing(added) == regular[..i]
      {
        after, added := WriteNext(k, digest, regular, i, after, log, added);
      }
      assert regular[..|regular|] == regular;
    }

    method WriteNext(k: nat, digest: string, regular: seq<string>, i: nat, current: Owners, ghost log: Log,
                     ghost added: Log)
      returns (after: Owners, ghost more: Log)
      requires Current(k, current) && transitions == log + added && i < |regular|
      requires IsWriting(added, k, digest) && PathsOf(added) == Members(regular[..i]) && Listing(added) == regular[..i]
      modifies this`transitions
      ensures Current(k, after) && transitions == log + more
      ensures IsWriting(more, k, digest) && PathsOf(more) == Members(regular[..i + 1])
              && Listing(more) == regular[..i + 1]
    {
      var path := regular[i];
      var t := Transition(path, k, digest, if path in current then Modified else Added);
      Snoc(transitions, t);
      WritingOne(added, k, digest, regular, i, t);
      after := current[path := k];
      transitions := transitions + [t];
      more := added + [t];
      assert transitions == log + more;
    }

    /** Visible owners considering only layers 0..upto. */
    method OwnersUpto(upto: int) returns (visible: Owners)
      requires Valid()
      ensures visible == Replay(Upto(transitions, upto))
      ensures 0 <= upto < |tars| ==> IsOverlay(LayersOf(tars), upto + 1, visible)
      ensures upto >= |tars| ==> visible == owners
    {
      visible := ReplayUpto(transitions, upto);
      ViewUpto(upto);
    }

    /** Ordinals of every layer that wrote the path, oldest first, as often as it lists the path. */
    method VersionsOf(path: string) returns (versions: seq<nat>)
      requires Valid()
      ensures versions == Versions(LayersOf(tars), |tars|, path)
    {
      versions := CollectWrites(transitions, path);
      LogVersions(LayersOf(tars), |tars|, transitions, path);
    }

    /** What the finished stack holds: the owners are the overlay of all layers, `removed` tells
        each path's last removal, and every path ever written is in one of the two. */
    lemma Squashed(p: string)
      requires Valid()
      ensures IsOverlay(LayersOf(tars), |tars|, owners)
      ensures RemovalRight(LayersOf(tars), |tars|, p, removed)
      ensures Written(LayersOf(tars), |tars|, p) ==> p in owners || p in removed
      ensures p !in owners && p in removed <==> p !in owners && Written(LayersOf(tars), |tars|, p)
    {
      var layers := LayersOf(tars);
      LogOverlay(layers, |tars|, transitions);
      RemovedMeans(layers, |tars|, transitions, p);
      if Written(layers, |tars|, p) {
        var k: nat :| k < |tars| && Writes(layers[k], p);
        WrittenIsKnown(layers, |tars|, p, k);
        if j: nat :| Owns(layers, |tars|, p, j) {
          assert p in owners;
        }
      }
    }

    /** `removed` is meant to list the paths gone from the final view, but keeps those that
        were written again: a visible path is listed exactly when some layer took it away. */
    lemma ListedThoughVisible(p: string)
      requires Valid() && p in owners
      ensures p in removed <==> exists r: nat, w: nat :: r <= owners[p] && Takes(LayersOf(tars), r, p, w)
    {
      var layers := LayersOf(tars);
      Squashed(p);
      assert Owns(layers, |tars|, p, owners[p]);
      if p in removed {
        var (w, r) := removed[p];
        assert Takes(layers, r, p, w) && Hides(layers[r], p);
      }
    }

    lemma {:induction false} ViewUpto(upto: int)
      requires Valid()
      ensures 0 <= upto < |tars| ==> IsOverlay(LayersOf(tars), upto + 1, Replay(Upto(transitions, upto)))
      ensures upto >= |tars| ==> Replay(Upto(transitions, upto)) == owners
    {
      if 0 <= upto < |tars| {
        TimeTravel(LayersOf(tars), |tars|, transitions, upto);
      } else if upto >= |tars| {
        LogOrdinals(LayersOf(tars), |tars|, transitions);
        UptoAll(transitions, upto);
      }
    }
  }

  lemma OverlayUnique(layers: seq<Layer>, n: nat, a: Owners, b: Owners)
    requires IsOverlay(layers, n, a) && IsOverlay(layers, n, b)
    ensures a == b
  {
    forall p ensures (p in a <==> p in b) && (p in a ==> p in b && a[p] == b[p]) {
      if p in a {
        assert Owns(layers, n, p, a[p]);
      }
      if p in b {
        assert Owns(layers, n, p, b[p]);
      }
    }
  }

  lemma {:induction false} OverlayAlone(layers: seq<Layer>, alone: Log, n: nat)
    requires n <= |layers| && IsLog(layers[..n], n, alone)
    ensures IsOverlay(layers, n, Replay(alone))
  {
    LogOverlay(layers[..n], n, alone);
    PrefixOverlay(layers, n, Replay(alone));
  }

  /** Time travel: what replaying the log up to layer k shows is what a stack built from the
      layers up to k alone ends with. */
  lemma {:induction false} TravelsBack(layers: seq<Layer>, n: nat, log: Log, k: nat, alone: Log)
    requires k < n <= |layers| && IsLog(layers, n, log) && IsLog(layers[..k + 1], k + 1, alone)
    ensures Replay(Upto(log, k)) == Replay(alone)
  {
    TimeTravel(layers, n, log, k);
    OverlayAlone(layers, alone, k + 1);
    OverlayUnique(layers, k + 1, Replay(Upto(log, k)), Replay(alone));
  }

  /** So for two stacks, one built from the first layers of the other. */
  lemma {:induction false} TravelsToPrefix(whole: LayerStack, prefix: LayerStack, n: nat)
    requires whole.Valid() && prefix.Valid() && n <= |whole.tars| && prefix.tars == whole.tars[..n]
    ensures Replay(Upto(whole.transitions, n - 1)) == prefix.owners
  {
    assert LayersOf(prefix.tars) == LayersOf(whole.tars)[..n];
    if n == 0 {
      assert Upto(whole.transitions, -1) == [];
    } else {
      TravelsBack(LayersOf(whole.tars), |whole.tars|, whole.transitions, n - 1, prefix.transitions);
    }
  }

  ghost predicate Written(layers: seq<Layer>, n: nat, p: string)
    requires n <= |layers|
  {
    exists k: nat :: k < n && Writes(layers[k], p)
  }

  ghost predicate WroteAt(log: Log, p: string, k: nat) {
    exists t <- log :: t.path == p && t.IsWrite() && t.ordinal == k
  }

  /** The ordinals of the log's writes of a path. */
  function WritesIn(log: Log, p: string): seq<nat> {
    if log == [] then []
    else
      var t := log[|log| - 1];
      WritesIn(log[..|log| - 1], p) + if t.path == p && t.IsWrite() then [t.ordinal] else []
  }

  method CollectWrites(log: Log, path: string) returns (versions: seq<nat>)
    ensures versions == WritesIn(log, path)
  {
    versions := [];
    for i := 0 to |log|
      invariant versions == WritesIn(log[..i], path)
    {
      var t := log[i];
      assert log[..i + 1][..i] == log[..i];
      if t.path == path && t.IsWrite() {
        versions := versions + [t.ordinal];
      }
    }
    assert log[..|log|] == log;
  }

  function Times(paths: seq<string>, p: string): nat {
    if paths == [] then 0
    else Times(paths[..|paths| - 1], p) + if paths[|paths| - 1] == p then 1 else 0
  }

  function Repeat(k: nat, count: nat): (r: seq<nat>)
    ensures |r| == count && forall i | 0 <= i < count :: r[i] == k
  {
    if count == 0 then [] else Repeat(k, count - 1) + [k]
  }

  lemma {:induction false} RepeatHas(k: nat, count: nat, v: nat)
    ensures v in Repeat(k, count) <==> v == k && count > 0
  {
    if count > 0 {
      assert Repeat(k, count)[0] == k;
    }
  }

  /** For each of the first n layers in turn its ordinal, as often as it lists the path. */
  function Versions(layers: seq<Layer>, n: nat, p: string): seq<nat>
    requires n <= |layers|
  {
    if n == 0 then []
    else Versions(layers, n - 1, p) + Repeat(n - 1, Times(Files(layers[n - 1].members), p))
  }

  lemma {:induction false} WritesInConcat(a: Log, b: Log, p: string)
    ensures WritesIn(a + b, p) == WritesIn(a, p) + WritesIn(b, p)
    decreases |b|
  {
    if b == [] {
      assert a + b == a;
    } else {
      assert (a + b)[..|a + b| - 1] == a + b[..|b| - 1];
      WritesInConcat(a, b[..|b| - 1], p);
    }
  }

  lemma {:induction false} NoWritesIn(log: Log, p: string)
    requires forall t <- log :: !t.IsWrite()
    ensures WritesIn(log, p) == []
    decreases |log|
  {
    if log == [] {
    } else {
      NoWritesIn(log[..|log| - 1], p);
    }
  }

  lemma {:induction false} TimesListed(log: Log, p: string)
    requires log != []
    ensures Times(Listing(log), p)
         == Times(Listing(log[..|log| - 1]), p) + if log[|log| - 1].path == p then 1 else 0
  {
    assert Listing(log)[..|log| - 1] == Listing(log[..|log| - 1]);
  }

  lemma {:induction false} WritesInLayer(log: Log, p: string, k: nat)
    requires forall t <- log :: t.ordinal == k && t.IsWrite()
    ensures WritesIn(log, p) == Repeat(k, Times(Listing(log), p))
    decreases |log|
  {
    if log == [] {
    } else {
      var rest := log[..|log| - 1];
      WritesInLayer(rest, p, k);
      TimesListed(log, p);
    }
  }

  lemma {:induction false} NextVersions(layers: seq<Layer>, n: nat, log: Log, early: Log, gone: Log, writes: Log,
                                        p: string)
    requires 0 < n <= |layers| && NextLog(layers, n, log, early, gone, writes)
    ensures WritesIn(log, p) == WritesIn(early, p) + Repeat(n - 1, Times(Files(layers[n - 1].members), p))
  {
    WritesInConcat(early + gone, writes, p);
    WritesInConcat(early, gone, p);
    NoWritesIn(gone, p);
    WritesInLayer(writes, p, n - 1);
  }

  lemma {:induction false} LogVersions(layers: seq<Layer>, n: nat, log: Log, p: string)
    requires n <= |layers| && IsLog(layers, n, log)
    ensures WritesIn(log, p) == Versions(layers, n, p)
  {
    if n == 0 {
    } else {
      var early, gone, writes :| NextLog(layers, n, log, early, gone, writes) && IsLog(layers, n - 1, early);
      LogVersions(layers, n - 1, early, p);
      NextVersions(layers, n, log, early, gone, writes, p);
    }
  }

  lemma {:induction false} TimesOf(members: seq<Kind>, p: string)
    ensures Times(Files(members), p) > 0 <==> Regular(p) in members
    decreases |members|
  {
    if members == [] {
    } else {
      var rest, last := members[..|members| - 1], members[|members| - 1];
      TimesOf(rest, p);
      assert members == rest + [last];
      if last.Regular? {
        assert (Files(rest) + [last.path])[..|Files(rest)|] == Files(rest);
      } else {
        assert Files(members) == Files(rest);
      }
    }
  }

  lemma {:induction false} VersionsBelow(layers: seq<Layer>, n: nat, p: string)
    requires n <= |layers|
    ensures forall v <- Versions(layers, n, p) :: v < n
  {
    if n == 0 {
    } else {
      VersionsBelow(layers, n - 1, p);
    }
  }

  lemma {:induction false} VersionsAscend(layers: seq<Layer>, n: nat, p: string, i: nat, j: nat)
    requires n <= |layers| && i < j < |Versions(layers, n, p)|
    ensures Versions(layers, n, p)[i] <= Versions(layers, n, p)[j]
  {
    var early := Versions(layers, n - 1, p);
    VersionsBelow(layers, n - 1, p);
    if j < |early| {
      VersionsAscend(layers, n - 1, p, i, j);
    } else if i < |early| {
      assert early[i] in early;
    }
  }

  /** The versions of a path are exactly the layers that write it. */
  lemma {:induction false} VersionsAre(layers: seq<Layer>, n: nat, p: string, k: nat)
    requires n <= |layers|
    ensures k in Versions(layers, n, p) <==> k < n && Writes(layers[k], p)
  {
    if n == 0 {
    } else {
      VersionsAre(layers, n - 1, p, k);
      TimesOf(layers[n - 1].members, p);
      RepeatHas(n - 1, Times(Files(layers[n - 1].members), p), k);
    }
  }

  lemma {:induction false} LogWrites(layers: seq<Layer>, n: nat, log: Log, p: string, k: nat)
    requires n <= |layers| && IsLog(layers, n, log)
    ensures WroteAt(log, p, k) <==> k < n && Writes(layers[k], p)
  {
    if n == 0 {
    } else {
      var early, gone, writes :| NextLog(layers, n, log, early, gone, writes) && IsLog(layers, n - 1, early);
      LogWrites(layers, n - 1, early, p, k);
      LayerWrites(layers[n - 1], n - 1, Replay(early), early, gone, writes, p, k);
    }
  }

  lemma LayerWrites(layer: Layer, n: nat, before: Owners, early: Log, gone: Log, writes: Log, p: string, k: nat)
    requires IsLayerLog(layer, n, before, gone, writes)
    ensures WroteAt(early + gone + writes, p, k) <==> WroteAt(early, p, k) || (k == n && Writes(layer, p))
  {
    var log := early + gone + writes;
    if WroteAt(early, p, k) {
      var t :| t in early && t.path == p && t.IsWrite() && t.ordinal == k;
      assert t in log;
    }
    if k == n && Writes(layer, p) {
      assert p in PathsOf(writes);
      var t :| t in writes && t.path == p;
      assert t in log;
    }
    if WroteAt(log, p, k) {
      var t :| t in log && t.path == p && t.IsWrite() && t.ordinal == k;
      if t !in early {
        assert t in writes;
        assert p in PathsOf(writes);
      }
    }
  }

  lemma PlainName(p: string)
    requires p != "" && forall i | 0 <= i < |p| :: p[i] != '/'
    ensures Basename(p) == p && Dirname(p) == ""
  {
    NoSlash(p);
  }

  lemma {:induction false} NoSlash(p: string)
    requires forall i | 0 <= i < |p| :: p[i] != '/'
    ensures LastSlash(p) == -1
    decreases |p|
  {
    if p == "" {
    } else {
      NoSlash(p[..|p| - 1]);
    }
  }

  /** The failing input: a layer that whites out a file and ships it again. */
  const REWRITTEN: seq<LayerTar> := [LayerTar("d0", ["a"]), LayerTar("d1", [".wh.a", "a"])]

  lemma RewrittenKinds()
    ensures KindOf("a") == Regular("a") && KindOf(".wh.a") == Whiteout("a")
  {
    PlainName("a");
    PlainName(".wh.a");
    assert ".wh.a"[..4] == WHITEOUT_PREFIX && ".wh.a"[4..] == "a";
  }

  lemma LayersOfPair(d0: string, d1: string, p: string, q: string)
    ensures LayersOf([LayerTar(d0, [q]), LayerTar(d1, [p, q])])
         == [Layer(d0, [KindOf(q)]), Layer(d1, [KindOf(p), KindOf(q)])]
  {
    assert Classified(LayerTar(d0, [q])).members == [KindOf(q)];
    assert Classified(LayerTar(d1, [p, q])).members == [KindOf(p), KindOf(q)];
  }

  lemma RewrittenLayers()
    ensures LayersOf(REWRITTEN) == [Layer("d0", [Regular("a")]), Layer("d1", [Whiteout("a"), Regular("a")])]
  {
    RewrittenKinds();
    LayersOfPair("d0", "d1", ".wh.a", "a");
  }

  lemma RewrittenStaysListed()
    ensures Takes(LayersOf(REWRITTEN), 1, "a", 0) && Owns(LayersOf(REWRITTEN), 2, "a", 1)
  {
    RewrittenLayers();
    var layers := LayersOf(REWRITTEN);
    assert Whiteout("a") in layers[1].members && Covers(Whiteout("a"), "a");
    assert Regular("a") in layers[1].members && Regular("a") in layers[0].members;
  }

  /** On the stack of that image the file is visible and listed as removed. */
  method RewrittenStack() returns (stack: LayerStack)
    ensures stack.Valid() && "a" in stack.owners && stack.owners["a"] == 1 && "a" in stack.removed
  {
    stack := new LayerStack(REWRITTEN);
    RewrittenStaysListed();
    stack.Squashed("a");
    assert Owns(LayersOf(REWRITTEN), 2, "a", 1);
    stack.ListedThoughVisible("a");
  }

  lemma {:induction false} UptoStep(log: Log, i: nat, upto: int)
    requires i < |log| && log[i].ordinal <= upto
    ensures log[..i] + Upto(log[i..], upto) == log[..i + 1] + Upto(log[i + 1..], upto)
    ensures Replay(log[..i + 1]) == Apply(Replay(log[..i]), log[i])
  {
    assert log[i..][1..] == log[i + 1..];
    assert log[..i + 1] == log[..i] + [log[i]];
    Snoc(log[..i], log[i]);
  }

  lemma {:induction false} NextLogOf(tars: seq<LayerTar>, k: nat, log: Log, cleared: Log, taken: Log, writes: Log)
    requires k < |tars| && IsLog(LayersOf(tars), k, log)
    requires IsLayerLog(Classified(tars[k]), k, Replay(log), cleared + taken, writes)
    ensures IsLog(LayersOf(tars), k + 1, log + cleared + taken + writes)
  {
    assert LayersOf(tars)[k] == Classified(tars[k]);
    assert log + cleared + taken + writes == log + (cleared + taken) + writes;
    assert NextLog(LayersOf(tars), k + 1, log + cleared + taken + writes, log, cleared + taken, writes);
  }

  lemma CoverOneMore(kinds: seq<Kind>, i: nat, owners: Owners)
    requires i < |kinds|
    ensures Covered(kinds[..i + 1], owners)
         == Covered(kinds[..i], owners) + Under(kinds[i], owners - Covered(kinds[..i], owners))
  {
    assert kinds[..i + 1] == kinds[..i] + [kinds[i]];
  }

  function Markers(members: seq<Kind>, clearing: bool): seq<Kind> {
    if members == [] then []
    else
      var last := members[|members| - 1];
      Markers(members[..|members| - 1], clearing) + if !last.Regular? && last.Opaque? == clearing then [last] else []
  }

  method Sort(tar: LayerTar) returns (opaques: seq<Kind>, whiteouts: seq<Kind>, regular: seq<string>)
    ensures opaques == Markers(Classified(tar).members, true) && whiteouts == Markers(Classified(tar).members, false)
    ensures regular == Files(Classified(tar).members)
  {
    opaques, whiteouts, regular := [], [], [];
    ghost var members := Classified(tar).members;
    for i := 0 to |tar.paths|
      invariant opaques == Markers(members[..i], true) && whiteouts == Markers(members[..i], false)
      invariant regular == Files(members[..i])
    {
      SortStep(members, i);
      var kind := KindOf(tar.paths[i]);
      assert kind == members[i];
      match kind
      case Opaque(_) => opaques := opaques + [kind];
      case Whiteout(_) => whiteouts := whiteouts + [kind];
      case Regular(p) => regular := regular + [p];
    }
    assert members[..|tar.paths|] == members;
  }

  lemma SortStep(members: seq<Kind>, i: nat)
    requires i < |members|
    ensures var m := members[i];
            && Markers(members[..i + 1], true) == Markers(members[..i], true) + (if m.Opaque? then [m] else [])
            && Markers(members[..i + 1], false) == Markers(members[..i], false) + (if m.Whiteout? then [m] else [])
            && Files(members[..i + 1]) == Files(members[..i]) + (if m.Regular? then [m.path] else [])
  {
    assert members[..i + 1][..i] == members[..i];
  }

  lemma {:induction false} MarkersAre(members: seq<Kind>, clearing: bool, m: Kind)
    ensures m in Markers(members, clearing) <==> m in members && !m.Regular? && m.Opaque? == clearing
    decreases |members|
  {
    if members == [] {
    } else {
      MarkersAre(members[..|members| - 1], clearing, m);
      assert members == members[..|members| - 1] + [members[|members| - 1]];
    }
  }

  lemma {:induction false} FilesAre(members: seq<Kind>, p: string)
    ensures p in Files(members) <==> Regular(p) in members
    decreases |members|
  {
    if members == [] {
    } else {
      FilesAre(members[..|members| - 1], p);
      assert members == members[..|members| - 1] + [members[|members| - 1]];
    }
  }

  /** The three passes over a layer add exactly what its log entry promises. */
  lemma LayerLogged(tar: LayerTar, k: nat, before: Owners, opaques: seq<Kind>, whiteouts: seq<Kind>,
                    cleared: Log, taken: Log, writes: Log)
    requires opaques == Markers(Classified(tar).members, true) && whiteouts == Markers(Classified(tar).members, false)
    requires Adds(cleared, k, tar.digest, OpaqueCleared, Covered(opaques, before))
    requires Adds(taken, k, tar.digest, Removed, Covered(whiteouts, before - Covered(opaques, before)))
    requires IsWriting(writes, k, tar.digest)
    requires Listing(writes) == Files(Classified(tar).members) && PathsOf(writes) == Members(Listing(writes))
    ensures IsLayerLog(Classified(tar), k, before, cleared + taken, writes)
  {
    var layer := Classified(tar);
    forall m ensures m in opaques <==> m in layer.members && m.Opaque? {
      MarkersAre(layer.members, true, m);
    }
    forall m ensures m in whiteouts <==> m in layer.members && m.Whiteout? {
      MarkersAre(layer.members, false, m);
    }
    forall p ensures p in PathsOf(writes) <==> Writes(layer, p) {
      FilesAre(layer.members, p);
    }
    assert PathsIn(cleared + taken, OpaqueCleared) == PathsOf(cleared);
    assert PathsIn(cleared + taken, Removed) == PathsOf(taken);
    forall p ensures Clears(layer, p) <==> exists m <- opaques :: Covers(m, p) {}
    forall p ensures Hides(layer, p) <==> Clears(layer, p) || exists m <- whiteouts :: Covers(m, p) {
      if Hides(layer, p) {
        var m :| m in layer.members && Covers(m, p);
        assert m.Opaque? || m in whiteouts;
      }
    }
  }
}
