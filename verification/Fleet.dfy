// Many machines sharing one cache server.
module Fleet {
  // What every interleaving of lookups, stores, evictions and network failures keeps.

  import opened Basics
  import opened LocalCache
  import opened SharedCache

  /** The one value a key can have: the encoding of what the detectors yield for it. */
  type Truth = string -> Bytes

  /** What a fleet works with: the digest of values and that of keys, the keys in use and their
      values, and everything that may come to be stored. */
  datatype World = World(hash: Hash, names: KeyHash, truth: Truth, keys: set<string>, values: set<Bytes>) {
    /** Keys in use have names of 64 digits, one each; any part of a value may be stored, and what
        may be stored has one digest each. */
    ghost predicate Fair() {
      && (forall key {:trigger Apt(key)} | key in keys :: Apt(key))
      && InjectiveOn(names, keys) && InjectiveOn(hash, values)
    }

    ghost predicate Apt(key: string) {
      IsHexDigest(names(key)) && PartsIn(truth(key), values)
    }
  }

  ghost predicate PartsIn(data: Bytes, values: set<Bytes>) {
    forall n | 0 <= n <= |data| :: data[..n] in values
  }

  lemma Named(w: World, key: string)
    requires w.Fair() && key in w.keys
    ensures IsHexDigest(w.names(key))
  {
    assert w.Apt(key);
  }

  lemma TruthIsValue(w: World, key: string)
    requires w.Fair() && key in w.keys
    ensures w.truth(key) in w.values
  {
    var data := w.truth(key);
    assert w.Apt(key) && data[..|data|] == data;
  }

  lemma PartIsValue(w: World, key: string, n: nat)
    requires w.Fair() && key in w.keys && n <= |w.truth(key)|
    ensures w.truth(key)[..n] in w.values
  {
    assert w.Apt(key);
  }

  datatype Fleet = Fleet(clients: seq<Client>, server: Store)

  /** `gone` lists the rows an eviction takes, `stuck` the blobs whose files stay, and `halfway` the
      rows that an index failure leaves deleted without their blobs. */
  datatype Step =
    | GetAt(who: nat, key: string, env: Env)
    | PutAt(who: nat, key: string, env: Env)
    | EvictAt(who: nat, gone: seq<string>, stuck: set<string>, halfway: set<string>)
    | EvictOnServer(gone: seq<string>, stuck: set<string>, halfway: set<string>)
  {
    predicate Within(keys: set<string>) {
      GetAt? || PutAt? ==> key in keys
    }
  }

  /** One step of one machine, or an eviction anywhere. */
  function Next(w: World, f: Fleet, step: Step): Fleet {
    if step.EvictOnServer? then
      f.(server := Unindexed(AfterEvictions(f.server, step.gone, step.stuck), step.halfway))
    else if step.who >= |f.clients| then f
    else
      var c := f.clients[step.who];
      Fleet(f.clients[step.who := Moved(w, c, f.server, step)], Served(w, c, f.server, step))
  }

  /** The machine that takes a step. */
  function Moved(w: World, c: Client, server: Store, step: Step): Client
    requires !step.EvictOnServer?
  {
    match step
    case GetAt(_, key, env) => ClientAfterGet(w.hash, w.names, c, server, key, env)
    case PutAt(_, key, env) => ClientAfterPut(w.hash, w.names, c, server, key, w.truth(key), env)
    case EvictAt(_, gone, stuck, halfway) => Evicted(c, gone, stuck, halfway)
  }

  /** The server after some machine's step. */
  function Served(w: World, c: Client, server: Store, step: Step): Store
    requires !step.EvictOnServer?
  {
    match step
    case GetAt(_, key, env) => ServerAfterGet(w.hash, w.names, c, server, key, env)
    case PutAt(_, key, env) => ServerAfterPut(w.hash, w.names, c, server, key, w.truth(key), env)
    case EvictAt(_, _, _, _) => server
  }

  function Evicted(c: Client, gone: seq<string>, stuck: set<string>, halfway: set<string>): Client {
    if c.local.None? then c else c.(local := Some(Unindexed(AfterEvictions(c.local.value, gone, stuck), halfway)))
  }

  /** Every prune, whichever way the index fails during it, is such an eviction. */
  lemma PruneIsEviction(s: Store, order: seq<string>, maxBytes: int, fault: PruneFault, stuck: set<string>)
    returns (gone: seq<string>, halfway: set<string>)
    requires forall key <- order :: key in s.entries
    ensures AfterPrune(s, order, maxBytes, fault, stuck) == Unindexed(AfterEvictions(s, gone, stuck), halfway)
  {
    gone := order[..LocalCache.Evicted(s.entries, order, maxBytes, fault)];
    halfway := Halfway(s.entries, order, maxBytes, fault);
  }

  function Run(w: World, f: Fleet, steps: seq<Step>): Fleet
    decreases |steps|
  {
    if steps == [] then f else Next(w, Run(w, f, steps[..|steps| - 1]), steps[|steps| - 1])
  }

  predicate IsFresh(f: Fleet) {
    && f.server == EMPTY
    && forall c <- f.clients ::
         && (c.local.Some? ==> c.local.value == EMPTY)
         && (c.remote.Some? ==> c.remote.value == Remote(0, 0, 0))
         && c.tally == NO_TALLY
  }

  // ---- every hit is the truth ----------------------------------------------------------------

  /** Every blob is one of the values and lies under its digest. */
  ghost predicate Held(w: World, blobs: map<string, Bytes>) {
    forall digest | digest in blobs :: blobs[digest] in w.values && w.hash(blobs[digest]) == digest
  }

  /** Rows under names of keys point at the digest of the key's one value. */
  ghost predicate Sound(w: World, s: Store, nameOf: string -> string) {
    && Held(w, s.blobs)
    && forall key {:trigger RowTrue(w.hash, s, nameOf(key), w.truth(key))} | key in w.keys ::
         RowTrue(w.hash, s, nameOf(key), w.truth(key))
  }

  ghost predicate RowTrue(hash: Hash, s: Store, name: string, value: Bytes) {
    name in s.entries ==> s.entries[name].digest == hash(value)
  }

  function Itself(): string -> string {
    (key: string) => key
  }

  function OnServer(names: KeyHash): string -> string {
    (key: string) => StoreKey(names(key))
  }

  lemma SoundPut(w: World, s: Store, nameOf: string -> string, key: string, now: real, faults: Faults)
    requires w.Fair() && key in w.keys && Sound(w, s, nameOf) && InjectiveOn(nameOf, w.keys)
    ensures Sound(w, AfterPut(w.hash, s, nameOf(key), w.truth(key), now, faults), nameOf)
  {
    var t := AfterPut(w.hash, s, nameOf(key), w.truth(key), now, faults);
    TruthIsValue(w, key);
    forall other | other in w.keys ensures RowTrue(w.hash, t, nameOf(other), w.truth(other)) {
      assert RowTrue(w.hash, s, nameOf(other), w.truth(other));
      assert !Collide(nameOf, key, other);
    }
  }

  lemma SoundGet(w: World, s: Store, nameOf: string -> string, name: string, now: real, faults: Faults)
    requires Sound(w, s, nameOf)
    ensures Sound(w, AfterGet(s, name, now, faults), nameOf)
  {
    forall other | other in w.keys
      ensures RowTrue(w.hash, AfterGet(s, name, now, faults), nameOf(other), w.truth(other))
    {
      assert RowTrue(w.hash, s, nameOf(other), w.truth(other));
    }
  }

  lemma SoundFound(w: World, s: Store, nameOf: string -> string, key: string, faults: Faults)
    requires w.Fair() && key in w.keys && Sound(w, s, nameOf)
    ensures Found(s, nameOf(key), faults) in {None, Some(w.truth(key))}
  {
    assert RowTrue(w.hash, s, nameOf(key), w.truth(key));
    TruthIsValue(w, key);
    if Found(s, nameOf(key), faults).Some? {
      assert !Collide(w.hash, Found(s, nameOf(key), faults).value, w.truth(key));
    }
  }

  lemma {:induction false} SoundEvicted(w: World, s: Store, nameOf: string -> string, gone: seq<string>,
                                        stuck: set<string>, halfway: set<string>)
    requires Sound(w, s, nameOf)
    ensures Sound(w, Unindexed(AfterEvictions(s, gone, stuck), halfway), nameOf)
  {
    var t := Unindexed(AfterEvictions(s, gone, stuck), halfway);
    EvictedEntries(s, gone, stuck);
    forall digest | digest in t.blobs ensures t.blobs[digest] in w.values && w.hash(t.blobs[digest]) == digest {
      EvictedBlobs(s, gone, stuck, digest);
    }
    forall other | other in w.keys ensures RowTrue(w.hash, t, nameOf(other), w.truth(other)) {
      assert RowTrue(w.hash, s, nameOf(other), w.truth(other));
    }
  }

  /** Every path the client asks for is one the server answers under that key alone. */
  lemma PathIsServed(names: KeyHash, key: string)
    requires IsHexDigest(names(key))
    ensures KeyOfPath(Path(names, key)) == Some(names(key)) && Path(names, key) != "/health"
  {
    var path, name := Path(names, key), names(key);
    assert path[5..] == name && path[..5] == "/cas/";
    assert IsHex(name[63]) && path[68] == name[63];
  }

  /** Keys in use have rows of their own on the server. */
  lemma OnServerApart(w: World)
    requires w.Fair()
    ensures InjectiveOn(OnServer(w.names), w.keys)
  {
    forall a, b | a in w.keys && b in w.keys ensures !Collide(OnServer(w.names), a, b) {
      assert !Collide(w.names, a, b);
      assert StoreKey(w.names(a))[7..] == w.names(a) && StoreKey(w.names(b))[7..] == w.names(b);
    }
  }

  /** The upload arrives whole, if it arrives. */
  predicate Whole(fate: Fate, data: Bytes) {
    fate.Cut? ==> fate.sent >= |data|
  }

  /** A lookup reaches the server as a read of the key's row, or not at all. */
  lemma LookupOnServer(hash: Hash, names: KeyHash, s: Store, key: string, env: Env)
    requires IsHexDigest(names(key))
    ensures AfterExchange(hash, s, GetRequest(names, key), env.fate, env.serverNow, env.server)
         in {s, AfterGet(s, OnServer(names)(key), env.serverNow, env.server)}
    ensures Answered(Received(s, GetRequest(names, key), env.fate, env.server))
            in {None, Found(s, OnServer(names)(key), env.server)}
  {
    PathIsServed(names, key);
  }

  /** A whole upload reaches the server as a write of the key's row, or not at all. */
  lemma UploadOnServer(hash: Hash, names: KeyHash, s: Store, key: string, data: Bytes, env: Env)
    requires IsHexDigest(names(key)) && Whole(env.fate, data)
    ensures AfterExchange(hash, s, PutRequest(names, key, data), env.fate, env.serverNow, env.server)
         in {s, AfterPut(hash, s, OnServer(names)(key), data, env.serverNow, env.server)}
  {
    PathIsServed(names, key);
    var req := Arriving(PutRequest(names, key, data), env.fate);
    assert ReadBody(req.declared, req.stream) == data;
  }

  lemma LookupKeepsServerSound(w: World, server: Store, key: string, env: Env)
    requires w.Fair() && key in w.keys && Sound(w, server, OnServer(w.names))
    ensures Sound(w, AfterExchange(w.hash, server, GetRequest(w.names, key), env.fate, env.serverNow, env.server),
                  OnServer(w.names))
    ensures Answered(Received(server, GetRequest(w.names, key), env.fate, env.server)) in {None, Some(w.truth(key))}
  {
    Named(w, key);
    LookupOnServer(w.hash, w.names, server, key, env);
    SoundGet(w, server, OnServer(w.names), OnServer(w.names)(key), env.serverNow, env.server);
    SoundFound(w, server, OnServer(w.names), key, env.server);
  }

  /** An upload of which only a part arrives, and which the server's index takes. */
  predicate Poisons(env: Env, data: Bytes) {
    env.fate.Cut? && env.fate.sent < |data| && !env.server.index
  }

  /** What the server makes of a cut upload: the row of the key, for the part that arrived. */
  lemma StumpOnServer(hash: Hash, names: KeyHash, s: Store, key: string, data: Bytes, env: Env)
    requires IsHexDigest(names(key)) && !Whole(env.fate, data)
    ensures AfterExchange(hash, s, PutRequest(names, key, data), env.fate, env.serverNow, env.server)
         == AfterPut(hash, s, OnServer(names)(key), data[..env.fate.sent], env.serverNow, env.server)
  {
    PathIsServed(names, key);
    var stump := data[..env.fate.sent];
    assert ReadBody(|data|, stump) == stump;
  }

  /** A part of a key's value under its name leaves the store sound exactly when no row is written. */
  lemma StumpSoundIff(w: World, s: Store, nameOf: string -> string, key: string, sent: nat, now: real, faults: Faults)
    requires w.Fair() && key in w.keys && Sound(w, s, nameOf) && sent < |w.truth(key)|
    ensures Sound(w, AfterPut(w.hash, s, nameOf(key), w.truth(key)[..sent], now, faults), nameOf) <==> faults.index
  {
    var stump := w.truth(key)[..sent];
    var t := AfterPut(w.hash, s, nameOf(key), stump, now, faults);
    PartIsValue(w, key, sent);
    TruthIsValue(w, key);
    if faults.index {
      forall other | other in w.keys ensures RowTrue(w.hash, t, nameOf(other), w.truth(other)) {
        assert RowTrue(w.hash, s, nameOf(other), w.truth(other));
      }
    } else {
      assert !Collide(w.hash, stump, w.truth(key));
      assert !RowTrue(w.hash, t, nameOf(key), w.truth(key));
    }
  }

  /** An upload of the truth keeps the server sound exactly when it does not poison it. */
  lemma UploadSoundIff(w: World, server: Store, key: string, env: Env)
    requires w.Fair() && key in w.keys && Sound(w, server, OnServer(w.names))
    ensures var put := PutRequest(w.names, key, w.truth(key));
            Sound(w, AfterExchange(w.hash, server, put, env.fate, env.serverNow, env.server), OnServer(w.names))
            <==> !Poisons(env, w.truth(key))
  {
    Named(w, key);
    if Whole(env.fate, w.truth(key)) {
      UploadOnServer(w.hash, w.names, server, key, w.truth(key), env);
      OnServerApart(w);
      SoundPut(w, server, OnServer(w.names), key, env.serverNow, env.server);
    } else {
      StumpOnServer(w.hash, w.names, server, key, w.truth(key), env);
      StumpSoundIff(w, server, OnServer(w.names), key, env.fate.sent, env.serverNow, env.server);
    }
  }

  ghost predicate ClientSound(w: World, c: Client) {
    c.local.Some? ==> Sound(w, c.local.value, Itself())
  }

  ghost predicate FleetSound(w: World, f: Fleet) {
    && Sound(w, f.server, OnServer(w.names))
    && forall c {:trigger ClientSound(w, c)} | c in f.clients :: ClientSound(w, c)
  }

  /** What a lookup finds, on a sound machine of a sound fleet, is the truth or nothing. */
  lemma RawIsTrue(w: World, c: Client, server: Store, key: string, env: Env)
    requires w.Fair() && key in w.keys && Sound(w, server, OnServer(w.names)) && ClientSound(w, c)
    ensures Raw(c, server, w.names, key, env) in {None, Some(w.truth(key))}
  {
    if c.local.Some? {
      SoundFound(w, c.local.value, Itself(), key, env.read);
    }
    LookupKeepsServerSound(w, server, key, env);
  }

  lemma ItselfApart(w: World)
    ensures InjectiveOn(Itself(), w.keys) && forall key :: Itself()(key) == key
  {
    forall a, b | a in w.keys && b in w.keys ensures !Collide(Itself(), a, b) {
    }
  }

  lemma GetKeepsClientSound(w: World, c: Client, server: Store, key: string, env: Env)
    requires w.Fair() && key in w.keys && Sound(w, server, OnServer(w.names)) && ClientSound(w, c)
    ensures ClientSound(w, ClientAfterGet(w.hash, w.names, c, server, key, env))
  {
    RawIsTrue(w, c, server, key, env);
    if c.local.Some? {
      ItselfApart(w);
      SoundGet(w, c.local.value, Itself(), key, env.now, env.read);
      SoundPut(w, c.local.value, Itself(), key, env.now, env.write);
    }
  }

  lemma PutKeepsClientSound(w: World, c: Client, server: Store, key: string, env: Env)
    requires w.Fair() && key in w.keys && ClientSound(w, c)
    ensures ClientSound(w, ClientAfterPut(w.hash, w.names, c, server, key, w.truth(key), env))
  {
    if c.local.Some? {
      ItselfApart(w);
      SoundPut(w, c.local.value, Itself(), key, env.now, env.write);
    }
  }

  /** A machine with a client of the server uploads, and only a part is stored. */
  predicate Harmful(truth: Truth, f: Fleet, step: Step) {
    step.PutAt? && step.who < |f.clients| && f.clients[step.who].remote.Some? && Poisons(step.env, truth(step.key))
  }

  lemma ServedSoundIff(w: World, c: Client, server: Store, step: Step)
    requires w.Fair() && step.Within(w.keys) && Sound(w, server, OnServer(w.names)) && !step.EvictOnServer?
    ensures Sound(w, Served(w, c, server, step), OnServer(w.names))
       <==> !(step.PutAt? && c.remote.Some? && Poisons(step.env, w.truth(step.key)))
  {
    match step
    case GetAt(_, key, env) => LookupKeepsServerSound(w, server, key, env);
    case PutAt(_, key, env) => UploadSoundIff(w, server, key, env);
    case EvictAt(_, _, _, _) =>
  }

  lemma MovedIsSound(w: World, c: Client, server: Store, step: Step)
    requires w.Fair() && step.Within(w.keys) && Sound(w, server, OnServer(w.names)) && ClientSound(w, c)
    requires !step.EvictOnServer?
    ensures ClientSound(w, Moved(w, c, server, step))
  {
    match step
    case EvictAt(_, gone, stuck, halfway) =>
      if c.local.Some? {
        SoundEvicted(w, c.local.value, Itself(), gone, stuck, halfway);
      }
    case GetAt(_, key, env) => GetKeepsClientSound(w, c, server, key, env);
    case PutAt(_, key, env) => PutKeepsClientSound(w, c, server, key, env);
  }

  /** A step of any machine, eviction or failure keeps all stores sound exactly when it is not a
      harmful one. */
  lemma NextIsSoundIff(w: World, f: Fleet, step: Step)
    requires w.Fair() && step.Within(w.keys) && FleetSound(w, f)
    ensures FleetSound(w, Next(w, f, step)) <==> !Harmful(w.truth, f, step)
  {
    if step.EvictOnServer? {
      SoundEvicted(w, f.server, OnServer(w.names), step.gone, step.stuck, step.halfway);
    } else if step.who < |f.clients| {
      var c := f.clients[step.who];
      assert ClientSound(w, c);
      ServedSoundIff(w, c, f.server, step);
      MovedIsSound(w, c, f.server, step);
    }
  }

  /** Who has a client of the server stays the same. */
  ghost predicate SameMachines(f: Fleet, g: Fleet) {
    && |g.clients| == |f.clients|
    && forall i | 0 <= i < |f.clients| :: g.clients[i].remote.Some? == f.clients[i].remote.Some?
  }

  lemma {:induction false} MachinesStay(w: World, f: Fleet, steps: seq<Step>)
    ensures SameMachines(f, Run(w, f, steps))
    decreases |steps|
  {
    if steps == [] {
    } else {
      MachinesStay(w, f, steps[..|steps| - 1]);
    }
  }

  /** The steps use the keys of the world, and none is harmful. */
  ghost predicate Harmless(w: World, f: Fleet, steps: seq<Step>) {
    forall step <- steps :: step.Within(w.keys) && !Harmful(w.truth, f, step)
  }

  lemma {:induction false} RunsStaySound(w: World, f: Fleet, steps: seq<Step>)
    requires w.Fair() && FleetSound(w, f) && Harmless(w, f, steps)
    ensures FleetSound(w, Run(w, f, steps))
    decreases |steps|
  {
    if steps == [] {
    } else {
      var before, last := steps[..|steps| - 1], steps[|steps| - 1];
      RunsStaySound(w, f, before);
      MachinesStay(w, f, before);
      assert last in steps;
      OneMoreSound(w, f, Run(w, f, before), last);
    }
  }

  lemma OneMoreSound(w: World, f: Fleet, g: Fleet, step: Step)
    requires w.Fair() && step.Within(w.keys) && FleetSound(w, g)
    requires SameMachines(f, g) && !Harmful(w.truth, f, step)
    ensures FleetSound(w, Next(w, g, step))
  {
    NextIsSoundIff(w, g, step);
  }

  function Encoded<R>(encode: R -> Bytes, results: string -> R): Truth {
    (key: string) => encode(results(key))
  }

  /** What the detectors yield for the keys in use survives encoding. */
  ghost predicate DecodesBack<R>(encode: R -> Bytes, decode: Bytes -> Option<R>, results: string -> R,
                                 keys: set<string>)
  {
    forall key <- keys :: decode(encode(results(key))) == Some(results(key))
  }

  /** Whatever happened before, on whichever machines: a lookup misses or yields the result the
      detectors would yield. It never fails to decode. */
  lemma {:induction false} EveryHitIsTrue<R(!new)>(w: World, results: string -> R, encode: R -> Bytes,
                                                   decode: Bytes -> Option<R>, f: Fleet, steps: seq<Step>, who: nat,
                                                   key: string, env: Env)
    requires w.Fair() && w.truth == Encoded(encode, results) && DecodesBack(encode, decode, results, w.keys)
    requires IsFresh(f) && who < |f.clients| && key in w.keys && Harmless(w, f, steps)
    ensures var g := Run(w, f, steps);
            |g.clients| == |f.clients|
            && Decoded(decode, Raw(g.clients[who], g.server, w.names, key, env)) in {Miss, Hit(results(key))}
  {
    FreshIsSound(w, f);
    RunsStaySound(w, f, steps);
    MachinesStay(w, f, steps);
    var g := Run(w, f, steps);
    assert ClientSound(w, g.clients[who]);
    RawIsTrue(w, g.clients[who], g.server, key, env);
    assert decode(encode(results(key))) == Some(results(key));
  }

  lemma FreshIsSound(w: World, f: Fleet)
    requires IsFresh(f)
    ensures FleetSound(w, f)
  {
  }

  // ---- the counters add up --------------------------------------------------------------------

  function Lookups(steps: seq<Step>, who: nat): nat {
    if steps == [] then 0
    else
      var last := steps[|steps| - 1];
      Lookups(steps[..|steps| - 1], who) + (if last.GetAt? && last.who == who then 1 else 0)
  }

  function Stores(steps: seq<Step>, who: nat): nat {
    if steps == [] then 0
    else
      var last := steps[|steps| - 1];
      Stores(steps[..|steps| - 1], who) + (if last.PutAt? && last.who == who then 1 else 0)
  }

  predicate Balanced(c: Client, lookups: nat, stores: nat) {
    && c.tally.hits == c.tally.localHits + c.tally.remoteHits
    && lookups == c.tally.hits + c.tally.misses
    && stores == c.tally.stores
    && c.tally.remoteHits == (if c.remote.Some? then c.remote.value.hits else 0)
    && (c.remote.Some? ==> c.tally.misses <= c.remote.value.misses + c.remote.value.errors <= c.tally.misses + stores)
  }

  lemma {:induction false} CountersBalance(w: World, f: Fleet, steps: seq<Step>, who: nat)
    requires IsFresh(f) && who < |f.clients|
    ensures |Run(w, f, steps).clients| == |f.clients|
    ensures Balanced(Run(w, f, steps).clients[who], Lookups(steps, who), Stores(steps, who))
    decreases |steps|
  {
    if steps == [] {
      assert f.clients[who] in f.clients;
    } else {
      var before, last := steps[..|steps| - 1], steps[|steps| - 1];
      CountersBalance(w, f, before, who);
      NextBalances(w, Run(w, f, before), last, who, Lookups(before, who), Stores(before, who));
    }
  }

  lemma NextBalances(w: World, g: Fleet, step: Step, who: nat, lookups: nat, stores: nat)
    requires who < |g.clients| && Balanced(g.clients[who], lookups, stores)
    ensures var h := Next(w, g, step);
            |h.clients| == |g.clients|
            && Balanced(h.clients[who], lookups + (if step.GetAt? && step.who == who then 1 else 0),
                        stores + (if step.PutAt? && step.who == who then 1 else 0))
  {
    if !step.EvictOnServer? && step.who == who {
      TallyStep(w, g.clients[who], g.server, step, lookups, stores);
    }
  }

  lemma TallyStep(w: World, c: Client, server: Store, step: Step, lookups: nat, stores: nat)
    requires !step.EvictOnServer? && Balanced(c, lookups, stores)
    ensures Balanced(Moved(w, c, server, step), lookups + (if step.GetAt? then 1 else 0),
                     stores + (if step.PutAt? then 1 else 0))
  {
  }

  // ---- what one machine stores, the others find -------------------------------------------------

  ghost predicate Present(hash: Hash, s: Store, name: string, value: Bytes) {
    name in s.entries && s.entries[name].digest == hash(value) && hash(value) in s.blobs
  }

  lemma PresentIsFound(w: World, s: Store, name: string, value: Bytes)
    requires w.Fair() && value in w.values && Held(w, s.blobs) && Present(w.hash, s, name, value)
    ensures Found(s, name, NO_FAULTS) == Some(value)
  {
    assert !Collide(w.hash, s.blobs[w.hash(value)], value);
  }

  lemma UploadIsPresent(hash: Hash, names: KeyHash, s: Store, key: string, data: Bytes, env: Env)
    requires IsHexDigest(names(key)) && env.fate in {Delivered, ReplyLost} && env.server == NO_FAULTS
    ensures Present(hash, AfterExchange(hash, s, PutRequest(names, key, data), env.fate, env.serverNow, env.server),
                    OnServer(names)(key), data)
  {
    PathIsServed(names, key);
    assert ReadBody(|data|, data) == data;
  }

  /** A put under another key, or one that stores no row, leaves what is present. */
  lemma PresentStays(hash: Hash, s: Store, name: string, value: Bytes, other: string, data: Bytes, now: real,
                     faults: Faults)
    requires Present(hash, s, name, value) && (name != other || data == value || faults.index)
    ensures Present(hash, AfterPut(hash, s, other, data, now, faults), name, value)
  {
  }

  /** Nothing but an eviction on the server or a harmful upload undoes an upload. */
  lemma ServedStaysPresent(w: World, c: Client, server: Store, step: Step, key: string)
    requires w.Fair() && key in w.keys && step.Within(w.keys) && !step.EvictOnServer?
    requires !(step.PutAt? && c.remote.Some? && step.key == key && Poisons(step.env, w.truth(step.key)))
    requires Present(w.hash, server, OnServer(w.names)(key), w.truth(key))
    ensures Present(w.hash, Served(w, c, server, step), OnServer(w.names)(key), w.truth(key))
  {
    if step.GetAt? {
      Named(w, step.key);
      LookupOnServer(w.hash, w.names, server, step.key, step.env);
    } else if step.PutAt? && c.remote.Some? {
      UploadedStaysPresent(w, server, step.key, step.env, key);
    }
  }

  lemma UploadedStaysPresent(w: World, server: Store, other: string, env: Env, key: string)
    requires w.Fair() && key in w.keys && other in w.keys && !(other == key && Poisons(env, w.truth(key)))
    requires Present(w.hash, server, OnServer(w.names)(key), w.truth(key))
    ensures Present(w.hash, AfterExchange(w.hash, server, PutRequest(w.names, other, w.truth(other)), env.fate,
                                          env.serverNow, env.server), OnServer(w.names)(key), w.truth(key))
  {
    var data := w.truth(other);
    var sent := if Whole(env.fate, data) then data else data[..env.fate.sent];
    Named(w, other);
    OnServerApart(w);
    assert !Collide(OnServer(w.names), key, other);
    PresentStays(w.hash, server, OnServer(w.names)(key), w.truth(key), OnServer(w.names)(other), sent, env.serverNow,
                 env.server);
    if Whole(env.fate, data) {
      UploadOnServer(w.hash, w.names, server, other, data, env);
    } else {
      StumpOnServer(w.hash, w.names, server, other, data, env);
    }
  }

  lemma {:induction false} RunStaysPresent(w: World, f: Fleet, steps: seq<Step>, key: string)
    requires w.Fair() && key in w.keys && Present(w.hash, f.server, OnServer(w.names)(key), w.truth(key))
    requires Harmless(w, f, steps) && forall step <- steps :: !step.EvictOnServer?
    ensures Present(w.hash, Run(w, f, steps).server, OnServer(w.names)(key), w.truth(key))
    decreases |steps|
  {
    if steps == [] {
    } else {
      var before, last := steps[..|steps| - 1], steps[|steps| - 1];
      RunStaysPresent(w, f, before, key);
      MachinesStay(w, f, before);
      var g := Run(w, f, before);
      assert last in steps;
      if last.who < |g.clients| {
        ServedStaysPresent(w, g.clients[last.who], g.server, last, key);
      }
    }
  }

  /** Once an upload has reached the server, every machine whose exchange gets through finds the
      value, whatever else happens short of an eviction there and a harmful upload. */
  lemma {:induction false} SharedWithAll(w: World, f: Fleet, upload: Step, steps: seq<Step>, who: nat, env: Env)
    requires w.Fair() && FleetSound(w, f)
    requires upload.PutAt? && upload.key in w.keys
    requires upload.who < |f.clients| && f.clients[upload.who].remote.Some?
    requires upload.env.fate in {Delivered, ReplyLost} && upload.env.server == NO_FAULTS
    requires Harmless(w, f, steps) && forall step <- steps :: !step.EvictOnServer?
    requires env.fate == Delivered && env.server == NO_FAULTS
    ensures var g := Run(w, Next(w, f, upload), steps);
            who < |g.clients| && g.clients[who].remote.Some? ==>
              Raw(g.clients[who], g.server, w.names, upload.key, env) == Some(w.truth(upload.key))
  {
    var f1 := Next(w, f, upload);
    NextIsSoundIff(w, f, upload);
    assert SameMachines(f, f1) && Harmless(w, f1, steps);
    Named(w, upload.key);
    RunsStaySound(w, f1, steps);
    UploadIsPresent(w.hash, w.names, f.server, upload.key, w.truth(upload.key), upload.env);
    RunStaysPresent(w, f1, steps, upload.key);
    var g := Run(w, f1, steps);
    if who < |g.clients| && g.clients[who].remote.Some? {
      assert ClientSound(w, g.clients[who]);
      PresentReachesAll(w, g.clients[who], g.server, upload.key, env);
    }
  }

  lemma PresentReachesAll(w: World, c: Client, server: Store, key: string, env: Env)
    requires w.Fair() && key in w.keys && Sound(w, server, OnServer(w.names)) && ClientSound(w, c)
    requires Present(w.hash, server, OnServer(w.names)(key), w.truth(key))
    requires c.remote.Some? && env.fate == Delivered && env.server == NO_FAULTS
    ensures Raw(c, server, w.names, key, env) == Some(w.truth(key))
  {
    RawIsTrue(w, c, server, key, env);
    Named(w, key);
    PathIsServed(w.names, key);
    TruthIsValue(w, key);
    PresentIsFound(w, server, OnServer(w.names)(key), w.truth(key));
  }

  // ---- a cut upload ---------------------------------------------------------------------------------

  /** The server stores whatever part of a body arrives. A cut upload keeps the cache sound
      exactly when it cuts nothing off, and otherwise the next lookup is served the stump. */
  lemma CutUploadPoisons(w: World, s: Store, key: string, sent: nat, now: real)
    requires w.Fair() && key in w.keys && Sound(w, s, OnServer(w.names))
    ensures var t := AfterExchange(w.hash, s, PutRequest(w.names, key, w.truth(key)), Cut(sent), now, NO_FAULTS);
            && (Sound(w, t, OnServer(w.names)) <==> sent >= |w.truth(key)|)
            && (sent < |w.truth(key)| ==>
                  Received(t, GetRequest(w.names, key), Delivered, NO_FAULTS) == Reply(200, w.truth(key)[..sent]))
  {
    var env := Env(now, NO_FAULTS, NO_FAULTS, Cut(sent), now, NO_FAULTS);
    UploadSoundIff(w, s, key, env);
    if sent < |w.truth(key)| {
      Named(w, key);
      StumpOnServer(w.hash, w.names, s, key, w.truth(key), env);
      StumpIsServed(w, s, key, sent, now);
    }
  }

  lemma StumpIsServed(w: World, s: Store, key: string, sent: nat, now: real)
    requires w.Fair() && key in w.keys && Held(w, s.blobs) && sent < |w.truth(key)|
    ensures var t := AfterPut(w.hash, s, OnServer(w.names)(key), w.truth(key)[..sent], now, NO_FAULTS);
            Received(t, GetRequest(w.names, key), Delivered, NO_FAULTS) == Reply(200, w.truth(key)[..sent])
  {
    var stump := w.truth(key)[..sent];
    var t := AfterPut(w.hash, s, OnServer(w.names)(key), stump, now, NO_FAULTS);
    Named(w, key);
    PathIsServed(w.names, key);
    PartIsValue(w, key, sent);
    PresentIsFound(w, t, OnServer(w.names)(key), stump);
  }

  // ---- a world, and a cut upload in it -----------------------------------------------------------------

  /** A text as long as the value stands for its digest. */
  function LengthDigest(data: Bytes): string {
    seq(|data|, _ => 'x')
  }

  function Digits(c: char): string {
    seq(64, _ => c)
  }

  function TwoNames(key: string): string {
    if key == "a" then Digits('a') else Digits('b')
  }

  function SmallTruth(key: string): Bytes {
    if key == "a" then [7, 7] else [7]
  }

  /** Two keys, with values of two bytes and of one. */
  const SMALL: World := World(LengthDigest, TwoNames, SmallTruth, {"a", "b"}, {[], [7], [7, 7]})

  lemma SmallIsFair()
    ensures SMALL.Fair()
  {
    assert Digits('a')[0] == 'a' && Digits('b')[0] == 'b';
    assert IsHexDigest(Digits('a')) && IsHexDigest(Digits('b'));
    forall v, u | v in SMALL.values && u in SMALL.values ensures !Collide(SMALL.hash, v, u) {
      assert |LengthDigest(v)| == |v| && |LengthDigest(u)| == |u|;
    }
    forall key | key in SMALL.keys ensures SMALL.Apt(key) {
      SmallParts(key);
    }
  }

  lemma SmallParts(key: string)
    ensures PartsIn(SmallTruth(key), {[], [7], [7, 7]})
  {
    assert [7, 7][..0] == [] && [7, 7][..1] == [7] && [7, 7][..2] == [7, 7];
    assert [7][..0] == [] && [7][..1] == [7];
  }

  const CALM := Env(0.0, NO_FAULTS, NO_FAULTS, Delivered, 0.0, NO_FAULTS)

  /** Two machines without local stores. */
  const REMOTE_ONLY := Client(None, Some(Remote(0, 0, 0)), NO_TALLY)

  const PAIR := Fleet([REMOTE_ONLY, REMOTE_ONLY], EMPTY)

  /** One machine's upload of a value is cut short, and the other machine's lookup yields the part
      that arrived. */
  lemma PairReads(w: World, key: string, sent: nat)
    requires w.Fair() && key in w.keys && sent < |w.truth(key)|
    ensures var g := Next(w, PAIR, PutAt(0, key, CALM.(fate := Cut(sent))));
            |g.clients| == 2 && Raw(g.clients[1], g.server, w.names, key, CALM) == Some(w.truth(key)[..sent])
  {
    var g := Next(w, PAIR, PutAt(0, key, CALM.(fate := Cut(sent))));
    assert g.clients[1] == PAIR.clients[1];
    Named(w, key);
    StumpOnServer(w.hash, w.names, EMPTY, key, w.truth(key), CALM.(fate := Cut(sent)));
    StumpIsServed(w, EMPTY, key, sent, 0.0);
  }

  /** The failing input: of a value of two bytes the other machine is served one. */
  lemma CutUploadIsShared()
    ensures var g := Next(SMALL, PAIR, PutAt(0, "a", CALM.(fate := Cut(1))));
            && |g.clients| == 2 && Raw(g.clients[1], g.server, SMALL.names, "a", CALM) == Some([7])
            && SMALL.truth("a") == [7, 7]
  {
    SmallIsFair();
    assert SmallTruth("a")[..1] == [7];
    PairReads(SMALL, "a", 1);
  }
}
