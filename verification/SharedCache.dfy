// Detector results behind two cache tiers.
module SharedCache {
  // One key, a local store, an HTTP server shared by many machines, and a network that may lose
  // either half of an exchange.

  import opened Basics
  import opened LocalCache

  // ---- the server ------------------------------------------------------------------------

  datatype Verb = GET | HEAD | PUT | OtherVerb

  datatype Reply = Reply(status: nat, body: Bytes)

  /** A request as the server sees it: the declared body length (0 if missing or not a number)
      and the bytes that arrive. */
  datatype Request = Request(verb: Verb, path: string, declared: int, stream: Bytes)

  predicate IsHex(c: char) {
    '0' <= c <= '9' || 'a' <= c <= 'f'
  }

  predicate IsHexDigest(s: string) {
    |s| == 64 && forall c <- s :: IsHex(c)
  }

  /** `^/cas/([0-9a-f]{64})$`, where `$` also matches before a final newline. */
  function KeyOfPath(path: string): Option<string> {
    var p := if path != "" && path[|path| - 1] == '\n' then path[..|path| - 1] else path;
    if |p| == 69 && p[..5] == "/cas/" && IsHexDigest(p[5..]) then Some(p[5..]) else None
  }

  function ReadBody(declared: int, stream: Bytes): Bytes {
    if declared <= 0 then [] else stream[..if declared <= |stream| then declared else |stream|]
  }

  function StoreKey(hex: string): string {
    "remote:" + hex
  }

  function ReplyTo(s: Store, req: Request, faults: Faults): Reply {
    var key := KeyOfPath(req.path);
    if req.path == "/health" then Reply(200, [0x6f, 0x6b])
    else if key.None? then Reply(404, [])
    else
      match req.verb
      case GET =>
        (match Found(s, StoreKey(key.value), faults) case None => Reply(404, []) case Some(v) => Reply(200, v))
      case HEAD => Reply(if Found(s, StoreKey(key.value), faults).Some? then 200 else 404, [])
      case PUT => Reply(204, [])
      case OtherVerb => Reply(405, [])
  }

  function AfterRequest(hash: Hash, s: Store, req: Request, now: real, faults: Faults): Store {
    var key := KeyOfPath(req.path);
    if req.path == "/health" || key.None? then s
    else
      match req.verb
      case GET => AfterGet(s, StoreKey(key.value), now, faults)
      case HEAD => AfterGet(s, StoreKey(key.value), now, faults)
      case PUT => AfterPut(hash, s, StoreKey(key.value), ReadBody(req.declared, req.stream), now, faults)
      case OtherVerb => s
  }

  const ALL_FAULTS := Faults(true, true, true)

  /** A store that could not be opened behaves as one whose every access fails. */
  function Effective(available: bool, faults: Faults): Faults {
    if available then faults else ALL_FAULTS
  }

  class CasServer {
    const cas: Cas

    constructor (cas: Cas)
      ensures this.cas == cas
    {
      this.cas := cas;
    }

    method Handle(req: Request, now: real, faults: Faults) returns (reply: Reply)
      modifies cas
      ensures cas.available == old(cas.available)
      ensures reply == ReplyTo(old(cas.View()), req, Effective(cas.available, faults))
      ensures cas.View() == AfterRequest(cas.hash, old(cas.View()), req, now, Effective(cas.available, faults))
    {
      var key := KeyOfPath(req.path);
      if req.path == "/health" {
        return Reply(200, [0x6f, 0x6b]);
      }
      if key.None? {
        return Reply(404, []);
      }
      var storeKey := StoreKey(key.value);
      if req.verb == GET || req.verb == HEAD {
        var blob := cas.Get(storeKey, now, faults);
        if blob.None? {
          return Reply(404, []);
        }
        return Reply(200, if req.verb == HEAD then [] else blob.value);
      }
      if req.verb == PUT {
        cas.Put(storeKey, ReadBody(req.declared, req.stream), now, faults);
        return Reply(204, []);
      }
      return Reply(405, []);
    }
  }

  /** The paths that name a key: 64 hexadecimal digits, and perhaps a newline. */
  lemma KeyPathIff(path: string, hex: string)
    ensures KeyOfPath(path) == Some(hex)
       <==> |hex| == 64 && (forall c <- hex :: c in "0123456789abcdef")
            && (path == "/cas/" + hex || path == "/cas/" + hex + "\n")
  {
    HexDigits(hex);
    if IsHexDigest(hex) && (path == "/cas/" + hex || path == "/cas/" + hex + "\n") {
      assert ("/cas/" + hex)[68] == hex[63] && hex[63] in hex;
      assert ("/cas/" + hex + "\n")[..69] == "/cas/" + hex;
    }
    if KeyOfPath(path) == Some(hex) {
      assert path[..5] + path[5..] == path;
    }
  }

  lemma HexDigits(hex: string)
    ensures (forall c <- hex :: IsHex(c)) <==> forall c <- hex :: c in "0123456789abcdef"
  {
    forall c ensures IsHex(c) <==> c in "0123456789abcdef" {
      OneHexDigit(c);
    }
  }

  lemma OneHexDigit(c: char)
    ensures IsHex(c) <==> c in "0123456789abcdef"
  {
    var digits := "0123456789abcdef";
    if IsHex(c) {
      assert digits[if c <= '9' then c as int - '0' as int else c as int - 'a' as int + 10] == c;
    }
  }

  /** What is uploaded in full is served afterwards. */
  lemma UploadedIsServed(hash: Hash, s: Store, hex: string, data: Bytes, now: real)
    requires KeyOfPath("/cas/" + hex) == Some(hex) && (hash(data) in s.blobs ==> s.blobs[hash(data)] == data)
    ensures var put := Request(PUT, "/cas/" + hex, |data|, data);
            var t := AfterRequest(hash, s, put, now, NO_FAULTS);
            && ReplyTo(s, put, NO_FAULTS) == Reply(204, [])
            && ReplyTo(t, Request(GET, "/cas/" + hex, 0, []), NO_FAULTS) == Reply(200, data)
            && ReplyTo(t, Request(HEAD, "/cas/" + hex, 0, []), NO_FAULTS) == Reply(200, [])
  {
    NotHealth(hex);
    assert data[..|data|] == data;
  }

  lemma NotHealth(hex: string)
    ensures "/cas/" + hex != "/health"
  {
    assert ("/cas/" + hex)[1] == 'c' && "/health"[1] == 'h';
  }

  /** What is not stored is not found. */
  lemma AbsentIsNotFound(s: Store, hex: string, verb: Verb, faults: Faults)
    requires KeyOfPath("/cas/" + hex) == Some(hex) && StoreKey(hex) !in s.entries && (verb == GET || verb == HEAD)
    ensures ReplyTo(s, Request(verb, "/cas/" + hex, 0, []), faults) == Reply(404, [])
  {
    NotHealth(hex);
  }

  /** A request touches the row of the key its path names and no other, and none where it names no
      key or the verb is neither a read nor an upload. */
  lemma OtherRowsStay(hash: Hash, s: Store, req: Request, now: real, faults: Faults, key: string)
    requires KeyOfPath(req.path).None? || req.verb == OtherVerb || key != StoreKey(KeyOfPath(req.path).value)
    ensures var t := AfterRequest(hash, s, req, now, faults);
            (key in t.entries <==> key in s.entries) && (key in t.entries ==> t.entries[key] == s.entries[key])
  {
  }

  // ---- the wire --------------------------------------------------------------------------------

  type NotOk = s: nat | s != 200 witness 0

  /** What becomes of one exchange: answered; never sent; sent but the answer lost; answered by
      something else with a failure; or an upload cut off after some bytes. */
  datatype Fate = Delivered | Lost | ReplyLost | Refused(status: NotOk) | Cut(sent: nat)

  function Arriving(req: Request, fate: Fate): Request {
    if fate.Cut? then req.(stream := if fate.sent < |req.stream| then req.stream[..fate.sent] else req.stream) else req
  }

  function Received(s: Store, req: Request, fate: Fate, faults: Faults): Reply {
    match fate
    case Delivered => ReplyTo(s, req, faults)
    case Refused(status) => Reply(status, [])
    case _ => Reply(0, [])
  }

  function AfterExchange(hash: Hash, s: Store, req: Request, fate: Fate, now: real, faults: Faults): Store {
    if fate.Lost? || fate.Refused? then s else AfterRequest(hash, s, Arriving(req, fate), now, faults)
  }

  method Exchange(server: CasServer, req: Request, fate: Fate, now: real, faults: Faults) returns (reply: Reply)
    modifies server.cas
    ensures server.cas.available == old(server.cas.available)
    ensures reply == Received(old(server.cas.View()), req, fate, Effective(server.cas.available, faults))
    ensures server.cas.View()
         == AfterExchange(server.cas.hash, old(server.cas.View()), req, fate, now,
            Effective(server.cas.available, faults))
  {
    if fate.Lost? {
      return Reply(0, []);
    }
    if fate.Refused? {
      return Reply(fate.status, []);
    }
    reply := server.Handle(Arriving(req, fate), now, faults);
    if fate.ReplyLost? || fate.Cut? {
      reply := Reply(0, []);
    }
  }

  // ---- the client of the server ----------------------------------------------------------------

  /** The digest that stands for a cache key in a URL. */
  type KeyHash = string -> string

  function Path(names: KeyHash, key: string): string {
    "/cas/" + names(key)
  }

  function GetRequest(names: KeyHash, key: string): Request {
    Request(GET, Path(names, key), 0, [])
  }

  function PutRequest(names: KeyHash, key: string, data: Bytes): Request {
    Request(PUT, Path(names, key), |data|, data)
  }

  datatype Remote = Remote(hits: nat, misses: nat, errors: nat)

  function AfterReply(r: Remote, reply: Reply): Remote {
    if reply.status == 200 then r.(hits := r.hits + 1)
    else if reply.status == 404 then r.(misses := r.misses + 1)
    else r.(errors := r.errors + 1)
  }

  predicate Stored(reply: Reply) {
    reply.status == 200 || reply.status == 201 || reply.status == 204
  }

  function AfterStore(r: Remote, reply: Reply): Remote {
    if Stored(reply) then r else r.(errors := r.errors + 1)
  }

  /** Everything outside the program's control during one call. */
  datatype Env = Env(now: real, read: Faults, write: Faults, fate: Fate, serverNow: real, server: Faults)

  class RemoteCas {
    const server: CasServer
    const names: KeyHash
    var hits: nat
    var misses: nat
    var errors: nat

    constructor (server: CasServer, names: KeyHash)
      ensures this.server == server && this.names == names && View() == Remote(0, 0, 0)
    {
      this.server, this.names, hits, misses, errors := server, names, 0, 0, 0;
    }

    function View(): Remote
      reads this
    {
      Remote(hits, misses, errors)
    }

    ghost function ServerFaults(env: Env): Faults
      reads server.cas
    {
      Effective(server.cas.available, env.server)
    }

    ghost function ReplyFor(req: Request, env: Env): Reply
      reads server.cas
    {
      Received(server.cas.View(), req, env.fate, ServerFaults(env))
    }

    ghost function ServerAfter(req: Request, env: Env): Store
      reads server.cas
    {
      AfterExchange(server.cas.hash, server.cas.View(), req, env.fate, env.serverNow, ServerFaults(env))
    }

    method Get(key: string, env: Env) returns (data: Option<Bytes>)
      modifies this, server.cas
      ensures server.cas.available == old(server.cas.available)
      ensures View() == AfterReply(old(View()), old(ReplyFor(GetRequest(names, key), env)))
      ensures server.cas.View() == old(ServerAfter(GetRequest(names, key), env))
      ensures data == Answered(old(ReplyFor(GetRequest(names, key), env)))
    {
      var reply := Exchange(server, GetRequest(names, key), env.fate, env.serverNow, env.server);
      if reply.status == 200 {
        hits := hits + 1;
        return Some(reply.body);
      }
      if reply.status == 404 {
        misses := misses + 1;
        return None;
      }
      errors := errors + 1;
      return None;
    }

    method Put(key: string, data: Bytes, env: Env) returns (ok: bool)
      modifies this, server.cas
      ensures server.cas.available == old(server.cas.available)
      ensures View() == AfterStore(old(View()), old(ReplyFor(PutRequest(names, key, data), env)))
      ensures server.cas.View() == old(ServerAfter(PutRequest(names, key, data), env))
      ensures ok == Stored(old(ReplyFor(PutRequest(names, key, data), env)))
    {
      var reply := Exchange(server, PutRequest(names, key, data), env.fate, env.serverNow, env.server);
      if reply.status == 200 || reply.status == 201 || reply.status == 204 {
        return true;
      }
      errors := errors + 1;
      return false;
    }
  }

  function Answered(reply: Reply): Option<Bytes> {
    if reply.status == 200 then Some(reply.body) else None
  }

  // ---- the two tiers -----------------------------------------------------------------------------

  datatype Tally = Tally(hits: nat, localHits: nat, remoteHits: nat, misses: nat, stores: nat) {
    function LocalHit(): Tally {
      Tally(hits + 1, localHits + 1, remoteHits, misses, stores)
    }

    function RemoteHit(): Tally {
      Tally(hits + 1, localHits, remoteHits + 1, misses, stores)
    }

    function Miss(): Tally {
      Tally(hits, localHits, remoteHits, misses + 1, stores)
    }

    function Store(): Tally {
      Tally(hits, localHits, remoteHits, misses, stores + 1)
    }
  }

  const NO_TALLY := Tally(0, 0, 0, 0, 0)

  /** One machine: an optional local tier, an optional client of the server, and its counters. */
  datatype Client = Client(local: Option<Store>, remote: Option<Remote>, tally: Tally)

  function LocalRead(c: Client, key: string, env: Env): Option<Bytes> {
    if c.local.None? then None else Found(c.local.value, key, env.read)
  }

  function RemoteRead(c: Client, server: Store, names: KeyHash, key: string, env: Env): Option<Bytes> {
    if c.remote.None? then None else Answered(Received(server, GetRequest(names, key), env.fate, env.server))
  }

  /** What a lookup finds, before decoding. */
  function Raw(c: Client, server: Store, names: KeyHash, key: string, env: Env): Option<Bytes> {
    if LocalRead(c, key, env).Some? then LocalRead(c, key, env) else RemoteRead(c, server, names, key, env)
  }

  function LocalAfterPut(hash: Hash, local: Option<Store>, key: string, data: Bytes, env: Env): Option<Store> {
    if local.None? then None else Some(AfterPut(hash, local.value, key, data, env.now, env.write))
  }

  /** What asking the server leaves of a client, its local tier having nothing. */
  function ClientAfterRemote(hash: Hash, names: KeyHash, c: Client, server: Store, key: string, env: Env): Client {
    if c.remote.None? then c.(tally := c.tally.Miss())
    else
      var remote := Some(AfterReply(c.remote.value, Received(server, GetRequest(names, key), env.fate, env.server)));
      var found := RemoteRead(c, server, names, key, env);
      if found.None? then c.(remote := remote, tally := c.tally.Miss())
      else Client(LocalAfterPut(hash, c.local, key, found.value, env), remote, c.tally.RemoteHit())
  }

  function ClientAfterGet(hash: Hash, names: KeyHash, c: Client, server: Store, key: string, env: Env): Client {
    if LocalRead(c, key, env).Some? then
      c.(local := Some(AfterGet(c.local.value, key, env.now, env.read)), tally := c.tally.LocalHit())
    else ClientAfterRemote(hash, names, c, server, key, env)
  }

  function ServerAfterGet(hash: Hash, names: KeyHash, c: Client, server: Store, key: string, env: Env): Store {
    if LocalRead(c, key, env).Some? || c.remote.None? then server
    else AfterExchange(hash, server, GetRequest(names, key), env.fate, env.serverNow, env.server)
  }

  function ClientAfterPut(hash: Hash, names: KeyHash, c: Client, server: Store, key: string, data: Bytes,
                          env: Env): Client {
    Client(LocalAfterPut(hash, c.local, key, data, env),
           if c.remote.None? then None
           else Some(AfterStore(c.remote.value, Received(server, PutRequest(names, key, data), env.fate, env.server))),
           c.tally.Store())
  }

  function ServerAfterPut(hash: Hash, names: KeyHash, c: Client, server: Store, key: string, data: Bytes,
                          env: Env): Store {
    if c.remote.None? then server
    else AfterExchange(hash, server, PutRequest(names, key, data), env.fate, env.serverNow, env.server)
  }

  /** No other bytes are on disk under this digest. */
  predicate Clear(hash: Hash, s: Store, data: Bytes) {
    hash(data) in s.blobs ==> s.blobs[hash(data)] == data
  }

  /** What a put stored locally is what the next lookup finds there. */
  lemma PutIsFoundLocally(hash: Hash, names: KeyHash, c: Client, server: Store, key: string, data: Bytes, env: Env,
                          next: Env)
    requires c.local.Some? && Clear(hash, c.local.value, data) && env.write == NO_FAULTS && next.read == NO_FAULTS
    ensures LocalRead(ClientAfterPut(hash, names, c, server, key, data, env), key, next) == Some(data)
  {
  }

  /** And so is what a lookup fetched from the server. */
  lemma FetchedIsFoundLocally(hash: Hash, names: KeyHash, c: Client, server: Store, key: string, data: Bytes, env: Env,
                              next: Env)
    requires c.local.Some? && Clear(hash, c.local.value, data) && env.write == NO_FAULTS && next.read == NO_FAULTS
    requires LocalRead(c, key, env).None? && RemoteRead(c, server, names, key, env) == Some(data)
    ensures LocalRead(ClientAfterGet(hash, names, c, server, key, env), key, next) == Some(data)
  {
  }

  /** A lookup misses, decodes what it found, or fails to decode it. */
  datatype Outcome<+R> = Miss | Hit(result: R) | Raised

  function Decoded<R>(decode: Bytes -> Option<R>, raw: Option<Bytes>): Outcome<R> {
    if raw.None? then Miss
    else match decode(raw.value) case Some(r) => Hit(r) case None => Raised
  }

  class DetectCache<R> {
    const local: Cas?
    const remote: RemoteCas?
    const hash: Hash
    const names: KeyHash
    const encode: R -> Bytes
    const decode: Bytes -> Option<R>
    var hits: nat
    var localHits: nat
    var remoteHits: nat
    var misses: nat
    var stores: nat

    constructor (local: Cas?, remote: RemoteCas?, hash: Hash, names: KeyHash, encode: R -> Bytes,
                 decode: Bytes -> Option<R>)
      requires local != null ==> local.hash == hash
      requires remote != null ==> remote.names == names && remote.server.cas.hash == hash && remote.server.cas != local
      ensures Valid() && this.local == local && this.remote == remote && this.hash == hash && this.names == names
      ensures this.encode == encode && this.decode == decode && View().tally == NO_TALLY
    {
      this.local, this.remote, this.hash, this.names, this.encode, this.decode := local, remote, hash, names, encode,
          decode;
      hits, localHits, remoteHits, misses, stores := 0, 0, 0, 0, 0;
    }

    /** Both tiers address blobs with the same digest, and the server's store is not the local one. */
    ghost predicate Valid() {
      && (local != null ==> local.hash == hash)
      && (remote != null ==> remote.names == names && remote.server.cas.hash == hash && remote.server.cas != local)
    }

    ghost function Footprint(): set<object> {
      {this} + (if local != null then {local} else {}) + (if remote != null then {remote, remote.server.cas} else {})
    }

    ghost function View(): Client
      reads Footprint()
    {
      Client(if local != null then Some(local.View()) else None, if remote != null then Some(remote.View()) else None,
             Tally(hits, localHits, remoteHits, misses, stores))
    }

    ghost function Server(): Store
      reads Footprint()
    {
      if remote != null then remote.server.cas.View() else EMPTY
    }

    /** The environment once a store that never opened counts as failing. */
    ghost function Seen(env: Env): Env
      reads Footprint()
    {
      Env(env.now, Effective(local != null && local.available, env.read),
          Effective(local != null && local.available, env.write),
          env.fate, env.serverNow, Effective(remote != null && remote.server.cas.available, env.server))
    }

    method Get(key: string, env: Env) returns (r: Outcome<R>)
      requires Valid()
      modifies Footprint()
      ensures r == Decoded(decode, old(Raw(View(), Server(), names, key, Seen(env))))
      ensures View() == old(ClientAfterGet(hash, names, View(), Server(), key, Seen(env)))
      ensures Server() == old(ServerAfterGet(hash, names, View(), Server(), key, Seen(env)))
    {
      if local != null {
        var raw := local.Get(key, env.now, env.read);
        if raw.Some? {
          hits, localHits := hits + 1, localHits + 1;
          return Decoded(decode, raw);
        }
      }
      r := GetRemote(key, env);
    }

    /** The server's turn: a hit is written back locally. */
    method GetRemote(key: string, env: Env) returns (r: Outcome<R>)
      requires Valid()
      modifies Footprint()
      ensures r == Decoded(decode, old(RemoteRead(View(), Server(), names, key, Seen(env))))
      ensures View() == old(ClientAfterRemote(hash, names, View(), Server(), key, Seen(env)))
      ensures Server() == old(if remote == null then Server()
                              else AfterExchange(hash, Server(), GetRequest(names, key), Seen(env).fate,
                                                 Seen(env).serverNow, Seen(env).server))
    {
      if remote != null {
        var raw := remote.Get(key, env);
        if raw.Some? {
          hits, remoteHits := hits + 1, remoteHits + 1;
          if local != null {
            local.Put(key, raw.value, env.now, env.write);
          }
          return Decoded(decode, raw);
        }
      }
      misses := misses + 1;
      return Miss;
    }

    method Put(key: string, result: R, env: Env)
      requires Valid()
      modifies Footprint()
      ensures View() == old(ClientAfterPut(hash, names, View(), Server(), key, encode(result), Seen(env)))
      ensures Server() == old(ServerAfterPut(hash, names, View(), Server(), key, encode(result), Seen(env)))
    {
      var raw := encode(result);
      if local != null {
        local.Put(key, raw, env.now, env.write);
      }
      if remote != null {
        var ok := remote.Put(key, raw, env);
      }
      stores := stores + 1;
    }
  }
}
