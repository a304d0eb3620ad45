// Image references: parsing with registry defaults, and the two printed forms.
module ImageRefs {
  import opened Basics
  import opened Text

  datatype ImageRef = ImageRef(registry: string, repository: string, tag: Option<string>, digest: Option<string>)

  const HUB := "docker.io"
  const HUB_API := "registry-1.docker.io"
  const LIBRARY := "library/"

  /** A first segment that names a host. */
  predicate IsHost(first: string) {
    '.' in first || ':' in first || first == "localhost"
  }

  function ParseImageRef(ref: string): ImageRef {
    if '@' in ref then ParseName(Before(ref, '@'), Some(After(ref, '@'))) else ParseName(ref, None)
  }

  function ParseName(ref: string, digest: Option<string>): ImageRef {
    var first := Before(ref, '/');
    if '/' in ref && IsHost(first) then ParseRepository(first, After(ref, '/'), digest)
        else ParseRepository(HUB, ref, digest)
  }

  function ParseRepository(host: string, remainder: string, digest: Option<string>): ImageRef {
    var tagged := ':' in AfterLast(remainder, '/');
    var repository := if tagged then BeforeLast(remainder, ':') else remainder;
    var tag := if tagged then Some(AfterLast(remainder, ':')) else None;
    ImageRef(if host == HUB then HUB_API else host,
             if host == HUB && '/' !in repository then LIBRARY + repository else repository, tag, digest)
  }

  predicate Pinned(r: ImageRef) {
    r.digest.Some? && r.digest.value != ""
  }

  function TagOf(r: ImageRef): string {
    if r.tag.Some? && r.tag.value != "" then r.tag.value else "latest"
  }

  /** What follows the name. */
  function Suffix(r: ImageRef): string {
    if Pinned(r) then ['@'] + r.digest.value else [':'] + TagOf(r)
  }

  function Canonical(r: ImageRef): string {
    r.registry + ['/'] + (r.repository + Suffix(r))
  }

  function Familiar(r: ImageRef): string {
    var host := if r.registry == HUB_API then HUB else r.registry;
    var repo := if host == HUB && LIBRARY <= r.repository then r.repository[|LIBRARY|..] else r.repository;
    (if host == HUB then repo else host + ['/'] + repo) + Suffix(r)
  }

  /** What a printed form can carry: the tag, defaulted, or else the digest. */
  function Carried(r: ImageRef): ImageRef {
    if Pinned(r) then r.(tag := None) else ImageRef(r.registry, r.repository, Some(TagOf(r)), None)
  }

  /** The suffix is read back as the suffix. */
  predicate SuffixReadable(r: ImageRef) {
    if Pinned(r) then ':' !in AfterLast(r.repository, '/')
    else '@' !in TagOf(r) && ':' !in TagOf(r) && '/' !in TagOf(r)
  }

  predicate NameReadable(r: ImageRef) {
    && '@' !in r.registry && '@' !in r.repository && '/' !in r.registry
    && IsHost(r.registry) && r.registry != HUB
  }

  // ---- tags -----------------------------------------------------------------------------------

  /** What a repository and a tag read back as. */
  lemma TagRead(host: string, repo: string, tag: string, digest: Option<string>)
    requires host != HUB
    ensures ParseRepository(host, repo + [':'] + tag, digest) == ImageRef(host, repo, Some(tag), digest)
       <==> ':' !in tag && '/' !in tag
  {
    var s := repo + [':'] + tag;
    if '/' in tag {
      SlashInTag(repo, tag);
    } else if ':' in tag {
      LastSplit(s, ':');
      assert AfterLast(s, ':') != tag;
    } else {
      AtLast(repo, ':', tag);
      ColonInLast(repo, tag);
    }
  }

  /** With a slash in the tag, what is read as tag does not hold the slash. */
  lemma SlashInTag(repo: string, tag: string)
    requires '/' in tag
    ensures var s := repo + [':'] + tag; ':' in AfterLast(s, '/') ==> '/' !in AfterLast(s, ':')
  {
    var s := repo + [':'] + tag;
    assert '/' in s;
    if ':' in AfterLast(s, '/') {
      LastSplit(s, '/');
      LastSplit(AfterLast(s, '/'), ':');
      var seg := AfterLast(s, '/');
      assert s == (BeforeLast(s, '/') + ['/'] + BeforeLast(seg, ':')) + [':'] + AfterLast(seg, ':');
      AtLast(BeforeLast(s, '/') + ['/'] + BeforeLast(seg, ':'), ':', AfterLast(seg, ':'));
      AfterLastIsPart(seg, ':');
    }
  }

  lemma {:induction false} SegmentWithTag(head: string, seg: string, tag: string)
    requires '/' !in seg && '/' !in tag
    ensures AfterLast(head + ['/'] + (seg + [':'] + tag), '/') == seg + [':'] + tag && ':' in seg + [':'] + tag
  {
    var last := seg + [':'] + tag;
    assert last[|seg|] == ':';
    AtLast(head, '/', last);
  }

  /** The last segment ends with the tag. */
  lemma {:induction false} ColonInLast(repo: string, tag: string)
    requires '/' !in tag
    ensures ':' in AfterLast(repo + [':'] + tag, '/')
  {
    var s := repo + [':'] + tag;
    if '/' in repo {
      LastSplit(repo, '/');
      SegmentWithTag(BeforeLast(repo, '/'), AfterLast(repo, '/'), tag);
      assert s == BeforeLast(repo, '/') + ['/'] + (AfterLast(repo, '/') + [':'] + tag);
    } else {
      assert s[|repo|] == ':';
      Nowhere(s, '/');
    }
  }

  /** What a repository without a tag reads back as. */
  lemma {:induction false} NoTagRead(host: string, repo: string, digest: Option<string>)
    requires host != HUB
    ensures ParseRepository(host, repo, digest) == ImageRef(host, repo, None, digest) <==> ':' !in AfterLast(repo, '/')
  {
  }

  // ---- the canonical form ----------------------------------------------------------------------

  /** With its own host in front, a name is read as host and repository. */
  lemma HostRead(registry: string, rest: string, digest: Option<string>)
    ensures '/' !in registry && IsHost(registry) ==>
              ParseName(registry + ['/'] + rest, digest) == ParseRepository(registry, rest, digest)
    ensures '/' in registry || !IsHost(registry) || registry == HUB ==>
              ParseName(registry + ['/'] + rest, digest).registry != registry
  {
    var s := registry + ['/'] + rest;
    assert s[|registry|] == '/';
    if '/' in registry {
      FirstSplit(s, '/');
    } else {
      AtFirst(registry, '/', rest);
    }
  }

  lemma PinnedRead(r: ImageRef)
    requires Pinned(r) && '@' !in r.registry && '@' !in r.repository
    ensures ParseImageRef(Canonical(r)) == ParseName(r.registry + ['/'] + r.repository, r.digest)
  {
    var name := r.registry + ['/'] + r.repository;
    assert Canonical(r) == name + ['@'] + r.digest.value;
    assert Canonical(r)[|name|] == '@';
    AtFirst(name, '@', r.digest.value);
  }

  lemma {:induction false} EarlierSplit(name: string, rest: string, c: char)
    requires c in name
    ensures After(name + [c] + rest, c) != rest
  {
    var a, b := Before(name, c), After(name, c);
    FirstSplit(name, c);
    assert name + [c] + rest == a + [c] + (b + [c] + rest);
    AtFirst(a, c, b + [c] + rest);
    assert |b + [c] + rest| > |rest|;
  }

  lemma PinnedMisread(r: ImageRef)
    requires Pinned(r) && ('@' in r.registry || '@' in r.repository)
    ensures ParseImageRef(Canonical(r)).digest != r.digest
  {
    var name := r.registry + ['/'] + r.repository;
    var s := name + ['@'] + r.digest.value;
    assert Canonical(r) == s && s[|name|] == '@';
    EarlierSplit(name, r.digest.value, '@');
    DigestIs(s);
  }

  lemma {:induction false} DigestIs(s: string)
    requires '@' in s
    ensures ParseImageRef(s).digest == Some(After(s, '@'))
  {
  }

  /** A reference written with a host, a name and a tag is read as these three. */
  lemma HostedRead(host: string, repo: string, tag: string)
    requires '@' !in host && '/' !in host && '@' !in repo && '@' !in tag && ':' !in tag && '/' !in tag
    requires IsHost(host) && host != HUB
    ensures ParseImageRef(host + ['/'] + (repo + [':'] + tag)) == ImageRef(host, repo, Some(tag), None)
  {
    var rest := repo + [':'] + tag;
    HostRead(host, rest, None);
    TagRead(host, repo, tag, None);
    assert '@' !in host + ['/'] + rest;
  }

  /** A name and a port, a dotted name and `localhost` are hosts. */
  lemma PortRead(name: string, port: string, repo: string, tag: string)
    requires '@' !in name + port && '/' !in name + port
    requires '@' !in repo && '@' !in tag && ':' !in tag && '/' !in tag
    ensures ParseImageRef((name + [':'] + port) + ['/'] + (repo + [':'] + tag))
         == ImageRef(name + [':'] + port, repo, Some(tag), None)
  {
    var host := name + [':'] + port;
    assert host[|name|] == ':';
    forall c | c in host && c != ':' ensures c in name + port {
      assert c in name || c in port;
    }
    assert host != HUB by {
      assert ':' !in HUB;
    }
    HostedRead(host, repo, tag);
  }

  lemma DottedRead(name: string, domain: string, repo: string, tag: string)
    requires '@' !in name + domain && '/' !in name + domain && name + ['.'] + domain != "docker.io"
    requires '@' !in repo && '@' !in tag && ':' !in tag && '/' !in tag
    ensures ParseImageRef((name + ['.'] + domain) + ['/'] + (repo + [':'] + tag))
         == ImageRef(name + ['.'] + domain, repo, Some(tag), None)
  {
    var host := name + ['.'] + domain;
    assert host[|name|] == '.';
    forall c | c in host && c != '.' ensures c in name + domain {
      assert c in name || c in domain;
    }
    HostedRead(host, repo, tag);
  }

  lemma LocalhostRead(repo: string, tag: string)
    requires '@' !in repo && '@' !in tag && ':' !in tag && '/' !in tag
    ensures ParseImageRef("localhost" + ['/'] + (repo + [':'] + tag)) == ImageRef("localhost", repo, Some(tag), None)
  {
    HostedRead("localhost", repo, tag);
  }

  /** Printing in full and parsing back gives what the form can carry, exactly when the name has
      a host of its own, no stray `@`, and a suffix that can be told apart. */
  lemma CanonicalRoundTripIff(r: ImageRef)
    ensures ParseImageRef(Canonical(r)) == Carried(r) <==> NameReadable(r) && SuffixReadable(r)
  {
    if Pinned(r) {
      PinnedRoundTripIff(r);
    } else {
      TaggedRoundTripIff(r);
    }
  }

  lemma PinnedRoundTripIff(r: ImageRef)
    requires Pinned(r)
    ensures ParseImageRef(Canonical(r)) == Carried(r) <==> NameReadable(r) && SuffixReadable(r)
  {
    if '@' in r.registry || '@' in r.repository {
      PinnedMisread(r);
    } else {
      PinnedRead(r);
      HostRead(r.registry, r.repository, r.digest);
      if NameReadable(r) {
        NoTagRead(r.registry, r.repository, r.digest);
      }
    }
  }

  lemma TaggedRoundTripIff(r: ImageRef)
    requires !Pinned(r)
    ensures ParseImageRef(Canonical(r)) == Carried(r) <==> NameReadable(r) && SuffixReadable(r)
  {
    var s, tagged := Canonical(r), r.repository + [':'] + TagOf(r);
    assert s == r.registry + ['/'] + tagged;
    assert '@' in s <==> '@' in r.registry || '@' in r.repository || '@' in TagOf(r);
    if '@' !in s {
      HostRead(r.registry, tagged, None);
      if NameReadable(r) {
        TagRead(r.registry, r.repository, TagOf(r), None);
      }
    }
  }

  // ---- printing what was written -----------------------------------------------------------------

  /** A reference with a host and a tag prints as it was written, in both forms. */
  lemma HostedPrints(host: string, repo: string, tag: string)
    requires '@' !in host && '/' !in host && '@' !in repo && '@' !in tag && ':' !in tag && '/' !in tag
    requires IsHost(host) && host != HUB && host != HUB_API && tag != ""
    ensures Canonical(ParseImageRef(host + ['/'] + (repo + [':'] + tag))) == host + ['/'] + (repo + [':'] + tag)
    ensures Familiar(ParseImageRef(host + ['/'] + (repo + [':'] + tag))) == host + ['/'] + (repo + [':'] + tag)
  {
    HostedRead(host, repo, tag);
    TaggedForms(ImageRef(host, repo, Some(tag), None));
  }

  /** How a reference with a tag and a host other than the hub is printed. */
  lemma TaggedForms(r: ImageRef)
    requires r.digest.None? && r.tag.Some? && r.tag.value != ""
    ensures Canonical(r) == r.registry + ['/'] + (r.repository + [':'] + r.tag.value)
    ensures r.registry != HUB && r.registry != HUB_API ==> Familiar(r) == Canonical(r)
  {
    Regrouped(r.registry + ['/'], r.repository, [':'], r.tag.value);
    Regrouped(r.registry + ['/'], r.repository, [':'] + r.tag.value, "");
  }

  lemma Regrouped(a: string, b: string, c: string, d: string)
    ensures a + (b + (c + d)) == a + (b + c + d) && a + (b + c) == (a + b) + c
  {
  }

  /** Without a tag, `latest` is printed. */
  lemma {:induction false} UntaggedPrints(host: string, repo: string)
    requires '@' !in host && '/' !in host && '@' !in repo && ':' !in AfterLast(repo, '/')
    requires IsHost(host) && host != HUB
    ensures ParseImageRef(host + ['/'] + repo) == ImageRef(host, repo, None, None)
    ensures Canonical(ImageRef(host, repo, None, None)) == host + ['/'] + (repo + ([':'] + "latest"))
  {
    HostRead(host, repo, None);
    NoTagRead(host, repo, None);
    assert '@' !in host + ['/'] + repo;
  }

  /** So does a digest, which is kept in place of a tag. */
  lemma {:induction false} PinnedPrints(host: string, repo: string, digest: string)
    requires '@' !in host && '/' !in host && '@' !in repo && ':' !in AfterLast(repo, '/') && digest != ""
    requires IsHost(host) && host != HUB
    ensures var text := host + ['/'] + (repo + ['@'] + digest);
            ParseImageRef(text) == ImageRef(host, repo, None, Some(digest)) && Canonical(ParseImageRef(text)) == text
  {
    var r := ImageRef(host, repo, None, Some(digest));
    assert Canonical(r) == host + ['/'] + (repo + ['@'] + digest);
    PinnedRead(r);
    HostRead(host, repo, Some(digest));
    NoTagRead(host, repo, Some(digest));
  }

  /** A bare name is one of the hub's official images. */
  lemma BareRead(name: string, tag: string)
    requires '/' !in name && '@' !in name && '@' !in tag && ':' !in tag && '/' !in tag
    ensures ParseImageRef(name + [':'] + tag) == ImageRef("registry-1.docker.io", "library/" + name, Some(tag), None)
  {
    var text := name + [':'] + tag;
    assert '@' !in text && '/' !in text;
    BareTagged(name, tag);
  }

  lemma {:induction false} BareTagged(name: string, tag: string)
    requires '/' !in name && ':' !in tag && '/' !in tag
    ensures ':' in AfterLast(name + [':'] + tag, '/')
    ensures BeforeLast(name + [':'] + tag, ':') == name && AfterLast(name + [':'] + tag, ':') == tag
  {
    ColonInLast(name, tag);
    AtLast(name, ':', tag);
  }

  /** And prints as the bare name. */
  lemma BarePrints(name: string, tag: string)
    requires '/' !in name && '@' !in name && '@' !in tag && ':' !in tag && '/' !in tag && tag != ""
    ensures Familiar(ParseImageRef(name + [':'] + tag)) == name + [':'] + tag
  {
    BareRead(name, tag);
    OfficialForm(name, tag);
  }

  lemma OfficialForm(name: string, tag: string)
    requires tag != ""
    ensures Familiar(ImageRef(HUB_API, LIBRARY + name, Some(tag), None)) == name + [':'] + tag
  {
    assert (LIBRARY + name)[|LIBRARY|..] == name;
    assert name + ([':'] + tag) == name + [':'] + tag;
  }

  // ---- parsing twice ----------------------------------------------------------------------------

  lemma {:induction false} PartsLack(s: string, c: char, d: char)
    requires d !in s
    ensures d !in Before(s, c) && d !in After(s, c) && c !in Before(s, c)
  {
    if c in s {
      FirstSplit(s, c);
    } else {
      Nowhere(s, c);
    }
  }

  /** What is read from a remainder: no stray characters, and a tag of one piece. */
  lemma RepositoryRead(host: string, remainder: string, digest: Option<string>)
    requires '@' !in remainder
    ensures var r := ParseRepository(host, remainder, digest);
            '@' !in r.repository && '@' !in TagOf(r) && ':' !in TagOf(r) && '/' !in TagOf(r)
  {
    var last := AfterLast(remainder, '/');
    if ':' in last {
      AfterLastIsPart(remainder, '/');
      LastSplit(remainder, ':');
      SlashInSegment(remainder);
    }
  }

  /** What follows the last colon of the last segment holds no slash. */
  lemma {:induction false} SlashInSegment(s: string)
    requires ':' in AfterLast(s, '/')
    ensures '/' !in AfterLast(s, ':')
  {
    var seg := AfterLast(s, '/');
    AfterLastIsPart(s, '/');
    AfterLastIsPart(seg, ':');
    LastSplit(seg, ':');
    if '/' in s {
      LastSplit(s, '/');
      var head := BeforeLast(s, '/') + ['/'] + BeforeLast(seg, ':');
      assert s == head + [':'] + AfterLast(seg, ':');
      AtLast(head, ':', AfterLast(seg, ':'));
    } else {
      Nowhere(s, '/');
    }
  }

  lemma {:induction false} BeforeLacks(s: string, c: char)
    ensures c !in Before(s, c)
  {
    if c in s {
      FirstSplit(s, c);
    } else {
      Nowhere(s, c);
    }
  }

  lemma HubApiReadable()
    ensures '@' !in HUB_API && '/' !in HUB_API && IsHost(HUB_API) && HUB_API != HUB
  {
    assert HUB_API[10] == '.';
    assert |HUB_API| != |HUB|;
  }

  /** A host, once its API name stands for the hub, is readable. */
  lemma HostReadable(host: string, remainder: string, digest: Option<string>)
    requires '@' !in host && '/' !in host && IsHost(host)
    ensures var r := ParseRepository(host, remainder, digest).registry; '@' !in r && '/' !in r && IsHost(r) && r != HUB
  {
    HubApiReadable();
  }

  lemma NameRead(ref: string, digest: Option<string>)
    requires '@' !in ref
    ensures var r := ParseName(ref, digest);
            NameReadable(r) && '@' !in TagOf(r) && ':' !in TagOf(r) && '/' !in TagOf(r) && r.digest == digest
  {
    PartsLack(ref, '/', '@');
    if '/' in ref && IsHost(Before(ref, '/')) {
      HostReadable(Before(ref, '/'), After(ref, '/'), digest);
      RepositoryRead(Before(ref, '/'), After(ref, '/'), digest);
    } else {
      assert HUB[6] == '.';
      HostReadable(HUB, ref, digest);
      RepositoryRead(HUB, ref, digest);
    }
  }

  /** Any reference at all, parsed, printed in full and parsed again: the second parse gives what
      the first carries, unless a digest follows a name whose last segment still holds a colon. */
  lemma ParsedRoundTripIff(ref: string)
    ensures var r := ParseImageRef(ref);
            ParseImageRef(Canonical(r)) == Carried(r) <==> !(Pinned(r) && ':' in AfterLast(r.repository, '/'))
  {
    if '@' in ref {
      BeforeLacks(ref, '@');
      NameRead(Before(ref, '@'), Some(After(ref, '@')));
    } else {
      NameRead(ref, None);
    }
    CanonicalRoundTripIff(ParseImageRef(ref));
  }

  const TWO_COLONS := "ghcr.io" + ['/'] + ("a:b" + [':'] + "c")

  lemma GhcrIsHost()
    ensures IsHost("ghcr.io") && '/' !in "ghcr.io" && "ghcr.io" != HUB
  {
    assert "ghcr.io"[4] == '.';
    assert |"ghcr.io"| != |HUB|;
  }

  lemma TwoColonsRead()
    ensures ParseName(TWO_COLONS, Some("d")) == ImageRef("ghcr.io", "a:b", Some("c"), Some("d"))
  {
    var host, repo, tag := "ghcr.io", "a:b", "c";
    GhcrIsHost();
    HostRead(host, repo + [':'] + tag, Some("d"));
    TagRead(host, repo, tag, Some("d"));
  }

  lemma TwoColonsPlain()
    ensures '@' !in TWO_COLONS
  {
  }

  /** The failing input: of two colons the first is read as part of the name, and a digest keeps the
      tag from being printed. */
  lemma ColonKept()
    ensures var r := ParseImageRef(TWO_COLONS + ['@'] + "d");
            r == ImageRef("ghcr.io", "a:b", Some("c"), Some("d")) && ParseImageRef(Canonical(r)) != Carried(r)
  {
    var ref := TWO_COLONS + ['@'] + "d";
    TwoColonsRead();
    TwoColonsPlain();
    PinnedParse(TWO_COLONS, "d");
    assert "a:b"[1] == ':';
    Nowhere("a:b", '/');
    ParsedRoundTripIff(ref);
  }

  // ---- the familiar form ------------------------------------------------------------------------

  function Short(repository: string): string {
    if LIBRARY <= repository then repository[|LIBRARY|..] else repository
  }

  /** A hub name that survives its elisions: an official image, or a path that does not begin
      like a host. */
  predicate HubNameReadable(repository: string) {
    var short := Short(repository);
    if '/' in short then short == repository && !IsHost(Before(short, '/')) else short != repository
  }

  function WithTag(short: string, tag: Option<string>): string {
    if tag.Some? then short + [':'] + tag.value else short
  }

  predicate PlainTag(tag: Option<string>) {
    tag.Some? ==> ':' !in tag.value && '/' !in tag.value
  }

  /** What the hub reads from a name and a tag. */
  lemma {:induction false} HubRead(short: string, tag: Option<string>, digest: Option<string>)
    requires (':' !in AfterLast(short, '/') || tag.Some?) && PlainTag(tag)
    ensures ParseRepository(HUB, WithTag(short, tag), digest)
         == ImageRef(HUB_API, Restored(short), tag, digest)
  {
    if tag.Some? {
      AtLast(short, ':', tag.value);
      ColonInLast(short, tag.value);
    }
  }

  lemma ShortRead(repository: string, tag: Option<string>, digest: Option<string>)
    requires (':' !in AfterLast(Short(repository), '/') || tag.Some?) && PlainTag(tag)
    ensures ParseName(WithTag(Short(repository), tag), digest) == ImageRef(HUB_API, repository, tag, digest)
       <==> HubNameReadable(repository)
  {
    var short := Short(repository);
    SlashAndFirst(short, tag);
    if '/' in short && IsHost(Before(short, '/')) {
      HostTaken(repository, tag, digest);
    } else {
      HubRead(short, tag, digest);
      LibraryElided(repository);
    }
  }

  /** What the hub puts back in front of an elided name. */
  function Restored(short: string): string {
    if '/' in short then short else LIBRARY + short
  }

  /** The elided name stands for the repository exactly when the reader puts back what was taken. */
  lemma LibraryElided(repository: string)
    ensures Restored(Short(repository)) == repository
       <==> if '/' in Short(repository) then Short(repository) == repository else Short(repository) != repository
  {
    var short := Short(repository);
    if LIBRARY <= repository {
      assert repository == LIBRARY + short;
    } else {
      assert LIBRARY + short != repository;
    }
  }

  /** A path that begins like a host is read as one, and a shorter repository on it. */
  lemma HostTaken(repository: string, tag: Option<string>, digest: Option<string>)
    requires PlainTag(tag) && '/' in Short(repository) && IsHost(Before(Short(repository), '/'))
    ensures ParseName(WithTag(Short(repository), tag), digest) != ImageRef(HUB_API, repository, tag, digest)
  {
    var short := Short(repository);
    var host, rest := Before(short, '/'), After(short, '/');
    FirstSplit(short, '/');
    SlashAndFirst(short, tag);
    RestWithTag(short, tag);
    assert |short| == |host| + 1 + |rest|;
    assert |HUB| == 9 && |HUB_API| == 20 && |LIBRARY| == 8;
    RestShrinks(host, rest, tag, digest);
  }

  lemma {:induction false} RestWithTag(short: string, tag: Option<string>)
    requires '/' in short
    ensures After(WithTag(short, tag), '/') == WithTag(After(short, '/'), tag)
  {
    if tag.Some? {
      assert WithTag(short, tag) == short + ([':'] + tag.value);
      FirstStays(short, '/', [':'] + tag.value);
    }
  }

  /** What is read from the rest is no longer than the rest with its library prefix. */
  lemma RestShrinks(host: string, rest: string, tag: Option<string>, digest: Option<string>)
    requires PlainTag(tag)
    ensures ParseRepository(host, WithTag(rest, tag), digest).tag == tag ==>
              |ParseRepository(host, WithTag(rest, tag), digest).repository| <= |LIBRARY| + |rest|
  {
    if tag.Some? {
      AtLast(rest, ':', tag.value);
      ColonInLast(rest, tag.value);
    }
  }

  lemma TagWithoutSlash(short: string, tag: string)
    requires '/' !in tag
    ensures '/' in short + ([':'] + tag) <==> '/' in short
  {
    assert '/' !in [':'] + tag;
  }

  /** A tag does not move the first slash. */
  lemma {:induction false} SlashAndFirst(short: string, tag: Option<string>)
    requires PlainTag(tag)
    ensures '/' in WithTag(short, tag) <==> '/' in short
    ensures '/' in short ==> Before(WithTag(short, tag), '/') == Before(short, '/')
  {
    if tag.Some? {
      assert WithTag(short, tag) == short + ([':'] + tag.value);
      TagWithoutSlash(short, tag.value);
      if '/' in short {
        FirstStays(short, '/', [':'] + tag.value);
      }
    }
  }

  lemma {:induction false} SameLastSegment(repository: string)
    ensures AfterLast(Short(repository), '/') == AfterLast(repository, '/')
  {
    if LIBRARY <= repository {
      var short := Short(repository);
      assert repository == "library" + ['/'] + short;
      if '/' in short {
        LastSplit(short, '/');
        assert repository == ("library" + ['/'] + BeforeLast(short, '/')) + ['/'] + AfterLast(short, '/');
        AtLast("library" + ['/'] + BeforeLast(short, '/'), '/', AfterLast(short, '/'));
      } else {
        AtLast("library", '/', short);
        Nowhere(short, '/');
      }
    }
  }

  lemma HubRoundTrip(r: ImageRef)
    requires r.registry == HUB_API && '@' !in r.repository && SuffixReadable(r)
    ensures ParseImageRef(Familiar(r)) == Carried(r) <==> HubNameReadable(r.repository)
  {
    var short := Short(r.repository);
    SameLastSegment(r.repository);
    if Pinned(r) {
      assert Familiar(r) == short + ['@'] + r.digest.value;
      assert Familiar(r)[|short|] == '@';
      AtFirst(short, '@', r.digest.value);
      ShortRead(r.repository, None, r.digest);
    } else {
      assert Familiar(r) == short + [':'] + TagOf(r);
      ShortRead(r.repository, Some(TagOf(r)), None);
    }
  }

  lemma {:induction false} LastOfRest(s: string)
    requires '/' in s
    ensures AfterLast(After(s, '/'), '/') == AfterLast(s, '/')
  {
    var first, rest := Before(s, '/'), After(s, '/');
    FirstSplit(s, '/');
    if '/' in rest {
      LastSplit(rest, '/');
      assert s == (first + ['/'] + BeforeLast(rest, '/')) + ['/'] + AfterLast(rest, '/');
      AtLast(first + ['/'] + BeforeLast(rest, '/'), '/', AfterLast(rest, '/'));
    } else {
      AtLast(first, '/', rest);
      Nowhere(rest, '/');
    }
  }

  lemma ShortHasAt(repository: string)
    ensures '@' in Short(repository) <==> '@' in repository
  {
    if LIBRARY <= repository {
      assert repository == LIBRARY + Short(repository);
    }
  }

  /** A colon in the last segment is read as a tag's, wherever the name begins. */
  lemma {:induction false} TagSeen(short: string, digest: Option<string>)
    requires ':' in AfterLast(short, '/')
    ensures ParseName(short, digest).tag.Some?
  {
    if '/' in short {
      LastOfRest(short);
    }
  }

  lemma StrayAt(short: string, digest: string)
    requires '@' in short
    ensures ParseImageRef(short + ['@'] + digest).digest != Some(digest)
  {
    var s := short + ['@'] + digest;
    assert s[|short|] == '@';
    EarlierSplit(short, digest, '@');
    DigestIs(s);
  }

  lemma PinnedParse(short: string, digest: string)
    requires '@' !in short
    ensures ParseImageRef(short + ['@'] + digest) == ParseName(short, Some(digest))
  {
    var s := short + ['@'] + digest;
    assert s[|short|] == '@';
    AtFirst(short, '@', digest);
  }

  /** A pinned hub image with a stray `@`, or with a colon where a tag is looked for, is misread. */
  lemma PinnedHubMisread(r: ImageRef)
    requires r.registry == HUB_API && Pinned(r) && ('@' in r.repository || !SuffixReadable(r))
    ensures ParseImageRef(Familiar(r)) != Carried(r)
  {
    var short := Short(r.repository);
    ShortHasAt(r.repository);
    assert Familiar(r) == short + ['@'] + r.digest.value;
    if '@' in short {
      StrayAt(short, r.digest.value);
    } else {
      PinnedParse(short, r.digest.value);
      SameLastSegment(r.repository);
      TagSeen(short, r.digest);
    }
  }

  /** So is one whose tag cannot be told apart. */
  lemma TaggedHubMisread(r: ImageRef)
    requires r.registry == HUB_API && !Pinned(r) && ('@' in r.repository || !SuffixReadable(r))
    ensures ParseImageRef(Familiar(r)) != Carried(r)
  {
    var s, short := Familiar(r), Short(r.repository);
    ShortHasAt(r.repository);
    assert s == short + [':'] + TagOf(r);
    assert '@' in s <==> '@' in short || '@' in TagOf(r);
    if '@' in s {
      DigestIs(s);
    } else {
      NameRead(s, None);
    }
  }

  /** What the familiar form needs: the suffix told apart, no stray `@`, and on the hub a name that
      survives its elisions, elsewhere a host of its own. */
  predicate FamiliarReadable(r: ImageRef) {
    && SuffixReadable(r) && '@' !in r.repository
    && if r.registry == HUB_API then HubNameReadable(r.repository) else NameReadable(r)
  }

  lemma {:induction false} NeverTheHub(s: string)
    ensures ParseImageRef(s).registry != HUB
  {
    HubApiReadable();
  }

  /** The familiar form of any reference parses back to what it can carry exactly when it is
      readable. */
  lemma FamiliarRoundTripIff(r: ImageRef)
    ensures ParseImageRef(Familiar(r)) == Carried(r) <==> FamiliarReadable(r)
  {
    if r.registry == HUB_API {
      if '@' !in r.repository && SuffixReadable(r) {
        HubRoundTrip(r);
      } else if Pinned(r) {
        PinnedHubMisread(r);
      } else {
        TaggedHubMisread(r);
      }
    } else if r.registry == HUB {
      NeverTheHub(Familiar(r));
    } else {
      assert Familiar(r) == Canonical(r);
      CanonicalRoundTripIff(r);
    }
  }
}
