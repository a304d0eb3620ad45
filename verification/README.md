# sorb: verified models of its core algorithms

`sorb` builds software bills of materials: it walks sources and container images, turns files
into findings, and reconciles the findings into a graph of components. This project models the
algorithms and state machines underneath, in Dafny, and proves what they promise. `dafny verify
dfyconfig.toml` checks all of it.

Code that changes state in place is modelled as methods and classes, each proved against a
specification function or predicate; the theorems are about those. Names follow the source where
it has a name for the thing.

| file | part of the system |
|---|---|
| `Links`, `UnionFind`, `KeyIndex`, `Classes`, `Buckets`, `FamilyAttach`, `Environments` | which findings become one component: union-find over identity keys, one version per slot, attaching declared claims |
| `Pinning` | confidence and version of a component |
| `Scopes` | merging dependency claims, the gated walk, scope propagation |
| `MergeStores` | merging several stores into one |
| `Globs`, `Dispatch`, `SuffixGlobs` | which catalogers see a file, through a candidate index |
| `Layers`, `LayerPaths` | image layers: whiteouts, opaque directories, the transition log, time travel |
| `Bolt`, `BoltPages`, `BoltWriter`, `BoltFailures` | reading keys out of a boltdb file, reading back what was written, and how reading fails on a damaged file |
| `LocalCache`, `LastUse`, `SharedCache`, `Fleet` | the content-addressed store, its HTTP server and clients, many machines sharing it |
| `Jsonc`, `Fingerprint`, `Numerals`, `Unpack`, `ReaderEnds`, `Archives`, `Timeline`, `Signing`, `ImageRefs` | text and byte algorithms |
| `Basics`, `Order`, `Seqs`, `Text`, `Iteration` | shared vocabulary |

## What the code does not do

Each of these is a proved statement with a concrete input, next to the exact condition under which
the code does what it is meant to do.

- The dispatch index loses files for a pattern whose last `/` stands inside a bracket expression:
  `[/]x` accepts the file `x` but is filed under `]x` (`Dispatch.BracketedSlashIsLost`). For a matcher
  with only a glob the index is exact if and only if nothing slips through that bracket: it takes no
  character but `]`, and that only after the start of the name the pattern is filed under
  (`Dispatch.GlobFilterExactIff`); for one with only a basename, if and only if no file name slips through
  (`Dispatch.BasenameFilterExactIff`); for any matcher, `Dispatch.FilterExactIff`. Patterns without
  brackets are always safe (`Dispatch.BracketlessIsSafe`).
- Declared claims of one family are joined before they are attached, so two that share identity keys
  with different resolved components fuse those components (`FamilyAttach.EntangledAreFused`). Attaching
  fuses nothing if and only if each draft component, step 1 plus the joined declared claims, holds or
  has settled families with resolved claims of one component only (`FamilyAttach.ResolvedStayApartIff`).
- The ecosystem of a family is read back from its label, which gives the finding's own if and only if
  that neither holds a double colon nor ends with a colon (`Environments.EcoReadBackIff`): two versions
  in an ecosystem called `pypi::x` are joined as if it were `pypi` (`Environments.ColonsMislead`).
- The last marker claimed for an edge wins, so a second claim behind an extra hides an unconditional
  dependency (`Scopes.GatedClaimCanHide`). It is harmless to every walk if and only if the edge was not
  open or has an open way round (`Scopes.GatedClaimHarmlessIff`), and to one project's runtime or dev
  reach if and only if the edge was not open, its source is out of that reach, or its target stays in it
  without the edge (`Scopes.HarmlessForProjectIff`). The order of the claims is irrelevant to an edge's
  gating if and only if their markers are of one kind (`Scopes.OrderMattersIffMixed`).
- `merge_stores` files components by (label, id); the map is faithful if and only if no two surviving
  classes share such a slot (`MergeStores.FaithfulIff`), as inputs with equal labels can
  (`MergeStores.SameLabelClashes`).
- `LayerStack.removed` is documented as the paths gone from the final view, but keeps paths that were
  written again (`Layers.RewrittenStaysListed`); a visible path is listed if and only if some layer took
  it away before (`Layers.LayerStack.ListedThoughVisible`).
- The bolt reader promises its own error for anything unexpected. The decoder's error escapes on a leaf
  header alone (`BoltFailures.DecoderErrorEscapes`), and in general if and only if the way of the search
  comes to a leaf or a branch page that overruns its bytes (`BoltFailures.DecoderErrorIff`). Pages that
  lead back to themselves exhaust the stack, as two do in a file of 128 bytes
  (`BoltFailures.CyclicFileIsNotCaught`); no stack is deep enough if and only if the search still hops
  on after more hops than the file has pages (`BoltFailures.CycleIsNotCaughtIff`).
- The cache server stores whatever part of an upload arrives: of a value of two bytes another machine is
  served one (`Fleet.CutUploadIsShared`). A step of a machine keeps the fleet sound if and only if it is
  not an upload of which only a part is stored (`Fleet.NextIsSoundIff`).
- `prune` bounds what is indexed, not what is on disk: overwrite a key, evict everything, and the first
  value's bytes remain (`LocalCache.EvictingAllReclaimsNotAll`). It leaves no orphan if and only if there
  was none before and no file it should remove is stuck (`LocalCache.ReclaimsIff`), and a put makes none
  if and only if it replaces cleanly, which can be checked beforehand (`LocalCache.PutOrphansIff`).
- The ar reader does not come to an end on a header that states a size of -60
  (`Archives.SpinnerNeverEnds`); its cursor advances if and only if the size is above -60
  (`Unpack.ArAdvances`), and it comes to an end if and only if no header position is visited twice with
  a turn still to come (`ReaderEnds.ArEndsIff`).
- A bare subject digest is recorded as its own algorithm; the default `sha256` is reached only when
  the text starts with a colon (`Signing.DefaultAlgorithmIff`).
- Printing an image reference and parsing it back fails for a pinned reference whose name still has a
  colon in its last segment, such as `ghcr.io/a:b:c@d` (`ImageRefs.ColonKept`); the exact conditions are
  `ImageRefs.CanonicalRoundTripIff`, `ImageRefs.ParsedRoundTripIff` and
  `ImageRefs.FamiliarRoundTripIff`.

## Model

| member | source | states |
|---|---|---|
| UnionFind.CompressingForest.Find | src/sorb/core/reconcile.py:72-79 | returns the root; two-pass compression rewrites parents but moves no item to another root |
| UnionFind.CompressingForest.Union | src/sorb/core/reconcile.py:81-84 | the classes become those of all unions asked for so far, this one included; parents never point upwards |
| UnionFind.HalvingForest.Find | src/sorb/core/merge.py:73-78 | the same for path halving |
| UnionFind.HalvingForest.Union | src/sorb/core/merge.py:80-83 | the same for path halving |
| UnionFind.RootIsLeast | src/sorb/core/reconcile.py:81-84 | a root is the least index of its class |
| UnionFind.HangPartition | src/sorb/core/reconcile.py:81-84 | hanging the larger root under the smaller joins exactly the two classes |
| KeyIndex.IndexComplete | src/sorb/core/reconcile.py:122-132 | remembering only the first carrier of each key generates the same classes as linking all carriers |
| Buckets.KeyPass | src/sorb/core/reconcile.py:121-132 | after the key loop two findings share a root exactly when a chain of shared identity keys joins them |
| Buckets.SlotPass | src/sorb/core/reconcile.py:134-155 | after the family loop, exactly when a chain of shared keys or shared (family, variant) slots joins them |
| Buckets.SlotFamily | src/sorb/core/reconcile.py:150-155 | one family: each variant's claims end in one class, and no link is added outside shared slots |
| Buckets.AttachFamily | src/sorb/core/reconcile.py:163-173 | one family: its versionless claims join each other, and join its versioned claims exactly when those form one class; ambiguous exactly when they form several |
| Buckets.AttachPass | src/sorb/core/reconcile.py:157-174 | all families in sorted order |
| Buckets.Collect | src/sorb/core/reconcile.py:176-178 | each class is one bucket, in index order, under its least member |
| Buckets.Bucket | src/sorb/core/reconcile.py:120-178 | the whole of steps 1 and 2: the buckets are the classes the declarative links generate, and the ambiguous claims are the declared ones of undecided families |
| Buckets.OneClass | src/sorb/core/reconcile.py:169-172 | counting distinct roots decides whether the concrete claims form one class |
| Buckets.ShuffledPartition | src/sorb/core/reconcile.py:121-178 | shuffling the findings only relabels the partition and the ambiguous claims |
| Environments.EcoReadBackIff | src/sorb/core/reconcile.py:137-143 | the ecosystem read back from a family label is the finding's own exactly when it neither holds a double colon nor ends with a colon |
| Environments.ColonsMislead | src/sorb/core/reconcile.py:142-143 | the failing input: two versions in an ecosystem called `pypi::x` are joined as if it were `pypi` |
| Environments.FamTellsApart | src/sorb/core/reconcile.py:137 | for such ecosystems two findings have one label exactly when they have one ecosystem and one family |
| Environments.FirmIsRelated | src/sorb/core/reconcile.py:121-155 | then step 1 links exactly the findings that share a key, or are two versions of one package and variant in a single-version ecosystem |
| Environments.ExclusiveTogether | src/sorb/core/reconcile.py:142-155 | one version per environment: two such versions end in one bucket, whatever else was found |
| Environments.ResolvedTogetherIff | src/sorb/core/reconcile.py:120-178 | where every claim names a version, two findings share a bucket exactly when a chain of such findings joins them |
| Environments.DeclaredTogether | src/sorb/core/reconcile.py:163-168 | claims that name one package and no version of it end in one bucket |
| Environments.DeclaredJoinsResolved | src/sorb/core/reconcile.py:169-171 | where all versions found of a package exclude each other, its declared claims end in their bucket |
| FamilyAttach.ResolvedStayApartIff | src/sorb/core/reconcile.py:157-174 | attaching joins no resolved claims that earlier steps kept apart exactly when every draft component draws resolved claims of one component only |
| FamilyAttach.SettledFusesIff | src/sorb/core/reconcile.py:163-174 | so it is for the attachments of families settled by step 1 alone, whatever the order of families |
| FamilyAttach.FinalIsSettled | src/sorb/core/reconcile.py:163-174 | and then the final links are step 1, the joined declared claims and those attachments, no more and no fewer |
| FamilyAttach.SeparateIsUntangled | src/sorb/core/reconcile.py:157-174 | claims without a version that share keys only within their family never fuse anything |
| FamilyAttach.DeclaredJoinsIff | src/sorb/core/reconcile.py:163-174 | where nothing is fused, a declared claim ends with a resolved one exactly when its draft component holds, or has a settled family with, a claim of that component |
| FamilyAttach.AmbiguousIff | src/sorb/core/reconcile.py:172-173 | where nothing is fused, a claim is reported ambiguous exactly when its family resolves to several components, whatever the order of families |
| Environments.AmbiguousMeans | src/sorb/core/reconcile.py:163-173 | over the fields: those claims are the ones that name no version of a package of which unrelated versions were found |
| FamilyAttach.AmbiguousStandApartIff | src/sorb/core/reconcile.py:163-174 | where nothing is fused, an ambiguous claim's component is the declared claims of its family and nothing else exactly when none of them shares a key with anything else |
| FamilyAttach.EntangledAreFused | src/sorb/core/reconcile.py:167-168 | the failing input: two resolved claims, each sharing a key with a declared claim of their family, are fused |
| Pinning.Score | src/sorb/core/reconcile.py:259-263 | the loop computes noisy-OR capped by the top tier, between 0 and that cap |
| Pinning.ProductHead | src/sorb/core/reconcile.py:259-263 | a piece of evidence multiplies what the others leave open by what its own confidence, clamped to a probability, leaves open |
| Pinning.ConfidenceOfOne | src/sorb/core/reconcile.py:259-263 | no evidence scores nothing; one piece scores its clamped confidence, up to its tier's cap |
| Pinning.ConfidenceShuffled | src/sorb/core/reconcile.py:259-263 | the order of the evidence does not matter |
| Pinning.ConfidenceGrows | src/sorb/core/reconcile.py:259-263 | more evidence of any tier never lowers the score |
| Pinning.CapsRise | src/sorb/model/__init__.py:39-46 | caps rise with tiers |
| Pinning.PinVersion | src/sorb/core/reconcile.py:191-226 | the pin is the version of a greatest (tier, version) claim; every other version is a conflict at the same tier or superseded from a strictly lower one, once per claim |
| Pinning.SortedDescending | src/sorb/core/reconcile.py:197-202 | the member order is by descending (tier, version, purl, name) |
| Pinning.PinUnique | src/sorb/core/reconcile.py:211-226 | a bucket has one pin, up to the order in which superseded versions are listed |
| Pinning.PinShuffled | src/sorb/core/reconcile.py:201-226 | shuffling the bucket's claims changes no verdict |
| Scopes.MergeClaims | src/sorb/core/reconcile.py:402-427 | every claim is merged into its pair or counted as dropped |
| Scopes.MergedMeans | src/sorb/core/reconcile.py:417-425 | a pair is merged exactly when a claim names it; its scope is the first claimed, its marker the last |
| Scopes.OrderMattersIffMixed | src/sorb/core/reconcile.py:417-425 | whether the edge between a pair is gated is the same for every order of the claims exactly when the markers claimed for the pair are not of both kinds |
| Scopes.BuildAdjacency | src/sorb/core/reconcile.py:442-445 | the adjacency lists exactly the merged edges |
| Scopes.Expand | src/sorb/core/reconcile.py:460-468 | one node of the worklist: its open targets are reached or queued, its gated ones recorded |
| Scopes.Reach | src/sorb/core/reconcile.py:447-469 | on any graph, reached is exactly what open walks reach, gated exactly the targets of gated edges leaving it; the walk ends |
| Scopes.GatedClaimHarmlessIff | src/sorb/core/reconcile.py:447-469 | a claim behind an extra leaves every ungated walk alone exactly when its edge was not open or has an open way round |
| Scopes.HarmlessForProjectIff | src/sorb/core/reconcile.py:493-494 | a claim behind an extra between components leaves a project's runtime or dev reach alone exactly when its edge was not open, its source is out of that reach, or its target stays in it without the edge |
| Scopes.GatedClaimCanHide | src/sorb/core/reconcile.py:424-425 | the failing input: an unconditional edge claimed again behind an extra becomes gated |
| Scopes.ProjectRoots | src/sorb/core/reconcile.py:471-491 | the four root sets by declared scope, and which children carry a marker on every direct claim |
| Scopes.RootIff | src/sorb/core/reconcile.py:478-491 | a runtime walk starts at what is declared for run time, provided, or with no scope; a dev walk at what is declared for development or tests; and so for building and optional |
| Scopes.Propagate | src/sorb/core/reconcile.py:493-498 | each reach is the walks from its roots; the optional one starts from everything offered behind an extra; extras-gated is what is offered but not reached |
| Scopes.OfferedIsOptional | src/sorb/core/reconcile.py:500-516 | something only offered behind an extra is conditional and never runtime; it is optional unless dev or build claims it |
| Scopes.DirectScope | src/sorb/core/reconcile.py:471-516 | a direct dependency ends with the scope it was declared with, unless a runtime walk, or for weaker scopes a dev walk, comes to it as well |
| Scopes.DevStaysDev | src/sorb/core/reconcile.py:471-516 | where nothing is declared for run time, what is declared for development or tests ends as a development dependency |
| MergeStores.Gather | src/sorb/core/merge.py:64-69 | all components that are not excluded, in input order |
| MergeStores.EntriesAre | src/sorb/core/merge.py:64-69 | these entries are the components that are not excluded, each once, with its input's label, in input order |
| MergeStores.Group | src/sorb/core/merge.py:85-96 | the groups are the classes of shared identity keys across inputs |
| MergeStores.WriteGroup | src/sorb/core/merge.py:107-138 | one group: dropped exactly when intersecting and not every input contributes, else written with its contributors and filed under all members' slots |
| MergeStores.WriteComponents | src/sorb/core/merge.py:101-138 | all groups, in any order |
| MergeStores.RemapEdges | src/sorb/core/merge.py:169-181 | the edges are exactly the images of input edges whose ends survived apart, each once, none a self-loop |
| MergeStores.FaithfulIff | src/sorb/core/merge.py:102-138 | two surviving entries share an id exactly when identity chains them, for all pairs, if and only if no two surviving classes share a (label, id) slot |
| MergeStores.DistinctInputsAgree | src/sorb/core/merge.py:65-69 | distinct labels and ids keep slots apart |
| MergeStores.SlotsGiveProvenance | src/sorb/core/merge.py:119-120 | each survivor's component lists exactly the inputs that contribute to its class |
| MergeStores.OnlySurvivorsFiled | src/sorb/core/merge.py:102-138 | exactly the slots of survivors are filed: dropped components have no id, and so no edges |
| MergeStores.SameLabelClashes | src/sorb/core/merge.py:65-69 | the failing input: two inputs of one label with different components of one id |
| MergeStores.HeadsAreBuckets | src/sorb/core/merge.py:94-96 | groups correspond to classes, one each |
| MergeStores.Merge | src/sorb/core/merge.py:63-181 | the whole merge: merged plus dropped is the number of classes, intersect keeps exactly the classes all inputs contribute to, exactly the survivors have ids, ids and provenance are faithful for distinct inputs, edges are the images |
| Globs.MatchSplit | src/sorb/catalogers/base.py:61-68 | a match of a concatenated pattern splits into matches of its parts |
| Globs.PlainTail | src/sorb/catalogers/base.py:226-231 | a literal tail of a pattern is read literally unless it closes a bracket left open before it |
| Globs.MatchesIff | src/sorb/catalogers/base.py:61-68 | a text matches exactly when it can be cut into one piece per token: any text for `*`, slashes included, one character for the others |
| SuffixGlobs.TokensRead | src/sorb/catalogers/base.py:61-68 | each kind of token, bracket expressions included, is read back from how it is written |
| SuffixGlobs.StarEndIff | src/sorb/catalogers/base.py:61-68 | `*` and a plain text match exactly what ends with that text |
| SuffixGlobs.EndAcceptedIff | src/sorb/catalogers/base.py:79-91 | a matcher with only such a glob accepts a file, at any depth, exactly when its path from the root ends that way |
| SuffixGlobs.NameAcceptedIff | src/sorb/catalogers/base.py:79-83 | one with only a plain basename accepts exactly the files of that name |
| SuffixGlobs.AcceptedIff | src/sorb/catalogers/base.py:79-91 | a matcher accepts what its glob, its basename and its magic prefix each accept |
| Dispatch.SafeNeverLost | src/sorb/catalogers/base.py:246-264 | the required exact name or extension is one every accepted file has, so the filter never loses a match of a safe matcher |
| SuffixGlobs.PlainFiled | src/sorb/catalogers/base.py:226-264 | a pattern whose last segment is plain is filed under that name |
| SuffixGlobs.ExtensionFiled | src/sorb/catalogers/base.py:226-264 | one whose last segment has a wildcard before a plain extension is filed under the extension |
| Dispatch.SlipIsLost | src/sorb/catalogers/base.py:257-260 | what slips through a cut bracket is matched, under another name than the pattern is filed under |
| Dispatch.LostSlips | src/sorb/catalogers/base.py:257-260 | whatever a cut pattern matches under another name slips through that bracket |
| Dispatch.GlobFilterExactIff | src/sorb/catalogers/base.py:246-264 | for a matcher with only a glob, the filter loses no file exactly when none slips through the glob |
| Dispatch.BasenameFilterExactIff | src/sorb/catalogers/base.py:246-264 | for one with only a basename, exactly when no file name slips through it |
| Dispatch.FilterExactIff | src/sorb/catalogers/base.py:246-264 | for any matcher, exactly when the pattern it is filed under is safe or accepted files have no other name |
| Dispatch.BracketlessIsSafe | src/sorb/catalogers/base.py:257-264 | a matcher whose patterns have no bracket expression is safe |
| Dispatch.BracketedSlashIsLost | src/sorb/catalogers/base.py:257-260 | the failing input `[/]x` on the file `x` |
| Dispatch.BuildIndex | src/sorb/catalogers/base.py:272-285 | every matcher of every cataloger is filed once, under its required name |
| Dispatch.SafeRouting | src/sorb/catalogers/base.py:236-237 | where patterns are safe the index changes no routing decision |
| Dispatch.Registry.Register | src/sorb/catalogers/base.py:215-218 | appends exactly when the id is new; a stored index stays valid for its prefix |
| Dispatch.Registry.CurrentIndex | src/sorb/catalogers/base.py:267-285 | the length tag is enough: the index returned is always that of the whole registry |
| Dispatch.Hits | src/sorb/catalogers/base.py:300-304 | positions of catalogers with an offered matcher that accepts |
| Dispatch.Registry.Dispatch | src/sorb/catalogers/base.py:288-305 | exactly the catalogers with an accepting matcher, in registry order, once each |
| SuffixGlobs.RoutedInOrder | src/sorb/catalogers/base.py:288-305 | the answer lists, once each and in registry order, the catalogers that want the entry |
| SuffixGlobs.EndDispatched | src/sorb/catalogers/base.py:288-305 | a cataloger that asks for paths of a plain end, as `*.dist-info/METADATA`, is dispatched to for every such path, whatever else is registered |
| SuffixGlobs.EndDispatchedIff | src/sorb/catalogers/base.py:288-305 | and one that asks for nothing else, for no other path |
| Layers.LayerStack.Compute | src/sorb/container/layers.py:72-109 | the finished stack's log, owners and removed map agree with its layers |
| Layers.LayerStack.ApplyLayer | src/sorb/container/layers.py:74-108 | one layer: opaque markers, then whiteouts, then its own files |
| LayerPaths.WhiteoutKind | src/sorb/container/layers.py:81-86 | `dir/.wh.name` is a whiteout of `dir/name`, at the root too |
| LayerPaths.OpaqueKind | src/sorb/container/layers.py:81-84 | `dir/.wh..wh..opq` makes `dir` opaque, the root too |
| LayerPaths.RegularKindIff | src/sorb/container/layers.py:85-88 | any other path is a file exactly when its last segment does not start with the prefix |
| LayerPaths.WhiteoutRemoves | src/sorb/container/layers.py:97-101 | where an archive lists `dir/.wh.name`, neither `dir/name` nor anything under it is in the merged view, unless that archive or a later one lists it |
| LayerPaths.OpaqueClears | src/sorb/container/layers.py:92-96 | where an archive lists `dir/.wh..wh..opq`, nothing below `dir` is, unless that archive or a later one lists it |
| LayerPaths.OwnedIff | src/sorb/container/layers.py:74-109 | over normalised archive paths: layer k owns p exactly when it is the last to list p, p is no marker, and no later archive erases it |
| Layers.LayerStack.HidePaths | src/sorb/container/layers.py:92-101 | one marker takes away exactly the visible paths it covers, in any order |
| Layers.LayerStack.RecordGone | src/sorb/container/layers.py:111-119 | logs the removal and records the maximum writer, which is the owner until then |
| Layers.LayerStack.WriteAll | src/sorb/container/layers.py:103-108 | each file is logged modified exactly when visible, else added |
| Layers.LastWriteIsOwner | src/sorb/container/layers.py:112-115 | the maximum over the log is the owner of a visible path |
| Layers.LogOverlay | src/sorb/container/layers.py:72-109 | owners are the declarative overlay: p belongs to the last layer writing it unless a later layer's marker covers it; a layer's own markers never hide its own files |
| Layers.TimeTravel | src/sorb/container/layers.py:123-133 | replaying the log up to layer k gives the overlay of layers 0 to k alone |
| Layers.PrefixOverlay | src/sorb/container/layers.py:123-133 | which is what a stack of those layers alone would own |
| Layers.TravelsBack | src/sorb/container/layers.py:123-133 | for any log of the layers, replaying it up to layer k gives what any log of the layers up to k alone replays to |
| Layers.TravelsToPrefix | src/sorb/container/layers.py:123-133 | time travel: the replay of a stack's log up to layer n - 1 is what the stack of the first n layers alone owns |
| Layers.RemovedMeans | src/sorb/container/layers.py:111-119 | removed[p] is the last removal of p and the writer it was taken from; no entry means never taken |
| Layers.WrittenIsKnown | src/sorb/container/layers.py:61-65 | a path ever written is owned at the end or was taken by a later layer |
| Layers.LogWrites | src/sorb/container/layers.py:135-137 | the log holds a write of p by k exactly when layer k writes p |
| Layers.LayerStack.OwnersUpto | src/sorb/container/layers.py:123-133 | the replay is the overlay of layers 0 to upto, and the owners themselves beyond the last |
| Layers.LayerStack.VersionsOf | src/sorb/container/layers.py:135-137 | for each layer, oldest first, its ordinal as often as its archive lists the path |
| Layers.VersionsAre | src/sorb/container/layers.py:135-137 | these are exactly the layers that write the path |
| Layers.LayerStack.Squashed | src/sorb/container/layers.py:61-65 | owners are the overlay, removed is right for every path, every path ever written is in one of them |
| Layers.LayerStack.ListedThoughVisible | src/sorb/container/layers.py:63-65 | a visible path is listed as removed exactly when some layer took it away before |
| Layers.RewrittenStaysListed | src/sorb/container/layers.py:63-65 | the failing input: a tar with `.wh.a` and `a` over one with `a` |
| Layers.RewrittenStack | src/sorb/container/layers.py:63-65 | on the stack of that image the file is visible and listed as removed |
| Bolt.ReadLeafElements | src/sorb/container/boltdb.py:87-101 | all elements of a leaf page or the first error |
| BoltPages.LeafRoundTrip | src/sorb/container/boltdb.py:87-101 | a leaf page written with any elements, wherever it stands in the data, reads as these elements |
| BoltPages.BranchRoundTrip | src/sorb/container/boltdb.py:113-119 | a branch page written with any separators and page numbers reads as these |
| BoltPages.PagedRead | src/sorb/container/boltdb.py:142-150 | a bucket value naming a root page leads to that page |
| BoltPages.InlineRead | src/sorb/container/boltdb.py:145-148 | one naming page 0 leads to the page that follows its header |
| Bolt.ChooseChild | src/sorb/container/boltdb.py:112-122 | the scan of separators, the first never stopping it |
| Bolt.LookupIn | src/sorb/container/boltdb.py:103-125 | the search through decoded bytes is the search the theorems are about |
| Bolt.BranchSearch | src/sorb/container/boltdb.py:114-122 | in an ordered tree only the chosen child can hold the key |
| Bolt.LookupAgrees | src/sorb/container/boltdb.py:103-125 | on an ordered tree the search answers what a linear search of the in-order leaf elements answers |
| Bolt.Get | src/sorb/container/boltdb.py:127-151 | the loop over the path is the recursive walk |
| Bolt.GetRefines | src/sorb/container/boltdb.py:127-151 | reading a path refines lookup in nested maps: None for a bucket at the end or a value midway |
| Bolt.PlacementIsInvisible | src/sorb/container/boltdb.py:143-150 | inline and paged buckets, and any cut into pages, give the same answers |
| BoltWriter.WriteDecodes | src/sorb/container/boltdb.py:103-125 | wherever a written bucket's image stands, it spells out the bucket's tree |
| BoltWriter.FileHolds | src/sorb/container/boltdb.py:127-151 | a written file, with inline buckets, buckets on pages of their own and branch pages, holds the nested maps that were written |
| BoltWriter.WrittenReads | src/sorb/container/boltdb.py:127-151 | round trip: every path read from a written file gives what the nested maps give |
| BoltWriter.PairIsWritten | src/sorb/container/boltdb.py:6-14 | the writer accepts buckets of any such items, under a branch page too |
| BoltFailures.LeafFailures | src/sorb/container/boltdb.py:94-96 | a leaf page raises the decoder's error exactly when its count overruns its bytes |
| BoltFailures.DecoderErrorIff | src/sorb/container/boltdb.py:94-124 | a search raises the decoder's error exactly when its way, within the stack, comes to a leaf whose count overruns its bytes or a branch whose scan does |
| BoltFailures.DecoderErrorEscapes | src/sorb/container/boltdb.py:16-17 | the failing input: a leaf header alone that promises one element |
| BoltFailures.GivesUpIff | src/sorb/container/boltdb.py:124-124 | a search runs out of stack exactly when it is still hopping from branch to child |
| BoltFailures.CycleIsNotCaughtIff | src/sorb/container/boltdb.py:124-124 | no stack is deep enough exactly when the search still hops after more hops than the file has pages |
| BoltFailures.CyclicFileIsNotCaught | src/sorb/container/boltdb.py:16-17 | the failing input: a file of 128 bytes, two branch pages being each other's only child |
| BoltFailures.PathFailsIff | src/sorb/container/boltdb.py:127-151 | reading a path fails with an error not the reader's own exactly when one of the searches along it does |
| LocalCache.Cas.PutBlob | src/sorb/cache/__init__.py:75-87 | a blob is stored once under its digest |
| LocalCache.Cas.Put | src/sorb/cache/__init__.py:106-119 | the row names the value's digest; a failing index or file leaves its part as it was |
| LocalCache.Cas.Get | src/sorb/cache/__init__.py:121-144 | a hit refreshes the row's time; everything else is counted as a miss |
| LocalCache.LruOrder | src/sorb/cache/__init__.py:175-177 | every key once, least recently used first, ties either way |
| LocalCache.Cas.EvictRow | src/sorb/cache/__init__.py:180-188 | the row goes, and its blob with it unless another row shares it |
| LocalCache.Cas.Prune | src/sorb/cache/__init__.py:166-194 | evicts a least-recently-used prefix and returns its length; where the index fails on a row, the rows before it are gone, and that row without its blob if it was deleted already |
| LocalCache.ExcessIs | src/sorb/cache/__init__.py:178-190 | that prefix is the shortest after which the summed size fits |
| LocalCache.SizeShuffled | src/sorb/cache/__init__.py:172-174 | the summed size does not depend on the order of ties |
| LocalCache.EvictedEntries | src/sorb/cache/__init__.py:180-180 | exactly the evicted keys leave the index |
| LocalCache.EvictedBlobs | src/sorb/cache/__init__.py:181-188 | a blob goes exactly when a row naming it went, none still names it and its file can be removed |
| LocalCache.AlwaysIntact | src/sorb/cache/__init__.py:75-144 | over every run of put, get and prune, each indexed key has its blob and it is the last value put |
| LocalCache.ReadsLatest | src/sorb/cache/__init__.py:121-141 | a read answers the last value put, or nothing once evicted |
| LastUse.LastUsedIs | src/sorb/cache/__init__.py:106-141 | over every run a row's time is that of the last put or read of its key |
| LastUse.EvictsLeastRecent | src/sorb/cache/__init__.py:166-194 | whatever a prune evicts was last put or read no later than anything it keeps, and strictly earlier in the run where time advances |
| LastUse.PruneFits | src/sorb/cache/__init__.py:166-194 | the values kept fit, unless none is, and would not with the last evicted one |
| LocalCache.OnlyPruneForgets | src/sorb/cache/__init__.py:106-194 | without prune a key is indexed exactly when it was ever put |
| LocalCache.ReclaimsIff | src/sorb/cache/__init__.py:180-188 | after any evictions every blob belongs to a row exactly when it did before and no file to be removed is stuck |
| LocalCache.PutOrphansIff | src/sorb/cache/__init__.py:106-119 | a put orphans no blob exactly when its key is new, its value unchanged, the old value still named by another row or already gone; with a failing index, when the blob fails too or belongs to a row |
| LocalCache.OrphanStays | src/sorb/cache/__init__.py:166-194 | a blob no row names outlives every run that does not put the same bytes again |
| LocalCache.EvictingAllReclaimsNotAll | src/sorb/cache/__init__.py:166-194 | the failing input: overwrite, evict everything, and the first value's bytes remain |
| SharedCache.CasServer.Handle | src/sorb/cache/server.py:30-59 | reply and store after any request, for any path, verb, body and failing access |
| SharedCache.KeyPathIff | src/sorb/cache/server.py:19-19 | a path names a key exactly when it is `/cas/` and 64 hexadecimal digits, a final newline not counting |
| SharedCache.UploadedIsServed | src/sorb/cache/server.py:30-59 | what is uploaded in full is answered with 204, and afterwards served to GET and confirmed to HEAD |
| SharedCache.AbsentIsNotFound | src/sorb/cache/server.py:30-50 | what is not stored is answered with 404 |
| SharedCache.OtherRowsStay | src/sorb/cache/server.py:30-59 | a request touches the row its path names and no other, and none if it names none |
| SharedCache.Exchange | src/sorb/cache/remote.py:38-50 | an exchange may be lost, refused with a status, lose its answer or be cut short on the way to the server; where it gets no answer the status is 0 |
| SharedCache.RemoteCas.Get | src/sorb/cache/remote.py:68-77 | hit, miss or error by status; the counters follow |
| SharedCache.RemoteCas.Put | src/sorb/cache/remote.py:79-84 | stored exactly on 200, 201 or 204, otherwise an error is counted |
| SharedCache.DetectCache.Get | src/sorb/core/detect_cache.py:55-71 | local tier, then the server with write-back, then a miss; stores, counters and outcome as the step functions say |
| SharedCache.DetectCache.Put | src/sorb/core/detect_cache.py:73-79 | both tiers are written, a failing one leaves its part as it was |
| SharedCache.PutIsFoundLocally | src/sorb/core/detect_cache.py:73-84 | what a put stored is found locally by the next lookup |
| SharedCache.FetchedIsFoundLocally | src/sorb/core/detect_cache.py:55-71 | and so is what a lookup fetched from the server |
| Fleet.PathIsServed | src/sorb/cache/server.py:19-46 | every path a client builds is answered under that key |
| Fleet.OnServerApart | src/sorb/cache/server.py:36-55 | keys in use have rows of their own on the server |
| Fleet.LookupOnServer | src/sorb/cache/remote.py:68-77 | a lookup reaches the server as a read of the key's row or not at all |
| Fleet.UploadOnServer | src/sorb/cache/remote.py:79-84 | a whole upload reaches it as a write of the key's row or not at all |
| Fleet.NextIsSoundIff | src/sorb/core/detect_cache.py:55-79 | a step of any machine, eviction or failure keeps all stores sound exactly when it is not an upload of which only a part is stored |
| Fleet.RunsStaySound | src/sorb/core/detect_cache.py:55-79 | so does every interleaving without such an upload |
| Fleet.EveryHitIsTrue | src/sorb/core/detect_cache.py:55-71 | after any such run from fresh stores, a lookup on any machine misses or decodes to what the detectors yield for the key |
| Fleet.CountersBalance | src/sorb/core/detect_cache.py:55-79 | hits are local hits plus remote hits, lookups are hits plus misses, on every machine after any run |
| Fleet.SharedWithAll | src/sorb/cache/remote.py:1-16 | once an upload has reached the server, every machine whose exchange gets through finds the value, whatever happens short of an eviction there or an upload stored in part |
| Fleet.CutUploadPoisons | src/sorb/cache/server.py:62-71 | a cut upload keeps the cache sound exactly when nothing was cut off; otherwise the next lookup is served the stump |
| Fleet.CutUploadIsShared | src/sorb/cache/server.py:62-71 | the failing input: of a value of two bytes the other machine is served one |
| Fleet.SmallIsFair | src/sorb/cache/remote.py:61-66 | the assumptions on digests hold of two keys with names of 64 digits |
| Fleet.PruneIsEviction | src/sorb/cache/__init__.py:166-194 | every prune, however the index fails during it, is one of the fleet's evictions |
| Jsonc.StripTrailingCommas | src/sorb/catalogers/js.py:842-851 | the loop over string literals is the recursive stripper |
| Jsonc.StripPrinted | src/sorb/catalogers/js.py:835-851 | on any printed tokens exactly the commas before a closing bracket go; literals are untouched |
| Jsonc.ValueStripped | src/sorb/catalogers/js.py:835-851 | in a printed value these are its trailing commas and no others |
| Jsonc.DocumentStripped | src/sorb/catalogers/js.py:842-851 | however a value is laid out and wherever it has trailing commas, the result is the same printing without them |
| Jsonc.JsonStripped | src/sorb/catalogers/js.py:835-851 | in particular for every value of RFC 8259 in any layout of its four white-space characters |
| Fingerprint.FindAll | src/sorb/binary/fingerprint.py:143-150 | all positions of one prologue, overlapping ones included |
| Fingerprint.StartIff | src/sorb/binary/fingerprint.py:140-150 | a function starts exactly where one of the three prologues stands in the code |
| Fingerprint.FindBoundaries | src/sorb/binary/fingerprint.py:141-159 | one boundary per prologue position, in order |
| Fingerprint.BoundariesFit | src/sorb/binary/fingerprint.py:153-158 | none is empty, none reaches into the next, each ends at its first return past the prologue unless the next start comes first |
| Fingerprint.Normalize | src/sorb/binary/fingerprint.py:166-176 | the in-place sweep computes the masked body |
| Fingerprint.MaskedAlike | src/sorb/binary/fingerprint.py:162-176 | two bodies normalise alike exactly when they differ only in operand bytes |
| Fingerprint.MaskedPieces | src/sorb/binary/fingerprint.py:162-176 | of a body laid out as opcodes with operands and other bytes, masking zeroes the operands and nothing else |
| Fingerprint.PiecesOf | src/sorb/binary/fingerprint.py:162-176 | every body is laid out that way |
| Fingerprint.MaskingTwice | src/sorb/binary/fingerprint.py:166-176 | normalising twice is normalising once |
| Fingerprint.FunctionHashes | src/sorb/binary/fingerprint.py:121-138 | the distinct hashes of the first bodies of eight bytes or more |
| Fingerprint.HashesAre | src/sorb/binary/fingerprint.py:128-138 | a hash is reported exactly when one of the first bodies is of eight bytes or more and has it once masked |
| Fingerprint.AlikeHashAlike | src/sorb/binary/fingerprint.py:121-138 | code whose functions differ only in operand bytes has the same hashes |
| Fingerprint.PositionIndependent | src/sorb/binary/fingerprint.py:121-159 | code behind bytes that start no function has the same boundaries, shifted, and the same hashes |
| Timeline.DiffOne | src/sorb/container/pkgdb_timeline.py:51-75 | one pair of snapshots: an event for exactly each family gone or at another version |
| Timeline.NoteWrites | src/sorb/container/pkgdb_timeline.py:76-78 | the last write of a family changes exactly when its version does |
| Timeline.DiffTimeline | src/sorb/container/pkgdb_timeline.py:32-80 | exactly the changes between consecutive snapshots, each once, with the ordinal where the old version's run began |
| Timeline.OccursIff | src/sorb/container/pkgdb_timeline.py:32-80 | over the snapshots alone: the events are exactly the families that between adjoining snapshots went from a version held since the old ordinal to none, or to another |
| Timeline.RunIsMaximal | src/sorb/container/pkgdb_timeline.py:47-60 | that ordinal is the start of the longest unbroken run of snapshots holding the old version |
| Timeline.EventsChain | src/sorb/container/pkgdb_timeline.py:64-75 | an upgrade's new version and ordinal are the family's next event's old version and ordinal |
| Timeline.FirstSeen | src/sorb/container/pkgdb_timeline.py:83-89 | the least ordinal holding the family at the version, if any |
| Numerals.HexRead | src/sorb/binary/unpack.py:99-99 | eight hexadecimal digits read back |
| Numerals.DecimalRead | src/sorb/binary/unpack.py:74-74 | a padded decimal field reads back, negative or not |
| Numerals.OneDigitIff | src/sorb/binary/unpack.py:99-99 | a single digit reads exactly as its place among the digits of the base, in either case |
| Numerals.MoreDigits | src/sorb/binary/unpack.py:99-99 | digits are read from the left, with single underscores between them |
| Numerals.PaddingIgnored | src/sorb/binary/unpack.py:74-74 | white space around a number does not count |
| Numerals.SignsRead | src/sorb/binary/unpack.py:74-74 | a sign may stand before the digits |
| Numerals.PrefixRead | src/sorb/binary/unpack.py:99-99 | in base sixteen so may `0x` |
| Unpack.UnpackAr | src/sorb/binary/unpack.py:68-86 | the loop, turn by turn |
| Unpack.UnpackCpio | src/sorb/binary/unpack.py:92-112 | the loop, turn by turn |
| Unpack.SliceIs | src/sorb/binary/unpack.py:68-112 | slices are clipped, and negative bounds count from the end |
| Unpack.ArAdvances | src/sorb/binary/unpack.py:85-85 | the cursor moves forward exactly when the size is above -60 |
| Unpack.CpioAdvances | src/sorb/binary/unpack.py:105-111 | the cursor stays aligned, and moves forward exactly when the aligned sizes add up to something; sizes that are not negative always do |
| ReaderEnds.ArFinishes | src/sorb/binary/unpack.py:68-86 | where no header visited states a size of -60 or less, the file is read to an end within its length |
| ReaderEnds.ArEndsIff | src/sorb/binary/unpack.py:68-86 | whatever the headers state, a file is read to an end exactly when no header position is visited twice with a turn still to come, and then within as many turns as there are positions |
| ReaderEnds.CpioFinishes | src/sorb/binary/unpack.py:92-112 | where no header visited states a negative name or file size, the file is read to an end within its length |
| ReaderEnds.CpioEndsIff | src/sorb/binary/unpack.py:92-112 | the same for any cpio file |
| Unpack.ArSpins | src/sorb/binary/unpack.py:71-85 | a header stating -60 holds the reader for ever |
| Archives.ArRoundTrip | src/sorb/binary/unpack.py:68-86 | members written as ar with two-byte alignment read back as the same map |
| Archives.CpioRoundTrip | src/sorb/binary/unpack.py:92-112 | members written as newc with four-byte alignment, a trailer and anything after it read back as the members that have content |
| Archives.StoredHasAll | src/sorb/binary/unpack.py:83-110 | with distinct names every member kept is there with its content |
| Archives.SpinnerNeverEnds | src/sorb/binary/unpack.py:71-85 | the failing input: an ar file of one header |
| Signing.PaeInjective | src/sorb/emit/signing.py:91-94 | what is signed determines type and payload (DSSE v1 protocol, section "Signature Definition") |
| Signing.PaeExample | src/sorb/emit/signing.py:91-94 | the encoding has the form of the example in the DSSE protocol |
| Signing.Verify | src/sorb/emit/signing.py:176-367 | the steps and early returns are the report |
| Signing.ReportIsOrdered | src/sorb/emit/signing.py:176-186 | a report is a prefix of the five steps in order; only the last can fail, and only a failure cuts it short |
| Signing.IdentityStepIs | src/sorb/emit/signing.py:235-246 | the second step fails exactly for a document that names another key than the one given |
| Signing.SubjectBoundIff | src/sorb/emit/signing.py:248-323 | whatever is asked: the binding passes exactly when the key verified the document, the document names no other key, and it is about the one digest that everything supplied stands for; it is skipped exactly when an envelope so verified was given nothing to bind against |
| Signing.AttestationBindsIff | src/sorb/emit/signing.py:97-143 | asked about a digest alone, an attestation binds exactly the one it was made for |
| Signing.FindLatest | src/sorb/emit/signing.py:349-353 | the newest serial of the last lineage that holds the document's |
| Signing.LatestIs | src/sorb/emit/signing.py:342-356 | it comes from the last lineage that holds the serial, and there is none exactly when no lineage does |
| Signing.LineageStepIs | src/sorb/emit/signing.py:342-367 | where the earlier steps pass, the last fails exactly when the lineage that counts ends with another serial, and passes exactly when it ends with this one |
| Signing.VerifyArtifact | src/sorb/emit/signing.py:370-381 | true exactly for a report without failures whose binding was not skipped |
| Signing.TrustedIff | src/sorb/emit/signing.py:370-381 | an artifact is trusted exactly when the key verified a message that fixes the digest of exactly its bytes and the document names no other key |
| Signing.DetachedIsTrusted | src/sorb/emit/signing.py:146-162 | every detached signature is trusted for what it signs |
| Signing.AttestationIsTrustedIff | src/sorb/emit/signing.py:97-143 | an attestation is trusted for exactly the artifacts whose digest it was bound to |
| Signing.AttestedIsTrusted | src/sorb/emit/signing.py:97-143 | so one for `sha256:<hex>` of an artifact is trusted for it |
| Signing.DefaultAlgorithmIff | src/sorb/emit/signing.py:104-108 | a bare digest is recorded as its own algorithm |
| Signing.BundleFixesArtifact | src/sorb/emit/signing.py:146-162 | one bundle is trusted for one artifact |
| ImageRefs.CanonicalRoundTripIff | src/sorb/container/spec.py:78-105 | parsing the canonical form gives what it can carry exactly when the host is a host of its own, no `@` strays into the name, and the suffix can be told apart |
| ImageRefs.PortRead | src/sorb/container/spec.py:86-105 | `name:port/repository:tag` is read as these parts |
| ImageRefs.DottedRead | src/sorb/container/spec.py:86-105 | and so is a reference on a dotted host |
| ImageRefs.LocalhostRead | src/sorb/container/spec.py:86-105 | and one on localhost |
| ImageRefs.BareRead | src/sorb/container/spec.py:86-105 | a bare name and tag are an official image of the hub |
| ImageRefs.BarePrints | src/sorb/container/spec.py:66-76 | and print as the bare name and tag |
| ImageRefs.HostedPrints | src/sorb/container/spec.py:66-83 | a reference with a host and a tag prints as it was written, in both forms |
| ImageRefs.PinnedPrints | src/sorb/container/spec.py:78-83 | one with a digest prints with the digest |
| ImageRefs.UntaggedPrints | src/sorb/container/spec.py:78-83 | one with neither prints as `latest` |
| ImageRefs.ParsedRoundTripIff | src/sorb/container/spec.py:78-105 | any text parsed, printed and parsed again is stable except for a digest after a name whose last segment holds a colon |
| ImageRefs.FamiliarRoundTripIff | src/sorb/container/spec.py:67-105 | the familiar form of any reference parses back exactly when the suffix can be told apart, no `@` strays into the name, and the host is its own or, on the hub, eliding left a name that cannot be taken for another |
| ImageRefs.ColonKept | src/sorb/container/spec.py:78-105 | the failing input `ghcr.io/a:b:c@d` |

## Left out

- Choice of base claim, purl, hashes, qualifiers and attributes of a component: field-by-field copies among tied claims.
- Rounding of confidences to four digits: arithmetic is over exact reals.
- Annotations, warnings, drift reports and the resolution of references to component ids: presentation over the buckets.
- Other edge attributes (`direct`, `requested`, free attributes): merged like scopes, first or any wins.
- The test whether a marker names an extra is a three-way parameter, not the regular expression.
- Iteration order of Python sets and dictionaries is left open wherever the source does not sort; results are proved for every order.
- Merge conflict annotations and the DESCRIBES edges of hierarchical merges; `sorb.graph.store` is not part of this model, new components are numbered from one.
- Identity keys, family keys, variants and versions are inputs: `sorb.ident` is not part of this model.
- The characters a bracket expression accepts, case folding of paths, and loading of built-in catalogers: parameters or POSIX behaviour.
- Walking, opening and projecting layer members as a source (`SquashView`): lookups in `owners`.
- Choice between the two bolt meta pages; the interpreter's recursion limit is the parameter `depth`.
- SQLite, files, clocks, sockets and HTTP: maps, parameters and failing steps. Rows deleted by a prune that fails midway, and rolled back when the process ends, stay deleted.
- SHA-256, ECDSA, base64 and JSON: parameters; a theorem that needs digests apart asks for it on the finitely many keys and values in use, and one about signing that what was dumped loads again and what was signed verifies.
- SharedCache.Exchange: does not model replies cut short or garbled on the way to a client, for which `HttpTransport` raises errors of `http.client` that it does not catch, nor proxies that answer 200 themselves; `Transport` promises neither happens.
- Signing.Verify: takes documents and statements whose JSON has the shape that is looked up; other JSON, such as a list, makes the source raise.
- JSON syntax errors and comments: the JSONC theorem is about printings of values, the token theorem about any tokens.
- MSI, squashfs and sniffing of container formats: partial decoders.
- Unpack.UnpackAr: runs for at most a given number of turns, because the source's loop need not end; `ReaderEnds.ArEndsIff` says when it does.
- Unpack.UnpackCpio: runs for at most a given number of turns, because the source's loop need not end; `ReaderEnds.CpioEndsIff` says when it does.
- Detail texts of verification steps and the loading of keys.
