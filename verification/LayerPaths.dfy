// What a stack shows, over the paths its archives list.
module LayerPaths {
  // Markers name what they hide relative to their own directory.

  import opened Layers

  // ---- paths --------------------------------------------------------------------------------

  predicate NoSlash(s: string) {
    forall i | 0 <= i < |s| :: s[i] != '/'
  }

  /** A directory as archives name it, the root being the empty text. */
  predicate IsDir(dir: string) {
    dir == "" || dir[|dir| - 1] != '/'
  }

  function Inside(dir: string, name: string): string {
    if dir == "" then name else dir + "/" + name
  }

  /** Everything below a directory starts with this. */
  function Below(dir: string): string {
    if dir == "" then "" else dir + "/"
  }

  lemma {:induction false} LastSlashIs(h: string, name: string)
    requires NoSlash(name) && (h == "" || h[|h| - 1] == '/')
    ensures LastSlash(h + name) == |h| - 1
    decreases |name|
  {
    if name == "" {
      assert h + name == h;
    } else {
      assert (h + name)[..|h + name| - 1] == h + name[..|name| - 1];
      LastSlashIs(h, name[..|name| - 1]);
    }
  }

  lemma PathParts(dir: string, name: string)
    requires IsDir(dir) && NoSlash(name)
    ensures Basename(Inside(dir, name)) == name && Dirname(Inside(dir, name)) == dir
  {
    var h := Below(dir);
    assert Inside(dir, name) == h + name;
    LastSlashIs(h, name);
    assert (h + name)[..|h|] == h && (h + name)[|h|..] == name;
    if dir != "" {
      assert h[..|h| - 1] == dir;
      assert TrimSlashes(dir) == dir;
      assert TrimSlashes(h) == dir;
    }
    assert Inside(dir, name)[..LastSlash(Inside(dir, name)) + 1] == h;
  }

  // ---- markers --------------------------------------------------------------------------------

  /** A whiteout names its sibling. */
  lemma WhiteoutKind(dir: string, name: string)
    requires IsDir(dir) && NoSlash(name) && name != ".wh..opq"
    ensures KindOf(Inside(dir, ".wh." + name)) == Whiteout(Inside(dir, name))
  {
    var base := ".wh." + name;
    PathParts(dir, base);
    assert base[..4] == ".wh." && base[4..] == name;
    assert OPAQUE_MARKER == ".wh." + ".wh..opq" && OPAQUE_MARKER[4..] == ".wh..opq";
  }

  /** An opaque marker names the directory it is in. */
  lemma OpaqueKind(dir: string)
    requires IsDir(dir)
    ensures KindOf(Inside(dir, ".wh..wh..opq")) == Opaque(dir)
  {
    PathParts(dir, ".wh..wh..opq");
  }

  /** Any other last segment is a file's. */
  lemma RegularKindIff(dir: string, base: string)
    requires IsDir(dir) && NoSlash(base)
    ensures KindOf(Inside(dir, base)) == Regular(Inside(dir, base)) <==> !(".wh." <= base)
  {
    PathParts(dir, base);
    assert ".wh." <= OPAQUE_MARKER;
  }

  /** The archive's paths have a directory and a name; where they are normalised this always holds. */
  ghost predicate IsPath(path: string) {
    exists dir, name :: IsSplit(path, dir, name)
  }

  ghost predicate IsSplit(path: string, dir: string, name: string) {
    IsDir(dir) && NoSlash(name) && path == Inside(dir, name)
  }

  ghost predicate IsWhiteoutOf(path: string, target: string) {
    exists dir, name {:trigger Inside(dir, name)} ::
      && IsDir(dir) && NoSlash(name) && name != ".wh..opq"
      && path == Inside(dir, ".wh." + name) && target == Inside(dir, name)
  }

  ghost predicate IsOpaqueOf(path: string, dir: string) {
    IsDir(dir) && path == Inside(dir, ".wh..wh..opq")
  }

  /** Listed in a layer, `path` takes p out of the layers below. */
  ghost predicate Erases(path: string, p: string) {
    || (exists target :: IsWhiteoutOf(path, target) && (p == target || target + "/" <= p))
    || (exists dir :: IsOpaqueOf(path, dir) && Below(dir) <= p)
  }

  lemma KindCovers(path: string, p: string)
    requires Erases(path, p)
    ensures Covers(KindOf(path), p)
  {
    if target :| IsWhiteoutOf(path, target) && (p == target || target + "/" <= p) {
      var dir, name :| IsDir(dir) && NoSlash(name) && name != ".wh..opq" && path == Inside(dir, ".wh." + name)
                       && target == Inside(dir, name);
      WhiteoutKind(dir, name);
    } else {
      var dir :| IsOpaqueOf(path, dir) && Below(dir) <= p;
      OpaqueKind(dir);
    }
  }

  lemma OpaqueErases(dir: string, p: string)
    requires IsDir(dir) && Covers(Opaque(dir), p)
    ensures Erases(Inside(dir, ".wh..wh..opq"), p)
  {
    assert IsOpaqueOf(Inside(dir, ".wh..wh..opq"), dir);
  }

  lemma WhiteoutErases(dir: string, name: string, p: string)
    requires IsDir(dir) && NoSlash(name) && name != ".wh..opq" && Covers(Whiteout(Inside(dir, name)), p)
    ensures Erases(Inside(dir, ".wh." + name), p)
  {
    assert IsWhiteoutOf(Inside(dir, ".wh." + name), Inside(dir, name));
  }

  lemma SplitCovers(dir: string, base: string, p: string)
    requires IsDir(dir) && NoSlash(base) && Covers(KindOf(Inside(dir, base)), p)
    ensures Erases(Inside(dir, base), p)
  {
    var kind := KindOf(Inside(dir, base));
    RegularKindIff(dir, base);
    if base == ".wh..wh..opq" {
      OpaqueKind(dir);
      OpaqueErases(dir, p);
    } else {
      var name := MarkedName(base);
      WhiteoutKind(dir, name);
      WhiteoutErases(dir, name, p);
    }
  }

  lemma MarkedName(base: string) returns (name: string)
    requires ".wh." <= base && base != ".wh..wh..opq" && NoSlash(base)
    ensures base == ".wh." + name && name != ".wh..opq" && NoSlash(name)
  {
    name := base[4..];
    assert base == ".wh." + name;
    assert ".wh." + ".wh..opq" == ".wh..wh..opq";
  }

  lemma CoversIff(path: string, p: string)
    requires IsPath(path)
    ensures Covers(KindOf(path), p) <==> Erases(path, p)
  {
    if Covers(KindOf(path), p) {
      var dir, base :| IsSplit(path, dir, base);
      SplitCovers(dir, base, p);
    } else if Erases(path, p) {
      KindCovers(path, p);
    }
  }

  lemma KindKeepsPath(path: string)
    ensures KindOf(path).Regular? ==> KindOf(path) == Regular(path)
  {
  }

  // ---- layers -----------------------------------------------------------------------------------

  lemma WritesIff(tar: LayerTar, p: string)
    ensures Writes(Classified(tar), p) <==> p in tar.paths && KindOf(p) == Regular(p)
  {
    var members := Classified(tar).members;
    if Regular(p) in members {
      var i :| 0 <= i < |members| && members[i] == Regular(p);
      KindKeepsPath(tar.paths[i]);
    }
    if p in tar.paths && KindOf(p) == Regular(p) {
      var i :| 0 <= i < |tar.paths| && tar.paths[i] == p;
      assert members[i] == Regular(p);
    }
  }

  ghost predicate ErasedBy(tar: LayerTar, p: string) {
    exists path <- tar.paths :: Erases(path, p)
  }

  lemma ErasedIsHidden(tar: LayerTar, p: string)
    requires ErasedBy(tar, p)
    ensures Hides(Classified(tar), p)
  {
    var path :| path in tar.paths && Erases(path, p);
    var i :| 0 <= i < |tar.paths| && tar.paths[i] == path;
    KindCovers(path, p);
    assert Classified(tar).members[i] in Classified(tar).members;
  }

  lemma HiddenIsErased(tar: LayerTar, p: string)
    requires Hides(Classified(tar), p) && forall path <- tar.paths :: IsPath(path)
    ensures ErasedBy(tar, p)
  {
    var members := Classified(tar).members;
    var m :| m in members && Covers(m, p);
    var i :| 0 <= i < |members| && members[i] == m;
    assert tar.paths[i] in tar.paths;
    CoversIff(tar.paths[i], p);
  }

  // ---- the stack ----------------------------------------------------------------------------------

  lemma NotOwned(tars: seq<LayerTar>, j: nat, p: string, k: nat)
    requires j < |tars| && Hides(LayersOf(tars)[j], p)
    requires forall i | j <= i < |tars| :: p !in tars[i].paths
    ensures !Owns(LayersOf(tars), |tars|, p, k)
  {
    if k < |tars| {
      WritesIff(tars[k], p);
    }
  }

  /** A path some archive erases, and none from there on lists, is not in the merged view. */
  lemma {:induction false} ErasedIsGone(stack: LayerStack, j: nat, p: string)
    requires stack.Valid() && j < |stack.tars| && ErasedBy(stack.tars[j], p)
    requires forall i | j <= i < |stack.tars| :: p !in stack.tars[i].paths
    ensures p !in stack.owners
  {
    var layers := LayersOf(stack.tars);
    stack.Squashed(p);
    ErasedIsHidden(stack.tars[j], p);
    assert layers[j] == Classified(stack.tars[j]) && Hides(layers[j], p);
    if p in stack.owners {
      NotOwned(stack.tars, j, p, stack.owners[p]);
    }
  }

  /** A whiteout takes its sibling away, and everything under it, but for what is listed again. */
  lemma WhiteoutRemoves(stack: LayerStack, j: nat, dir: string, name: string, p: string)
    requires stack.Valid() && j < |stack.tars| && IsDir(dir) && NoSlash(name) && name != ".wh..opq"
    requires Inside(dir, ".wh." + name) in stack.tars[j].paths
    requires p == Inside(dir, name) || Inside(dir, name) + "/" <= p
    requires forall i | j <= i < |stack.tars| :: p !in stack.tars[i].paths
    ensures p !in stack.owners
  {
    var path := Inside(dir, ".wh." + name);
    assert IsWhiteoutOf(path, Inside(dir, name));
    assert Erases(path, p);
    ErasedIsGone(stack, j, p);
  }

  /** An opaque marker takes away everything below its directory, but for what is listed again. */
  lemma OpaqueClears(stack: LayerStack, j: nat, dir: string, p: string)
    requires stack.Valid() && j < |stack.tars| && IsDir(dir)
    requires Inside(dir, ".wh..wh..opq") in stack.tars[j].paths && Below(dir) <= p
    requires forall i | j <= i < |stack.tars| :: p !in stack.tars[i].paths
    ensures p !in stack.owners
  {
    var path := Inside(dir, ".wh..wh..opq");
    assert IsOpaqueOf(path, dir);
    assert Erases(path, p);
    ErasedIsGone(stack, j, p);
  }

  /** The name of the path starts like a marker's. */
  ghost predicate IsMarker(p: string) {
    exists dir, base :: IsSplit(p, dir, base) && ".wh." <= base
  }

  lemma FileIff(p: string)
    requires IsPath(p)
    ensures KindOf(p) == Regular(p) <==> !IsMarker(p)
  {
    var dir, base :| IsSplit(p, dir, base);
    RegularKindIff(dir, base);
    if other, last :| IsSplit(p, other, last) && ".wh." <= last {
      RegularKindIff(other, last);
    }
  }

  /** The last archive to list p is k, p names a file, and no later archive erases it. */
  ghost predicate Shows(tars: seq<LayerTar>, p: string, k: nat) {
    && k < |tars| && p in tars[k].paths && !IsMarker(p)
    && forall j | k < j < |tars| :: p !in tars[j].paths && !ErasedBy(tars[j], p)
  }

  ghost predicate ArePaths(tars: seq<LayerTar>) {
    forall tar <- tars :: forall path <- tar.paths :: IsPath(path)
  }

  lemma WritesFileIff(tar: LayerTar, p: string)
    requires forall path <- tar.paths :: IsPath(path)
    ensures Writes(Classified(tar), p) <==> p in tar.paths && !IsMarker(p)
    ensures Hides(Classified(tar), p) <==> ErasedBy(tar, p)
  {
    WritesIff(tar, p);
    if p in tar.paths {
      FileIff(p);
    }
    if ErasedBy(tar, p) {
      ErasedIsHidden(tar, p);
    }
    if Hides(Classified(tar), p) {
      HiddenIsErased(tar, p);
    }
  }

  lemma ShowsIff(tars: seq<LayerTar>, p: string, k: nat)
    requires ArePaths(tars)
    ensures Owns(LayersOf(tars), |tars|, p, k) <==> Shows(tars, p, k)
  {
    forall j | 0 <= j < |tars|
      ensures LayersOf(tars)[j] == Classified(tars[j])
      ensures Writes(LayersOf(tars)[j], p) <==> p in tars[j].paths && !IsMarker(p)
      ensures Hides(LayersOf(tars)[j], p) <==> ErasedBy(tars[j], p)
    {
      WritesFileIff(tars[j], p);
    }
  }

  /** The merged view is exactly what the archives show. */
  lemma OwnedIff(stack: LayerStack, p: string, k: nat)
    requires stack.Valid() && ArePaths(stack.tars)
    ensures p in stack.owners && stack.owners[p] == k <==> Shows(stack.tars, p, k)
  {
    stack.Squashed(p);
    ShowsIff(stack.tars, p, k);
    assert p in stack.owners && stack.owners[p] == k <==> Owns(LayersOf(stack.tars), |stack.tars|, p, k);
  }
}
