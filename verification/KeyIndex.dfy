// The first-seen index over identity keys.
module KeyIndex {
  // It drives both union-find passes: each key remembers the first item that carried it, and
  // later carriers are linked to that item.

  import opened Links

  /** Item i of `keys` lists the identity keys of item i. */
  type KeyTable = seq<seq<string>>

  ghost predicate SharesKey(keys: KeyTable, i: nat, j: nat)
    requires i < |keys| && j < |keys|
  {
    exists s :: s in keys[i] && s in keys[j]
  }

  /** What the design asks for: any shared key joins two items. */
  ghost function KeyLinks(keys: KeyTable): set<Link> {
    set i: nat, j: nat | i < |keys| && j < |keys| && SharesKey(keys, i, j) :: (i, j)
  }

  /** The loops have read keys[..n] in full and the first t keys of item n. */
  ghost predicate Read(keys: KeyTable, n: nat, t: nat, i: nat, s: string) {
    || (i < n && i < |keys| && s in keys[i])
    || (i == n && n < |keys| && t <= |keys[n]| && s in keys[n][..t])
  }

  ghost predicate Indexed(keys: KeyTable, n: nat, t: nat, byKey: map<string, nat>, links: set<Link>) {
    && links <= KeyLinks(keys)
    && (forall s <- byKey :: byKey[s] < |keys| && Read(keys, n, t, byKey[s], s))
    && (forall i: nat, s {:trigger Read(keys, n, t, i, s)} | Read(keys, n, t, i, s) ::
       s in byKey && Chained(links, i, byKey[s]))
  }

  lemma KnownKey(keys: KeyTable, n: nat, t: nat, byKey: map<string, nat>, links: set<Link>)
    requires n < |keys| && t < |keys[n]| && keys[n][t] in byKey
    requires Indexed(keys, n, t, byKey, links)
    ensures Indexed(keys, n, t + 1, byKey, links + {(n, byKey[keys[n][t]])})
  {
    var key := keys[n][t];
    var more := links + {(n, byKey[key])};
    assert Read(keys, n, t, byKey[key], key);
    assert key in keys[n] && key in keys[byKey[key]];
    assert SharesKey(keys, n, byKey[key]);
    forall i: nat, s {:trigger Read(keys, n, t + 1, i, s)} | Read(keys, n, t + 1, i, s)
      ensures s in byKey && Chained(more, i, byKey[s])
    {
      if Read(keys, n, t, i, s) {
        ChainedMono(links, more, i, byKey[s]);
      } else {
        assert i == n && s == key;
        ChainedStep(more, n, byKey[key]);
      }
    }
    forall s <- byKey ensures byKey[s] < |keys| && Read(keys, n, t + 1, byKey[s], s) {
      assert Read(keys, n, t, byKey[s], s);
    }
  }

  lemma NewKey(keys: KeyTable, n: nat, t: nat, byKey: map<string, nat>, links: set<Link>)
    requires n < |keys| && t < |keys[n]| && keys[n][t] !in byKey
    requires Indexed(keys, n, t, byKey, links)
    ensures Indexed(keys, n, t + 1, byKey[keys[n][t] := n], links)
  {
    var key := keys[n][t];
    var more := byKey[key := n];
    forall i: nat, s {:trigger Read(keys, n, t + 1, i, s)} | Read(keys, n, t + 1, i, s)
      ensures s in more && Chained(links, i, more[s])
    {
      if !Read(keys, n, t, i, s) {
        assert i == n && s == key;
        ChainedSelf(links, n);
      }
    }
    forall s <- more ensures more[s] < |keys| && Read(keys, n, t + 1, more[s], s) {
      if s != key {
        assert Read(keys, n, t, byKey[s], s);
      }
    }
  }

  lemma NextItem(keys: KeyTable, n: nat, byKey: map<string, nat>, links: set<Link>)
    requires n < |keys| && Indexed(keys, n, |keys[n]|, byKey, links)
    ensures Indexed(keys, n + 1, 0, byKey, links)
  {
    assert keys[n][..|keys[n]|] == keys[n];
    forall i: nat, s {:trigger Read(keys, n + 1, 0, i, s)} | Read(keys, n + 1, 0, i, s)
      ensures s in byKey && Chained(links, i, byKey[s])
    {
      assert Read(keys, n, |keys[n]|, i, s);
    }
    forall s <- byKey ensures byKey[s] < |keys| && Read(keys, n + 1, 0, byKey[s], s) {
      assert Read(keys, n, |keys[n]|, byKey[s], s);
    }
  }

  /** The few links the index creates generate the same classes as all shared keys. */
  lemma IndexComplete(keys: KeyTable, byKey: map<string, nat>, links: set<Link>)
    requires Indexed(keys, |keys|, 0, byKey, links)
    ensures Covers(links, KeyLinks(keys)) && Covers(KeyLinks(keys), links)
  {
    SubsetCovered(KeyLinks(keys), links);
    forall l <- KeyLinks(keys) ensures Chained(links, l.0, l.1) {
      var s :| s in keys[l.0] && s in keys[l.1];
      assert Read(keys, |keys|, 0, l.0, s) && Read(keys, |keys|, 0, l.1, s);
      ChainedSym(links, l.1, byKey[s]);
      ChainedTrans(links, l.0, byKey[s], l.1);
    }
  }
}
