// Package-database time travel: comparing the snapshots that successive layers leave.
module Timeline {
  import opened Basics
  import opened Order

  datatype Family = Family(eco: string, name: string)

  type Snapshot = map<Family, string>

  type States = map<nat, Snapshot>

  datatype Event =
    | Upgraded(fam: Family, oldVersion: string, oldOrdinal: nat, newVersion: string, newOrdinal: nat)
    | Removed(fam: Family, oldVersion: string, oldOrdinal: nat, newOrdinal: nat)

  // ---- what the timeline should say ----------------------------------------------------------

  ghost predicate IsOrder(states: States, ordinals: seq<nat>) {
    Ascending(ordinals) && forall o: nat :: o in ordinals <==> o in states
  }

  function At(states: States, ordinals: seq<nat>, j: nat): Snapshot {
    if j < |ordinals| && ordinals[j] in states then states[ordinals[j]] else map[]
  }

  function Previous(states: States, ordinals: seq<nat>, j: nat): Snapshot {
    if j > 0 then At(states, ordinals, j - 1) else map[]
  }

  predicate Holds(s: Snapshot, fam: Family, version: string) {
    fam in s && s[fam] == version
  }

  /** The index at which the run of equal versions that reaches j began. */
  function RunStart(states: States, ordinals: seq<nat>, j: nat, fam: Family): nat {
    if j > 0 && fam in At(states, ordinals, j) && Holds(At(states, ordinals, j - 1), fam, At(states, ordinals, j)[fam])
    then RunStart(states, ordinals, j - 1, fam)
    else j
  }

  /** A family present before that is gone, or at another version, after. */
  function EventOf(before: Snapshot, after: Snapshot, oldOrdinal: nat, ordinal: nat, fam: Family): Option<Event> {
    if fam !in before then None
    else if fam !in after then Some(Removed(fam, before[fam], oldOrdinal, ordinal))
    else if after[fam] != before[fam] then Some(Upgraded(fam, before[fam], oldOrdinal, after[fam], ordinal))
    else None
  }

  /** What happens to a family between the snapshot before j and the one at j. */
  function Change(states: States, ordinals: seq<nat>, j: nat, fam: Family): Option<Event> {
    if 1 <= j < |ordinals| then
      var start := RunStart(states, ordinals, j - 1, fam);
      EventOf(At(states, ordinals, j - 1), At(states, ordinals, j),
              if start < |ordinals| then ordinals[start] else 0, ordinals[j], fam)
    else None
  }

  ghost predicate Occurs(states: States, ordinals: seq<nat>, n: nat, e: Event) {
    exists j: nat, fam: Family {:trigger Change(states, ordinals, j, fam)} ::
        j < n && Change(states, ordinals, j, fam) == Some(e)
  }

  ghost predicate AllDifferent(events: seq<Event>) {
    forall i, j | 0 <= i < j < |events| :: events[i] != events[j]
  }

  // ---- the diff ----------------------------------------------------------------------------------

  function Written(prevWrite: map<Family, nat>, fam: Family, prevOrdinal: nat): nat {
    if fam in prevWrite then prevWrite[fam] else prevOrdinal
  }

  method DiffOne(prev: Snapshot, cur: Snapshot, prevWrite: map<Family, nat>, prevOrdinal: nat, ordinal: nat)
    returns (added: seq<Event>)
    ensures AllDifferent(added)
    ensures forall e {:trigger e in added} :: e in added ==>
              e.fam in prev && EventOf(prev, cur, Written(prevWrite, e.fam, prevOrdinal), ordinal, e.fam) == Some(e)
    ensures forall fam {:trigger fam in prev} :: fam in prev ==>
              var e := EventOf(prev, cur, Written(prevWrite, fam, prevOrdinal), ordinal, fam);
              e.Some? ==> e.value in added
  {
    added := [];
    var left := prev.Keys;
    while left != {}
      invariant left <= prev.Keys && AllDifferent(added)
      invariant forall i | 0 <= i < |added| :: added[i].fam !in left
      invariant forall e {:trigger e in added} :: e in added ==>
                  e.fam in prev && EventOf(prev, cur, Written(prevWrite, e.fam, prevOrdinal), ordinal, e.fam) == Some(e)
      invariant forall fam {:trigger fam in prev} :: fam in prev && fam !in left ==>
                  var e := EventOf(prev, cur, Written(prevWrite, fam, prevOrdinal), ordinal, fam);
                  e.Some? ==> e.value in added
      decreases |left|
    {
      var fam :| fam in left;
      left := left - {fam};
      var oldVersion, oldOrdinal := prev[fam], Written(prevWrite, fam, prevOrdinal);
      if fam !in cur {
        added := added + [Removed(fam, oldVersion, oldOrdinal, ordinal)];
      } else if cur[fam] != oldVersion {
        added := added + [Upgraded(fam, oldVersion, oldOrdinal, cur[fam], ordinal)];
      }
    }
  }

  /** Whether the family's last write is as it should be after a snapshot. */
  ghost predicate Noted(prev: Snapshot, cur: Snapshot, before: map<Family, nat>, after: map<Family, nat>, ordinal: nat,
                        fam: Family, unseen: set<Family>) {
    if fam !in unseen && fam in cur && !Holds(prev, fam, cur[fam]) then fam in after && after[fam] == ordinal
    else (fam in after <==> fam in before) && (fam in after ==> after[fam] == before[fam])
  }

  method NoteWrites(prev: Snapshot, cur: Snapshot, prevWrite: map<Family, nat>, ordinal: nat)
    returns (w: map<Family, nat>)
    ensures forall fam :: Noted(prev, cur, prevWrite, w, ordinal, fam, {})
  {
    w := prevWrite;
    var left := cur.Keys;
    while left != {}
      invariant left <= cur.Keys
      invariant forall fam {:trigger Noted(prev, cur, prevWrite, w, ordinal, fam, left)} ::
                  Noted(prev, cur, prevWrite, w, ordinal, fam, left)
      decreases |left|
    {
      var fam :| fam in left;
      ghost var before, unseen := w, left;
      left := left - {fam};
      if fam !in prev || prev[fam] != cur[fam] {
        w := w[fam := ordinal];
      }
      forall f ensures Noted(prev, cur, prevWrite, w, ordinal, f, left) {
        assert Noted(prev, cur, prevWrite, before, ordinal, f, unseen);
      }
    }
    forall fam ensures Noted(prev, cur, prevWrite, w, ordinal, fam, {}) {
      assert Noted(prev, cur, prevWrite, w, ordinal, fam, left);
    }
  }

  /** Every family now present was last written where its current run began. */
  ghost predicate WritesKnown(states: States, ordinals: seq<nat>, j: nat, w: map<Family, nat>)
    requires j < |ordinals|
  {
    forall fam {:trigger Written(w, fam, 0)} :: fam in At(states, ordinals, j) ==>
      fam in w && RunStart(states, ordinals, j, fam) < |ordinals|
          && w[fam] == ordinals[RunStart(states, ordinals, j, fam)]
  }

  lemma {:induction false} RunStartBound(states: States, ordinals: seq<nat>, j: nat, fam: Family)
    ensures RunStart(states, ordinals, j, fam) <= j
  {
    if j == 0 {
    } else {
      RunStartBound(states, ordinals, j - 1, fam);
    }
  }

  lemma WritesCarry(states: States, ordinals: seq<nat>, j: nat, before: map<Family, nat>, after: map<Family, nat>)
    requires j < |ordinals| && (j > 0 ==> WritesKnown(states, ordinals, j - 1, before))
    requires forall fam :: Noted(Previous(states, ordinals, j), At(states, ordinals, j), before, after, ordinals[j],
             fam, {})
    ensures WritesKnown(states, ordinals, j, after)
  {
    forall fam | fam in At(states, ordinals, j)
      ensures fam in after && RunStart(states, ordinals, j, fam) < |ordinals|
              && after[fam] == ordinals[RunStart(states, ordinals, j, fam)]
    {
      assert Noted(Previous(states, ordinals, j), At(states, ordinals, j), before, after, ordinals[j], fam, {});
      assert Written(before, fam, 0) == if fam in before then before[fam] else 0;
    }
  }

  /** The events of one pair of snapshots are the changes at j. */
  ghost predicate AreChanges(states: States, ordinals: seq<nat>, j: nat, added: seq<Event>) {
    && (forall e {:trigger e in added} :: e in added ==> Change(states, ordinals, j, e.fam) == Some(e))
    && forall fam {:trigger Change(states, ordinals, j, fam)} ::
         Change(states, ordinals, j, fam).Some? ==> Change(states, ordinals, j, fam).value in added
  }

  method DiffPair(states: States, ordinals: seq<nat>, j: nat, prevWrite: map<Family, nat>) returns (added: seq<Event>)
    requires IsOrder(states, ordinals) && 1 <= j < |ordinals| && WritesKnown(states, ordinals, j - 1, prevWrite)
    ensures AllDifferent(added) && AreChanges(states, ordinals, j, added)
  {
    assert ordinals[j] in ordinals && ordinals[j - 1] in ordinals;
    var prev, cur := states[ordinals[j - 1]], states[ordinals[j]];
    added := DiffOne(prev, cur, prevWrite, ordinals[j - 1], ordinals[j]);
    forall fam | fam in prev ensures
      Change(states, ordinals, j, fam) == EventOf(prev, cur, Written(prevWrite, fam, ordinals[j - 1]), ordinals[j], fam)
    {
      assert Written(prevWrite, fam, 0) == Written(prevWrite, fam, ordinals[j - 1]);
    }
  }

  lemma MoreEvents(states: States, ordinals: seq<nat>, j: nat, events: seq<Event>, added: seq<Event>)
    requires Ascending(ordinals) && 1 <= j < |ordinals|
    requires AllDifferent(events) && AllDifferent(added) && AreChanges(states, ordinals, j, added)
    requires forall e :: e in events <==> Occurs(states, ordinals, j, e)
    ensures AllDifferent(events + added)
    ensures forall e :: e in events + added <==> Occurs(states, ordinals, j + 1, e)
  {
    forall e ensures e in events + added <==> Occurs(states, ordinals, j + 1, e) {
      if e in added {
        assert Change(states, ordinals, j, e.fam) == Some(e);
      }
      if Occurs(states, ordinals, j, e) {
        var k: nat, fam :| k < j && Change(states, ordinals, k, fam) == Some(e);
      }
      if Occurs(states, ordinals, j + 1, e) {
        var k: nat, fam :| k < j + 1 && Change(states, ordinals, k, fam) == Some(e);
        if k < j {
          assert Occurs(states, ordinals, j, e);
        }
      }
    }
    forall a, b | 0 <= a < |events| && 0 <= b < |added| ensures events[a] != added[b] {
      assert events[a] in events && added[b] in added;
      var k: nat, fam :| k < j && Change(states, ordinals, k, fam) == Some(events[a]);
      assert Change(states, ordinals, j, added[b].fam) == Some(added[b]);
    }
  }

  method DiffTimeline(states: States) returns (events: seq<Event>, ghost ordinals: seq<nat>)
    ensures IsOrder(states, ordinals) && AllDifferent(events)
    ensures forall e :: e in events <==> Occurs(states, ordinals, |ordinals|, e)
    ensures forall e :: e in events <==> Happened(states, e)
  {
    var order := SortedNats(states.Keys);
    ordinals := order;
    events := [];
    var prev: Snapshot, prevWrite: map<Family, nat> := map[], map[];
    for i := 0 to |order|
      invariant prev == Previous(states, order, i)
      invariant i > 0 ==> WritesKnown(states, order, i - 1, prevWrite)
      invariant AllDifferent(events) && forall e :: e in events <==> Occurs(states, order, i, e)
    {
      assert order[i] in order;
      if i > 0 {
        var added := DiffPair(states, order, i, prevWrite);
        MoreEvents(states, order, i, events, added);
        events := events + added;
      }
      ghost var before := prevWrite;
      prevWrite := NoteWrites(prev, states[order[i]], prevWrite, order[i]);
      WritesCarry(states, order, i, before, prevWrite);
      prev := states[order[i]];
    }
    forall e ensures e in events <==> Happened(states, e) {
      OccursIff(states, order, e);
    }
  }

  // ---- what the timeline says -------------------------------------------------------------------

  /** The old ordinal names the first of the unbroken run of snapshots holding the old version. */
  lemma {:induction false} RunIsMaximal(states: States, ordinals: seq<nat>, j: nat, fam: Family)
    requires j < |ordinals| && fam in At(states, ordinals, j)
    ensures var s := RunStart(states, ordinals, j, fam);
            s <= j
            && (forall k: nat | s <= k <= j :: Holds(At(states, ordinals, k), fam, At(states, ordinals, j)[fam]))
            && (s > 0 ==> !Holds(At(states, ordinals, s - 1), fam, At(states, ordinals, j)[fam]))
  {
    if j > 0 && Holds(At(states, ordinals, j - 1), fam, At(states, ordinals, j)[fam]) {
      RunIsMaximal(states, ordinals, j - 1, fam);
    }
  }

  /** Two snapshots with none between them. */
  ghost predicate Adjoin(states: States, a: nat, b: nat) {
    a in states && b in states && a < b && forall o <- states :: o <= a || b <= o
  }

  /** From `start` to `end` every snapshot holds the version, and the one before `start` does not. */
  ghost predicate HeldSince(states: States, fam: Family, version: string, start: nat, end: nat) {
    && start in states && start <= end
    && (forall o <- states | start <= o <= end :: Holds(states[o], fam, version))
    && forall o <- states | Adjoin(states, o, start) :: !Holds(states[o], fam, version)
  }

  /** Between two adjoining snapshots a family went from a version it had held since the old ordinal:
      to none, or to another. */
  ghost predicate BecameAt(states: States, e: Event, last: nat) {
    && Adjoin(states, last, e.newOrdinal) && HeldSince(states, e.fam, e.oldVersion, e.oldOrdinal, last)
    && match e
       case Removed(fam, _, _, _) => fam !in states[e.newOrdinal]
       case Upgraded(fam, old', _, new', _) => Holds(states[e.newOrdinal], fam, new') && new' != old'
  }

  ghost predicate Happened(states: States, e: Event) {
    exists last: nat :: BecameAt(states, e, last)
  }

  lemma OrderedAdjoin(states: States, ordinals: seq<nat>, j: nat)
    requires IsOrder(states, ordinals) && 0 < j < |ordinals|
    ensures Adjoin(states, ordinals[j - 1], ordinals[j])
  {
    assert ordinals[j - 1] in ordinals && ordinals[j] in ordinals;
    forall o | o in states ensures o <= ordinals[j - 1] || ordinals[j] <= o {
      assert o in ordinals;
      var k :| 0 <= k < |ordinals| && ordinals[k] == o;
    }
  }

  lemma AdjoinOrdered(states: States, ordinals: seq<nat>, a: nat, b: nat) returns (j: nat)
    requires IsOrder(states, ordinals) && Adjoin(states, a, b)
    ensures 0 < j < |ordinals| && ordinals[j - 1] == a && ordinals[j] == b
  {
    assert a in ordinals && b in ordinals;
    var i: nat :| i < |ordinals| && ordinals[i] == a;
    j :| 0 <= j < |ordinals| && ordinals[j] == b;
    assert i < j;
    var next := ordinals[i + 1];
    assert next in ordinals;
  }

  /** The run of equal versions that reaches j, over the snapshots. */
  lemma {:induction false} RunIsHeld(states: States, ordinals: seq<nat>, j: nat, fam: Family)
    requires IsOrder(states, ordinals) && j < |ordinals| && fam in At(states, ordinals, j)
    ensures RunStart(states, ordinals, j, fam) <= j
    ensures HeldSince(states, fam, At(states, ordinals, j)[fam], ordinals[RunStart(states, ordinals, j, fam)],
            ordinals[j])
  {
    var s, version := RunStart(states, ordinals, j, fam), At(states, ordinals, j)[fam];
    RunIsMaximal(states, ordinals, j, fam);
    assert ordinals[s] in ordinals;
    forall o | o in states && ordinals[s] <= o <= ordinals[j] ensures Holds(states[o], fam, version) {
      assert o in ordinals;
      var k: nat :| k < |ordinals| && ordinals[k] == o;
      assert s <= k <= j;
      assert Holds(At(states, ordinals, k), fam, version);
    }
    forall o | o in states && Adjoin(states, o, ordinals[s]) ensures !Holds(states[o], fam, version) {
      var k := AdjoinOrdered(states, ordinals, o, ordinals[s]);
      assert k == s;
    }
  }

  lemma HeldUnique(states: States, ordinals: seq<nat>, fam: Family, version: string, a: nat, b: nat, end: nat)
    requires IsOrder(states, ordinals)
    requires HeldSince(states, fam, version, a, end) && HeldSince(states, fam, version, b, end)
    ensures a >= b
  {
    if a < b {
      assert b in ordinals && a in ordinals;
      var k :| 0 <= k < |ordinals| && ordinals[k] == b;
      var i :| 0 <= i < |ordinals| && ordinals[i] == a;
      var before := ordinals[k - 1];
      assert i <= k - 1;
      OrderedAdjoin(states, ordinals, k);
    }
  }

  lemma ChangeHappened(states: States, ordinals: seq<nat>, j: nat, fam: Family, e: Event)
    requires IsOrder(states, ordinals) && 0 < j < |ordinals| && Change(states, ordinals, j, fam) == Some(e)
    ensures BecameAt(states, e, ordinals[j - 1])
  {
    OrderedAdjoin(states, ordinals, j);
    RunIsHeld(states, ordinals, j - 1, fam);
  }

  lemma {:induction false} StartIs(states: States, ordinals: seq<nat>, j: nat, fam: Family, version: string, start: nat)
    requires IsOrder(states, ordinals) && j < |ordinals| && HeldSince(states, fam, version, start, ordinals[j])
    ensures Holds(At(states, ordinals, j), fam, version)
    ensures RunStart(states, ordinals, j, fam) <= j && ordinals[RunStart(states, ordinals, j, fam)] == start
  {
    assert ordinals[j] in ordinals;
    assert Holds(states[ordinals[j]], fam, version);
    RunIsHeld(states, ordinals, j, fam);
    var first := ordinals[RunStart(states, ordinals, j, fam)];
    HeldUnique(states, ordinals, fam, version, first, start, ordinals[j]);
    HeldUnique(states, ordinals, fam, version, start, first, ordinals[j]);
  }

  lemma HappenedChange(states: States, ordinals: seq<nat>, last: nat, e: Event) returns (j: nat)
    requires IsOrder(states, ordinals) && BecameAt(states, e, last)
    ensures 0 < j < |ordinals| && Change(states, ordinals, j, e.fam) == Some(e)
  {
    j := AdjoinOrdered(states, ordinals, last, e.newOrdinal);
    StartIs(states, ordinals, j - 1, e.fam, e.oldVersion, e.oldOrdinal);
  }

  /** The events are exactly what happened between consecutive snapshots. */
  lemma OccursIff(states: States, ordinals: seq<nat>, e: Event)
    requires IsOrder(states, ordinals)
    ensures Occurs(states, ordinals, |ordinals|, e) <==> Happened(states, e)
  {
    if Occurs(states, ordinals, |ordinals|, e) {
      var j: nat, fam: Family :| j < |ordinals| && Change(states, ordinals, j, fam) == Some(e);
      ChangeHappened(states, ordinals, j, fam, e);
    }
    if Happened(states, e) {
      var last: nat :| BecameAt(states, e, last);
      var j := HappenedChange(states, ordinals, last, e);
    }
  }

  /** No event for a family between two snapshots: it stays as it was. */
  ghost predicate Undisturbed(states: States, ordinals: seq<nat>, i: nat, j: nat, fam: Family) {
    forall k: nat {:trigger Change(states, ordinals, k, fam)} | i < k < j :: Change(states, ordinals, k, fam).None?
  }

  lemma {:induction false} Stays(states: States, ordinals: seq<nat>, i: nat, j: nat, fam: Family)
    requires i <= j < |ordinals| && fam in At(states, ordinals, i) && Undisturbed(states, ordinals, i, j + 1, fam)
    ensures Holds(At(states, ordinals, j), fam, At(states, ordinals, i)[fam])
    ensures RunStart(states, ordinals, j, fam) == RunStart(states, ordinals, i, fam)
    decreases j - i
  {
    if i < j {
      assert Undisturbed(states, ordinals, i, j, fam);
      Stays(states, ordinals, i, j - 1, fam);
      assert Change(states, ordinals, j, fam).None?;
    }
  }

  /** An upgrade hands over to the family's next event: the version it brought in, and the
      snapshot where it did. */
  lemma EventsChain(states: States, ordinals: seq<nat>, i: nat, j: nat, fam: Family)
    requires i < j && Undisturbed(states, ordinals, i, j, fam)
    requires Change(states, ordinals, i, fam).Some? && Change(states, ordinals, i, fam).value.Upgraded?
    requires Change(states, ordinals, j, fam).Some?
    ensures Change(states, ordinals, j, fam).value.oldVersion == Change(states, ordinals, i, fam).value.newVersion
    ensures Change(states, ordinals, j, fam).value.oldOrdinal == Change(states, ordinals, i, fam).value.newOrdinal
  {
    Stays(states, ordinals, i, j - 1, fam);
  }

  // ---- first seen ----------------------------------------------------------------------------------

  method FirstSeen(states: States, fam: Family, version: string) returns (first: Option<nat>)
    ensures first.Some? ==> first.value in states && Holds(states[first.value], fam, version)
    ensures forall o: nat | o in states && Holds(states[o], fam, version) :: first.Some? && first.value <= o
  {
    var order := SortedNats(states.Keys);
    for i := 0 to |order|
      invariant forall k: nat | k < i :: !Holds(states[order[k]], fam, version)
    {
      assert order[i] in order;
      if fam in states[order[i]] && states[order[i]][fam] == version {
        forall o: nat | o in states && Holds(states[o], fam, version) ensures order[i] <= o {
          assert o in order;
        }
        return Some(order[i]);
      }
    }
    forall o: nat | o in states ensures !Holds(states[o], fam, version) {
      assert o in order;
    }
    return None;
  }
}
