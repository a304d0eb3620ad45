// When the archive readers, whose cursors follow what headers state, come to an end.
module ReaderEnds {
  import opened Basics
  import opened Iteration
  import opened Unpack

  type Way = Cursor -> Option<Cursor>

  /** One turn of a reader that does not end its run. */
  function WayOf(reader: Reader): Way {
    (c: Cursor) => match reader(c) case Stop(_) => None case Next(d) => Some(d)
  }

  /** The cursor after n turns, if the run is that long. */
  function Nth(reader: Reader, c: Cursor, n: nat): Option<Cursor> {
    Iterate(WayOf(reader), c, n)
  }

  lemma {:induction false} RunningIff(reader: Reader, c: Cursor, limit: nat)
    ensures Run(reader, c, limit).Running? <==> Nth(reader, c, limit).Some?
    decreases limit
  {
    if limit > 0 && reader(c).Next? {
      RunningIff(reader, reader(c).cursor, limit - 1);
    }
  }

  lemma NthNext(reader: Reader, c: Cursor, n: nat)
    requires Nth(reader, c, n + 1).Some?
    ensures Nth(reader, c, n).Some? && reader(Nth(reader, c, n).value).Next?
    ensures Nth(reader, c, n + 1).value == reader(Nth(reader, c, n).value).cursor
  {
    IterateOnward(WayOf(reader), c, n, 1);
    assert Iterate(WayOf(reader), Nth(reader, c, n).value, 1) == WayOf(reader)(Nth(reader, c, n).value);
  }

  // ---- cursors that advance ---------------------------------------------------------------------

  /** While they are visited, each turn moves the cursor on, and none past the end. */
  ghost predicate Advances(reader: Reader, c: Cursor, end: int) {
    forall n: nat {:trigger Nth(reader, c, n + 1)} ::
      Nth(reader, c, n + 1).Some? && Nth(reader, c, n).Some?
      ==> Nth(reader, c, n).value.pos < end && Nth(reader, c, n).value.pos < Nth(reader, c, n + 1).value.pos
  }

  lemma {:induction false} AdvancedBy(reader: Reader, c: Cursor, end: int, n: nat)
    requires Advances(reader, c, end) && Nth(reader, c, n).Some?
    ensures c.pos + n <= Nth(reader, c, n).value.pos
    decreases n
  {
    if n == 0 {
    } else {
      NthNext(reader, c, n - 1);
      AdvancedBy(reader, c, end, n - 1);
      assert Nth(reader, c, n - 1 + 1).Some?;
    }
  }

  lemma {:induction false} AdvancingFinishes(reader: Reader, c: Cursor, end: nat)
    requires Advances(reader, c, end) && c.pos >= 0
    ensures Run(reader, c, end + 1).Finished?
  {
    RunningIff(reader, c, end + 1);
    if Nth(reader, c, end + 1).Some? {
      NthNext(reader, c, end);
      AdvancedBy(reader, c, end, end);
    }
  }

  predicate StatesMore(heading: Heading, data: Bytes, pos: int) {
    SizeAt(heading, data, pos).Some? ==> SizeAt(heading, data, pos).value > -60
  }

  /** Where none of the headers visited states a size of minus sixty or less, an ar file is read to
      the end within its length. */
  lemma {:induction false} ArFinishes(heading: Heading, data: Bytes)
    requires forall n: nat | Nth(ArWith(heading, data), AR_START, n).Some? ::
               StatesMore(heading, data, Nth(ArWith(heading, data), AR_START, n).value.pos)
    ensures Run(ArWith(heading, data), AR_START, |data| + 1).Finished?
  {
    var reader := ArWith(heading, data);
    forall n: nat | Nth(reader, AR_START, n + 1).Some? && Nth(reader, AR_START, n).Some?
      ensures Nth(reader, AR_START, n).value.pos < |data|
      ensures Nth(reader, AR_START, n).value.pos < Nth(reader, AR_START, n + 1).value.pos
    {
      NthNext(reader, AR_START, n);
      assert StatesMore(heading, data, Nth(reader, AR_START, n).value.pos);
      ArAdvances(heading, data, Nth(reader, AR_START, n).value);
    }
    AdvancingFinishes(reader, AR_START, |data|);
  }

  predicate SizesAreNatural(field: Field) {
    (field(NAMESIZE).Some? ==> field(NAMESIZE).value >= 0) && (field(FILESIZE).Some? ==> field(FILESIZE).value >= 0)
  }

  ghost predicate KeepsAligned(reader: Reader) {
    forall c: Cursor {:trigger reader(c)} | c.pos % 4 == 0 && reader(c).Next? :: reader(c).cursor.pos % 4 == 0
  }

  lemma CpioKeepsAligned(numeral: Numeral, data: Bytes)
    ensures KeepsAligned(CpioWith(numeral, data))
  {
    forall c: Cursor | c.pos % 4 == 0 && CpioStep(numeral, data, c).Next?
      ensures CpioStep(numeral, data, c).cursor.pos % 4 == 0
    {
      CpioAdvances(numeral, data, c);
    }
  }

  lemma {:induction false} StaysAligned(reader: Reader, c: Cursor, n: nat)
    requires KeepsAligned(reader) && c.pos % 4 == 0 && Nth(reader, c, n).Some?
    ensures Nth(reader, c, n).value.pos % 4 == 0
    decreases n
  {
    if n == 0 {
    } else {
      NthNext(reader, c, n - 1);
      StaysAligned(reader, c, n - 1);
    }
  }

  /** Where none of the headers visited states a negative name or file size, a cpio file is read to
      the end within its length. */
  lemma {:induction false} CpioFinishes(numeral: Numeral, data: Bytes)
    requires forall n: nat | Nth(CpioWith(numeral, data), CPIO_START, n).Some? ::
               SizesAreNatural(CpioField(numeral, data, Nth(CpioWith(numeral, data), CPIO_START, n).value.pos))
    ensures Run(CpioWith(numeral, data), CPIO_START, |data| + 1).Finished?
  {
    var reader := CpioWith(numeral, data);
    CpioKeepsAligned(numeral, data);
    forall n: nat | Nth(reader, CPIO_START, n + 1).Some? && Nth(reader, CPIO_START, n).Some?
      ensures Nth(reader, CPIO_START, n).value.pos < |data|
      ensures Nth(reader, CPIO_START, n).value.pos < Nth(reader, CPIO_START, n + 1).value.pos
    {
      NthNext(reader, CPIO_START, n);
      StaysAligned(reader, CPIO_START, n);
      CpioAdvances(numeral, data, Nth(reader, CPIO_START, n).value);
    }
    AdvancingFinishes(reader, CPIO_START, |data|);
  }

  // ---- cursors that come back --------------------------------------------------------------------

  /** A turn is decided by the position, except that it is the last one once the members are too
      many; where it is not the last, the position lies in a range of the file's making. */
  ghost predicate ByPosition(reader: Reader, next: int -> int, adds: int -> set<Bytes>, lo: int, count: nat) {
    && (forall c: Cursor {:trigger Turns(reader, next, adds, lo, count, c)} :: Turns(reader, next, adds, lo, count, c))
    && forall c: Cursor, d: Cursor {:trigger Agree(reader, c, d)} :: Agree(reader, c, d)
  }

  ghost predicate Turns(reader: Reader, next: int -> int, adds: int -> set<Bytes>, lo: int, count: nat, c: Cursor) {
    reader(c).Next? ==>
      var d := reader(c).cursor;
      && lo <= c.pos < lo + count && |c.out.members| < MAX_MEMBERS
      && d.pos == next(c.pos) && d.out.members.Keys == c.out.members.Keys + adds(c.pos)
  }

  lemma TurnsAs(reader: Reader, next: int -> int, adds: int -> set<Bytes>, lo: int, count: nat, c: Cursor,
                turn: Step, pos: int, names: set<Bytes>)
    requires reader(c) == turn && next(c.pos) == pos && adds(c.pos) == names
    requires turn.Next? ==>
               && lo <= c.pos < lo + count && |c.out.members| < MAX_MEMBERS
               && turn.cursor.pos == pos && turn.cursor.out.members.Keys == c.out.members.Keys + names
    ensures Turns(reader, next, adds, lo, count, c)
  {
  }

  ghost predicate Agree(reader: Reader, c: Cursor, d: Cursor) {
    reader(c).Next? && d.pos == c.pos && |d.out.members| < MAX_MEMBERS ==> reader(d).Next?
  }

  /** The cursor is in a loop of positions whose names it has all seen. */
  ghost predicate Looping(reader: Reader, c: Cursor, i: nat, j: nat, d: Cursor) {
    && Nth(reader, c, j).Some? && d.out.members.Keys == Nth(reader, c, j).value.out.members.Keys
    && exists m: nat :: i <= m < j && Passes(reader, c, m, d.pos)
  }

  ghost predicate Passes(reader: Reader, c: Cursor, m: nat, pos: int) {
    Nth(reader, c, m).Some? && Nth(reader, c, m).value.pos == pos
  }

  lemma {:induction false} NamesGrow(reader: Reader, next: int -> int, adds: int -> set<Bytes>, lo: int, count: nat,
                                     c: Cursor, m: nat, j: nat)
    requires ByPosition(reader, next, adds, lo, count) && m < j && Nth(reader, c, j).Some?
    ensures Nth(reader, c, m).Some? && reader(Nth(reader, c, m).value).Next?
    ensures adds(Nth(reader, c, m).value.pos) <= Nth(reader, c, j).value.out.members.Keys
    decreases j
  {
    NthNext(reader, c, j - 1);
    var d := Nth(reader, c, j - 1).value;
    assert Turns(reader, next, adds, lo, count, d);
    if m < j - 1 {
      NamesGrow(reader, next, adds, lo, count, c, m, j - 1);
    }
  }

  lemma SameTurn(reader: Reader, next: int -> int, adds: int -> set<Bytes>, lo: int, count: nat,
                 from: Cursor, last: Cursor, d: Cursor)
    requires ByPosition(reader, next, adds, lo, count) && reader(from).Next? && reader(last).Next?
    requires d.pos == from.pos && d.out.members.Keys == last.out.members.Keys
    requires adds(from.pos) <= last.out.members.Keys
    ensures reader(d).Next? && reader(d).cursor.pos == reader(from).cursor.pos
    ensures reader(d).cursor.out.members.Keys == last.out.members.Keys
  {
    assert Turns(reader, next, adds, lo, count, last);
    SameSize(d.out.members, last.out.members);
    assert Agree(reader, from, d);
    assert Turns(reader, next, adds, lo, count, d) && Turns(reader, next, adds, lo, count, from);
  }

  lemma LoopStep(reader: Reader, next: int -> int, adds: int -> set<Bytes>, lo: int, count: nat,
                 c: Cursor, i: nat, j: nat, d: Cursor)
    requires ByPosition(reader, next, adds, lo, count) && Looping(reader, c, i, j, d)
    requires Nth(reader, c, j + 1).Some? && Passes(reader, c, i, Nth(reader, c, j).value.pos)
    ensures reader(d).Next? && Looping(reader, c, i, j, reader(d).cursor)
  {
    var m: nat :| i <= m < j && Passes(reader, c, m, d.pos);
    NamesGrow(reader, next, adds, lo, count, c, m, j);
    NthNext(reader, c, j);
    SameTurn(reader, next, adds, lo, count, Nth(reader, c, m).value, Nth(reader, c, j).value, d);
    PassesNext(reader, c, i, j, m, reader(d).cursor.pos);
  }

  lemma PassesNext(reader: Reader, c: Cursor, i: nat, j: nat, m: nat, pos: int)
    requires i <= m < j && Nth(reader, c, j).Some? && Passes(reader, c, i, Nth(reader, c, j).value.pos)
    requires Nth(reader, c, m).Some? && reader(Nth(reader, c, m).value).Next?
    requires pos == reader(Nth(reader, c, m).value).cursor.pos
    ensures exists k: nat :: i <= k < j && Passes(reader, c, k, pos)
  {
    IterateOnward(WayOf(reader), c, m + 1, j - m - 1);
    NthNext(reader, c, m);
    assert Passes(reader, c, if m + 1 == j then i else m + 1, pos);
  }

  lemma SameSize(a: map<Bytes, Bytes>, b: map<Bytes, Bytes>)
    requires a.Keys == b.Keys
    ensures |a| == |b|
  {
    assert |a| == |a.Keys| && |b| == |b.Keys|;
  }

  lemma {:induction false} LoopsOn(reader: Reader, next: int -> int, adds: int -> set<Bytes>, lo: int, count: nat,
                                   c: Cursor, i: nat, j: nat, d: Cursor, n: nat)
    requires ByPosition(reader, next, adds, lo, count) && Looping(reader, c, i, j, d)
    requires Nth(reader, c, j + 1).Some? && Passes(reader, c, i, Nth(reader, c, j).value.pos)
    ensures Nth(reader, d, n).Some?
    decreases n
  {
    if n == 0 {
    } else {
      LoopStep(reader, next, adds, lo, count, c, i, j, d);
      LoopsOn(reader, next, adds, lo, count, c, i, j, reader(d).cursor, n - 1);
    }
  }

  /** Some position is met twice in a run of more turns than there are positions. */
  lemma MetAgain(reader: Reader, next: int -> int, adds: int -> set<Bytes>, lo: int, count: nat, c: Cursor)
    returns (i: nat, j: nat)
    requires ByPosition(reader, next, adds, lo, count) && Nth(reader, c, count + 1).Some?
    ensures i < j <= count && Nth(reader, c, j).Some? && Passes(reader, c, i, Nth(reader, c, j).value.pos)
  {
    forall k: nat | k <= count ensures Nth(reader, c, k).Some? && lo <= Nth(reader, c, k).value.pos < lo + count {
      IterateOnward(WayOf(reader), c, k + 1, count - k);
      NthNext(reader, c, k);
      var d := Nth(reader, c, k).value;
      assert Turns(reader, next, adds, lo, count, d);
    }
    var positions := seq(count + 1, k requires 0 <= k < count + 1 => Nth(reader, c, k).value.pos);
    i, j := Pigeonhole(positions, lo, count);
    assert positions[i] == positions[j];
  }

  /** After j turns the run is back at a position where it was after i, and takes another turn. */
  ghost predicate ComesBack(reader: Reader, c: Cursor, i: nat, j: nat) {
    i < j && Nth(reader, c, j).Some? && Nth(reader, c, j + 1).Some? && Passes(reader, c, i, Nth(reader, c, j).value.pos)
  }

  /** Some position is visited twice with a turn still to come. */
  ghost predicate Returns(reader: Reader, c: Cursor) {
    exists i: nat, j: nat :: ComesBack(reader, c, i, j)
  }

  /** A run that comes back never ends. */
  lemma NeverEnds(reader: Reader, next: int -> int, adds: int -> set<Bytes>, lo: int, count: nat, c: Cursor,
                  i: nat, j: nat, n: nat)
    requires ByPosition(reader, next, adds, lo, count) && ComesBack(reader, c, i, j)
    ensures Nth(reader, c, n).Some?
  {
    var d := Nth(reader, c, j).value;
    assert Looping(reader, c, i, j, d);
    LoopsOn(reader, next, adds, lo, count, c, i, j, d, n);
    IterateOnward(WayOf(reader), c, j, n);
    IterateOnward(WayOf(reader), c, n, j);
  }

  /** A run of more turns than there are positions comes back. */
  lemma LongRunReturns(reader: Reader, next: int -> int, adds: int -> set<Bytes>, lo: int, count: nat, c: Cursor)
    requires ByPosition(reader, next, adds, lo, count) && Nth(reader, c, count + 1).Some?
    ensures Returns(reader, c)
  {
    var i, j := MetAgain(reader, next, adds, lo, count, c);
    IterateOnward(WayOf(reader), c, j + 1, count - j);
    assert ComesBack(reader, c, i, j);
  }

  lemma {:induction false} EndsIff(reader: Reader, next: int -> int, adds: int -> set<Bytes>, lo: int, count: nat,
                                   c: Cursor)
    requires ByPosition(reader, next, adds, lo, count)
    ensures (exists limit: nat :: Run(reader, c, limit).Finished?) <==> !Returns(reader, c)
    ensures !Returns(reader, c) ==> Run(reader, c, count + 1).Finished?
  {
    RunningIff(reader, c, count + 1);
    if Nth(reader, c, count + 1).Some? {
      LongRunReturns(reader, next, adds, lo, count, c);
    }
    if i: nat, j: nat :| ComesBack(reader, c, i, j) {
      forall limit: nat ensures Run(reader, c, limit).Running? {
        NeverEnds(reader, next, adds, lo, count, c, i, j, limit);
        RunningIff(reader, c, limit);
      }
    }
  }

  // ---- the two readers ----------------------------------------------------------------------------

  function Adding(name: Bytes, content: bool): set<Bytes> {
    if content then {name} else {}
  }

  function ArNext(heading: Heading, data: Bytes): int -> int {
    (pos: int) => ArBeyond(pos, SizeAt(heading, data, pos))
  }

  function ArBeyond(pos: int, size: Option<int>): int {
    pos + 60 + Even(if size.Some? then size.value else 0)
  }

  function ArAdds(heading: Heading, data: Bytes): int -> set<Bytes> {
    (pos: int) => var name := heading(Slice(data, pos, pos + 60)).name; Adding(name, name != [])
  }

  /** There is nothing to read a header from below the start of the file. */
  lemma NothingBelow(data: Bytes, pos: int, length: nat)
    requires pos + length <= -|data|
    ensures Slice(data, pos, pos + length) == []
  {
  }

  /** No text, no size. */
  lemma EmptyStatesNothing()
    ensures ArHeading()([]).size == None
  {
    assert Slice([], 48, 58) == [];
  }

  /** Headers can be read from position `Lowest` on, at no more than `Positions` places. */
  function Lowest(data: Bytes): int {
    -|data| - 60
  }

  function Positions(data: Bytes): nat {
    2 * |data| + 60
  }

  lemma ArEntryTurns(data: Bytes, c: Cursor, name: Bytes, size: Option<int>)
    requires ArEntry(data, c, name, size).Next?
    ensures size.Some?
    ensures var d := ArEntry(data, c, name, size).cursor;
            d.pos == ArBeyond(c.pos, size) && d.out.members.Keys == c.out.members.Keys + Adding(name, name != [])
  {
  }

  lemma ArWithin(heading: Heading, data: Bytes, c: Cursor)
    requires heading([]).size == None && heading(Slice(data, c.pos, c.pos + 60)).size.Some?
    ensures Lowest(data) <= c.pos
  {
    if c.pos + 60 <= -|data| {
      NothingBelow(data, c.pos, 60);
    }
  }

  lemma ArStepTurns(heading: Heading, data: Bytes, c: Cursor, stated: Stated)
    requires heading([]).size == None && ArStep(heading, data, c).Next?
    requires stated == heading(Slice(data, c.pos, c.pos + 60))
    ensures Lowest(data) <= c.pos < Lowest(data) + Positions(data) && |c.out.members| < MAX_MEMBERS
    ensures var d := ArStep(heading, data, c).cursor;
            && d.pos == ArBeyond(c.pos, stated.size)
            && d.out.members.Keys == c.out.members.Keys + Adding(stated.name, stated.name != [])
  {
    assert ArStep(heading, data, c) == ArEntry(data, c, stated.name, stated.size);
    ArEntryTurns(data, c, stated.name, stated.size);
    ArWithin(heading, data, c);
  }

  lemma ArTurns(heading: Heading, data: Bytes, c: Cursor)
    requires heading([]).size == None
    ensures Turns(ArWith(heading, data), ArNext(heading, data), ArAdds(heading, data), Lowest(data), Positions(data), c)
  {
    var stated := heading(Slice(data, c.pos, c.pos + 60));
    if ArStep(heading, data, c).Next? {
      ArStepTurns(heading, data, c, stated);
    }
    TurnsAs(ArWith(heading, data), ArNext(heading, data), ArAdds(heading, data), Lowest(data), Positions(data), c,
            ArStep(heading, data, c), ArBeyond(c.pos, stated.size), Adding(stated.name, stated.name != []));
  }

  lemma ArAgrees(heading: Heading, data: Bytes, c: Cursor, d: Cursor)
    ensures Agree(ArWith(heading, data), c, d)
  {
  }

  lemma ArByPosition(heading: Heading, data: Bytes, reader: Reader, next: int -> int, adds: int -> set<Bytes>)
    requires heading([]).size == None
    requires reader == ArWith(heading, data) && next == ArNext(heading, data) && adds == ArAdds(heading, data)
    ensures ByPosition(reader, next, adds, Lowest(data), Positions(data))
  {
    forall c: Cursor ensures Turns(reader, next, adds, Lowest(data), Positions(data), c) {
      ArTurns(heading, data, c);
    }
    forall c: Cursor, d: Cursor ensures Agree(reader, c, d) {
      ArAgrees(heading, data, c, d);
    }
  }

  lemma ArEndsWith(heading: Heading, data: Bytes)
    requires heading([]).size == None
    ensures (exists limit: nat :: Run(ArWith(heading, data), AR_START, limit).Finished?)
       <==> !Returns(ArWith(heading, data), AR_START)
    ensures !Returns(ArWith(heading, data), AR_START) ==>
              Run(ArWith(heading, data), AR_START, Positions(data) + 1).Finished?
  {
    ArByPosition(heading, data, ArWith(heading, data), ArNext(heading, data), ArAdds(heading, data));
    EndsIff(ArWith(heading, data), ArNext(heading, data), ArAdds(heading, data), Lowest(data), Positions(data),
            AR_START);
  }

  /** Whatever its headers state, an ar file is read to an end exactly when no header position is
      visited twice with a turn still to come, and then within as many turns as there are positions. */
  lemma ArEndsIff(data: Bytes)
    ensures (exists limit: nat :: Run(Ar(data), AR_START, limit).Finished?) <==> !Returns(Ar(data), AR_START)
    ensures !Returns(Ar(data), AR_START) ==> Run(Ar(data), AR_START, Positions(data) + 1).Finished?
  {
    EmptyStatesNothing();
    ArEndsWith(ArHeading(), data);
  }

  function CpioNext(numeral: Numeral, data: Bytes): int -> int {
    (pos: int) => CpioBeyond(pos, CpioField(numeral, data, pos))
  }

  function CpioBeyond(pos: int, field: Field): int {
    if field(NAMESIZE).None? || field(FILESIZE).None? then 0
    else Align4(Align4(pos + 110 + field(NAMESIZE).value) + field(FILESIZE).value)
  }

  function CpioAdds(numeral: Numeral, data: Bytes): int -> set<Bytes> {
    (pos: int) => CpioNames(data, pos, CpioField(numeral, data, pos))
  }

  function CpioNames(data: Bytes, pos: int, field: Field): set<Bytes> {
    if field(NAMESIZE).None? || field(FILESIZE).None? then {}
    else Adding(Slice(data, pos + 110, pos + 110 + field(NAMESIZE).value - 1),
                field(FILESIZE).value != 0 && field(FILESIZE).value <= MAX_MEMBER_BYTES)
  }

  lemma CpioHeaderTurns(data: Bytes, c: Cursor, field: Field)
    requires CpioHeader(data, c, field).Next?
    ensures var d := CpioHeader(data, c, field).cursor;
            d.pos == CpioBeyond(c.pos, field)
            && d.out.members.Keys == c.out.members.Keys + CpioNames(data, c.pos, field)
  {
    assert field(NAMESIZE).Some? && field(FILESIZE).Some?;
  }

  lemma CpioHeaderAgain(data: Bytes, c: Cursor, d: Cursor, field: Field)
    requires CpioHeader(data, c, field).Next? && d.pos == c.pos
    ensures CpioHeader(data, d, field).Next?
  {
  }

  lemma CpioTurns(numeral: Numeral, data: Bytes, c: Cursor)
    ensures Turns(CpioWith(numeral, data), CpioNext(numeral, data), CpioAdds(numeral, data), Lowest(data),
            Positions(data), c)
  {
    var field := CpioField(numeral, data, c.pos);
    if CpioStep(numeral, data, c).Next? {
      CpioHeaderTurns(data, c, field);
      if c.pos + 6 <= -|data| {
        NothingBelow(data, c.pos, 6);
      }
    }
  }

  lemma CpioAgrees(numeral: Numeral, data: Bytes, c: Cursor, d: Cursor)
    ensures Agree(CpioWith(numeral, data), c, d)
  {
    if CpioStep(numeral, data, c).Next? && d.pos == c.pos {
      CpioHeaderAgain(data, c, d, CpioField(numeral, data, c.pos));
    }
  }

  lemma CpioByPosition(numeral: Numeral, data: Bytes, reader: Reader, next: int -> int, adds: int -> set<Bytes>)
    requires reader == CpioWith(numeral, data) && next == CpioNext(numeral, data) && adds == CpioAdds(numeral, data)
    ensures ByPosition(reader, next, adds, Lowest(data), Positions(data))
  {
    forall c: Cursor ensures Turns(reader, next, adds, Lowest(data), Positions(data), c) {
      CpioTurns(numeral, data, c);
    }
    forall c: Cursor, d: Cursor ensures Agree(reader, c, d) {
      CpioAgrees(numeral, data, c, d);
    }
  }

  lemma CpioEndsWith(numeral: Numeral, data: Bytes)
    ensures (exists limit: nat :: Run(CpioWith(numeral, data), CPIO_START, limit).Finished?)
       <==> !Returns(CpioWith(numeral, data), CPIO_START)
    ensures !Returns(CpioWith(numeral, data), CPIO_START) ==>
              Run(CpioWith(numeral, data), CPIO_START, Positions(data) + 1).Finished?
  {
    CpioByPosition(numeral, data, CpioWith(numeral, data), CpioNext(numeral, data), CpioAdds(numeral, data));
    EndsIff(CpioWith(numeral, data), CpioNext(numeral, data), CpioAdds(numeral, data), Lowest(data), Positions(data),
            CPIO_START);
  }

  /** The same for a cpio file. */
  lemma CpioEndsIff(data: Bytes)
    ensures (exists limit: nat :: Run(Cpio(data), CPIO_START, limit).Finished?) <==> !Returns(Cpio(data), CPIO_START)
    ensures !Returns(Cpio(data), CPIO_START) ==> Run(Cpio(data), CPIO_START, Positions(data) + 1).Finished?
  {
    CpioEndsWith(Hexadecimal(), data);
  }
}
