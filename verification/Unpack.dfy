// Reading ar and cpio archives: a cursor over headers, members and padding.
module Unpack {
  import opened Basics
  import opened Numerals

  const MAX_MEMBERS := 100000
  const MAX_MEMBER_BYTES := 0x1000_0000

  datatype Warning = Overruns | UnpackFailed

  /** Names are kept as the bytes Latin-1 decodes one for one. */
  datatype Unpacked = Unpacked(members: map<Bytes, Bytes>, warnings: seq<Warning>)

  const NOTHING := Unpacked(map[], [])

  /** Where a reader stands: its cursor, which a hostile header can send below zero, and what it
      has collected. */
  datatype Cursor = Cursor(pos: int, out: Unpacked)

  datatype Step = Next(cursor: Cursor) | Stop(out: Unpacked)

  datatype Progress = Finished(out: Unpacked) | Running(cursor: Cursor)

  type Reader = Cursor -> Step

  /** At most `limit` turns of a reader's loop. */
  function Run(reader: Reader, c: Cursor, limit: nat): Progress
    decreases limit
  {
    if limit == 0 then Running(c)
    else match reader(c) case Stop(out) => Finished(out) case Next(d) => Run(reader, d, limit - 1)
  }

  /** `data[a:b]`, negative bounds counting from the end. */
  function Slice(data: Bytes, a: int, b: int): Bytes {
    var lo, hi := Bound(|data|, a), Bound(|data|, b);
    if lo <= hi then data[lo..hi] else []
  }

  function Bound(n: nat, a: int): (r: nat)
    ensures r <= n
  {
    if a >= 0 then (if a <= n then a else n) else if a + n >= 0 then a + n else 0
  }

  /** Bounds beyond the data are clipped, and negative ones count from its end. */
  lemma SliceIs(data: Bytes, a: nat, b: nat, k: nat)
    requires a <= b <= |data| && 0 < k <= |data|
    ensures Slice(data, a, b) == data[a..b] && Slice(data, b, |data| + k) == data[b..]
    ensures Slice(data, 0, -(k as int)) == data[..|data| - k] && Slice(data, -(k as int), |data|) == data[|data| - k..]
    ensures Slice(data, -(|data| as int) - k, b) == data[..b] && (a < b ==> Slice(data, b, a) == [])
  {
  }

  // ---- ar ------------------------------------------------------------------------------------

  const SLASH: Byte := 47

  function WithoutSlashes(s: Bytes): (r: Bytes)
    ensures r <= s
  {
    if s != [] && s[|s| - 1] == SLASH then WithoutSlashes(s[..|s| - 1]) else s
  }

  function ArName(header: Bytes): Bytes {
    WithoutSlashes(RStrip(true, Slice(header, 0, 16)))
  }

  function ArSize(header: Bytes): Option<int> {
    ReadInt(Ten, Slice(header, 48, 58))
  }

  /** The reader's own padding rule, `size + (size & 1)`. */
  function Even(size: int): int {
    size + size % 2
  }

  /** What a header says: a name and, if it is a number, a size. */
  datatype Stated = Stated(name: Bytes, size: Option<int>)

  type Heading = Bytes -> Stated

  function ArHeading(): Heading {
    (header: Bytes) => Stated(ArName(header), ArSize(header))
  }

  function ArStep(heading: Heading, data: Bytes, c: Cursor): Step {
    if c.pos + 60 > |data| || |c.out.members| >= MAX_MEMBERS then Stop(c.out)
    else
      var Stated(name, size) := heading(Slice(data, c.pos, c.pos + 60));
      ArEntry(data, c, name, size)
  }

  /** One turn, given the name and size its header states. */
  function ArEntry(data: Bytes, c: Cursor, name: Bytes, size: Option<int>): Step {
    var start := c.pos + 60;
    if size.None? then Stop(c.out)
    else if start + size.value > |data| || size.value > MAX_MEMBER_BYTES then
      Stop(c.out.(warnings := c.out.warnings + [Overruns]))
    else Next(Cursor(start + Even(size.value), Keep(c.out, name, Slice(data, start, start + size.value))))
  }

  /** A nameless ar member is skipped. */
  function Keep(out: Unpacked, name: Bytes, content: Bytes): Unpacked {
    if name == [] then out else out.(members := out.members[name := content])
  }

  function ArWith(heading: Heading, data: Bytes): Reader {
    (c: Cursor) => ArStep(heading, data, c)
  }

  function Ar(data: Bytes): Reader {
    ArWith(ArHeading(), data)
  }

  const AR_START := Cursor(8, NOTHING)

  /** One turn of the loop, given how headers are read. */
  method ArTurn(heading: Heading, data: Bytes, c: Cursor) returns (s: Step)
    ensures s == ArStep(heading, data, c)
  {
    var Cursor(pos, out) := c;
    if !(pos + 60 <= |data| && |out.members| < MAX_MEMBERS) {
      return Stop(out);
    }
    var Stated(name, size) := heading(Slice(data, pos, pos + 60));
    s := ArMember(data, pos, out, name, size);
  }

  method ArMember(data: Bytes, pos: int, collected: Unpacked, name: Bytes, size: Option<int>) returns (s: Step)
    ensures s == ArEntry(data, Cursor(pos, collected), name, size)
  {
    var out := collected;
    if size.None? {
      return Stop(out);
    }
    var start := pos + 60;
    if start + size.value > |data| || size.value > MAX_MEMBER_BYTES {
      out := out.(warnings := out.warnings + [Overruns]);
      return Stop(out);
    }
    if name != [] {
      out := out.(members := out.members[name := Slice(data, start, start + size.value)]);
    }
    return Next(Cursor(start + size.value + size.value % 2, out));
  }

  method UnpackAr(data: Bytes, limit: nat) returns (r: Progress)
    ensures r == Run(Ar(data), AR_START, limit)
  {
    forall c: Cursor ensures TakesArTurn(Ar(data), ArHeading(), data, c) {
    }
    r := ArLoop(Ar(data), ArHeading(), data, AR_START, limit);
  }

  predicate TakesArTurn(reader: Reader, heading: Heading, data: Bytes, c: Cursor) {
    reader(c) == ArStep(heading, data, c)
  }

  method NextArTurn(ghost reader: Reader, heading: Heading, data: Bytes, c: Cursor) returns (s: Step)
    requires TakesArTurn(reader, heading, data, c)
    ensures s == reader(c)
  {
    s := ArTurn(heading, data, c);
  }

  method ArLoop(ghost reader: Reader, heading: Heading, data: Bytes, start: Cursor, limit: nat) returns (r: Progress)
    requires forall c: Cursor {:trigger TakesArTurn(reader, heading, data, c)} :: TakesArTurn(reader, heading, data, c)
    ensures r == Run(reader, start, limit)
  {
    ghost var goal := Run(reader, start, limit);
    var c := start;
    for i := 0 to limit
      invariant Run(reader, c, limit - i) == goal
    {
      var turn := NextArTurn(reader, heading, data, c);
      if turn.Stop? {
        return Finished(turn.out);
      }
      c := turn.cursor;
    }
    return Running(c);
  }

  lemma OneTurn(reader: Reader, c: Cursor, limit: nat, turn: Step)
    requires limit > 0 && reader(c) == turn
    ensures Run(reader, c, limit)
            == match turn case Stop(out) => Finished(out) case Next(d) => Run(reader, d, limit - 1)
  {
  }

  // ---- cpio -----------------------------------------------------------------------------------

  const MAGICS: seq<Bytes> := [[48, 55, 48, 55, 48, 49], [48, 55, 48, 55, 48, 50]]

  const TRAILER: Bytes := [84, 82, 65, 73, 76, 69, 82, 33, 33, 33]

  type Field = nat -> Option<int>

  /** How the text of a field is read. */
  type Numeral = Bytes -> Option<int>

  function Hexadecimal(): Numeral {
    (text: Bytes) => ReadInt(Sixteen, text)
  }

  function FieldAt(numeral: Numeral, data: Bytes, pos: int, i: nat): Option<int> {
    numeral(Slice(data, pos + 6 + i * 8, pos + 6 + (i + 1) * 8))
  }

  /** The fields of the header at a position. */
  function CpioField(numeral: Numeral, data: Bytes, pos: int): Field {
    (i: nat) => FieldAt(numeral, data, pos, i)
  }

  const FIELDS := 13
  const FILESIZE := 6
  const NAMESIZE := 11

  predicate Readable(field: Field) {
    forall i: nat {:trigger field(i)} | i < FIELDS :: field(i).Some?
  }

  /** `(x + 3) & ~3`. */
  function Align4(x: int): (r: int)
    ensures x <= r < x + 4 && r % 4 == 0
  {
    x + 3 - (x + 3) % 4
  }

  /** An archive that makes the reader raise yields nothing but a warning. */
  const FAILED := Unpacked(map[], [UnpackFailed])

  /** One turn, given the sizes its header states. */
  function CpioEntry(data: Bytes, c: Cursor, namesize: int, filesize: int): Step {
    var nameStart := c.pos + 110;
    var name := Slice(data, nameStart, nameStart + namesize - 1);
    if name == TRAILER then Stop(c.out) else CpioContent(data, c.out, name, Align4(nameStart + namesize), filesize)
  }

  /** Empty members and members over the cap are passed over. */
  function CpioContent(data: Bytes, out: Unpacked, name: Bytes, start: int, filesize: int): Step {
    if start + filesize > |data| then Stop(out.(warnings := out.warnings + [Overruns]))
    else
      Next(Cursor(Align4(start + filesize),
                  if filesize != 0 && filesize <= MAX_MEMBER_BYTES
                  then out.(members := out.members[name := Slice(data, start, start + filesize)])
                  else out))
  }

  predicate HasMagic(data: Bytes, pos: int) {
    Slice(data, pos, pos + 6) in MAGICS
  }

  function CpioStep(numeral: Numeral, data: Bytes, c: Cursor): Step {
    if c.pos + 110 > |data| || |c.out.members| >= MAX_MEMBERS || !HasMagic(data, c.pos) then Stop(c.out)
    else CpioHeader(data, c, CpioField(numeral, data, c.pos))
  }

  function CpioHeader(data: Bytes, c: Cursor, field: Field): Step {
    if !Readable(field) then Stop(FAILED) else CpioEntry(data, c, field(NAMESIZE).value, field(FILESIZE).value)
  }

  function CpioWith(numeral: Numeral, data: Bytes): Reader {
    (c: Cursor) => CpioStep(numeral, data, c)
  }

  function Cpio(data: Bytes): Reader {
    CpioWith(Hexadecimal(), data)
  }

  const CPIO_START := Cursor(0, NOTHING)

  method ReadFields(field: Field) returns (fields: Option<seq<int>>)
    ensures fields.Some? <==> Readable(field)
    ensures fields.Some? ==> |fields.value| == FIELDS && forall i: nat {:trigger field(i)} | i < FIELDS ::
            field(i) == Some(fields.value[i])
  {
    var read: seq<int> := [];
    for i := 0 to FIELDS
      invariant |read| == i && forall k: nat {:trigger field(k)} | k < i :: field(k) == Some(read[k])
    {
      var f := field(i);
      if f.None? {
        return None;
      }
      read := read + [f.value];
    }
    return Some(read);
  }

  /** One turn of the loop, given how fields are read. */
  method CpioTurn(numeral: Numeral, data: Bytes, c: Cursor) returns (s: Step)
    ensures s == CpioStep(numeral, data, c)
  {
    var Cursor(pos, out) := c;
    if !(pos + 110 <= |data| && |out.members| < MAX_MEMBERS) {
      return Stop(out);
    }
    if !HasMagic(data, pos) {
      return Stop(out);
    }
    s := CpioParsed(data, pos, out, CpioField(numeral, data, pos));
  }

  method CpioParsed(data: Bytes, pos: int, out: Unpacked, field: Field) returns (s: Step)
    ensures s == CpioHeader(data, Cursor(pos, out), field)
  {
    var fields := ReadFields(field);
    if fields.None? {
      return Stop(FAILED);
    }
    s := CpioMember(data, pos, out, fields.value[NAMESIZE], fields.value[FILESIZE]);
  }

  method CpioMember(data: Bytes, pos: int, out: Unpacked, namesize: int, filesize: int) returns (s: Step)
    ensures s == CpioEntry(data, Cursor(pos, out), namesize, filesize)
  {
    var nameStart := pos + 110;
    var name := Slice(data, nameStart, nameStart + namesize - 1);
    if name == TRAILER {
      return Stop(out);
    }
    s := ReadContent(data, out, name, Align4(nameStart + namesize), filesize);
  }

  method ReadContent(data: Bytes, collected: Unpacked, name: Bytes, start: int, filesize: int) returns (s: Step)
    ensures s == CpioContent(data, collected, name, start, filesize)
  {
    var out := collected;
    if start + filesize > |data| {
      return Stop(out.(warnings := out.warnings + [Overruns]));
    }
    if filesize != 0 && filesize <= MAX_MEMBER_BYTES {
      out := out.(members := out.members[name := Slice(data, start, start + filesize)]);
    }
    return Next(Cursor(Align4(start + filesize), out));
  }

  method UnpackCpio(data: Bytes, limit: nat) returns (r: Progress)
    ensures r == Run(Cpio(data), CPIO_START, limit)
  {
    r := CpioLoop(Hexadecimal(), data, CPIO_START, limit);
  }

  method CpioLoop(numeral: Numeral, data: Bytes, start: Cursor, limit: nat) returns (r: Progress)
    ensures r == Run(CpioWith(numeral, data), start, limit)
  {
    ghost var reader := CpioWith(numeral, data);
    ghost var goal := Run(reader, start, limit);
    var c := start;
    for i := 0 to limit
      invariant Run(reader, c, limit - i) == goal
    {
      var turn := CpioTurn(numeral, data, c);
      OneTurn(reader, c, limit - i, turn);
      if turn.Stop? {
        return Finished(turn.out);
      }
      c := turn.cursor;
    }
    return Running(c);
  }

  // ---- does the cursor advance? ---------------------------------------------------------------

  function SizeAt(heading: Heading, data: Bytes, pos: int): Option<int> {
    heading(Slice(data, pos, pos + 60)).size
  }

  /** The ar cursor moves forward exactly when the stated size is above minus sixty. */
  lemma ArAdvances(heading: Heading, data: Bytes, c: Cursor)
    requires ArStep(heading, data, c).Next?
    ensures SizeAt(heading, data, c.pos).Some?
    ensures ArStep(heading, data, c).cursor.pos > c.pos <==> SizeAt(heading, data, c.pos).value > -60
  {
  }

  /** From an aligned position the cpio cursor moves forward exactly when the aligned sizes do
      not add up to less than a byte; sizes that are not negative always do. */
  lemma CpioAdvances(numeral: Numeral, data: Bytes, c: Cursor)
    requires CpioStep(numeral, data, c).Next? && c.pos % 4 == 0
    ensures var field := CpioField(numeral, data, c.pos);
            var namesize, filesize := field(NAMESIZE), field(FILESIZE);
            namesize.Some? && filesize.Some?
            && CpioStep(numeral, data, c).cursor.pos % 4 == 0
            && (CpioStep(numeral, data, c).cursor.pos > c.pos
               <==> Align4(110 + namesize.value) + Align4(filesize.value) > 0)
            && (namesize.value >= 0 && filesize.value >= 0 ==> CpioStep(numeral, data, c).cursor.pos > c.pos)
  {
    HeaderAdvances(data, c, CpioField(numeral, data, c.pos));
  }

  lemma HeaderAdvances(data: Bytes, c: Cursor, field: Field)
    requires CpioHeader(data, c, field).Next? && c.pos % 4 == 0
    ensures field(NAMESIZE).Some? && field(FILESIZE).Some?
    ensures CpioHeader(data, c, field).cursor.pos % 4 == 0
    ensures CpioHeader(data, c, field).cursor.pos > c.pos
            <==> Align4(110 + field(NAMESIZE).value) + Align4(field(FILESIZE).value) > 0
    ensures field(NAMESIZE).value >= 0 && field(FILESIZE).value >= 0 ==> CpioHeader(data, c, field).cursor.pos > c.pos
  {
    assert field(NAMESIZE).Some? && field(FILESIZE).Some?;
    AlignSums(c.pos, 110 + field(NAMESIZE).value, field(FILESIZE).value);
  }

  lemma AlignShift(base: int, a: int)
    requires base % 4 == 0
    ensures Align4(base + a) == base + Align4(a)
  {
  }

  lemma AlignSums(pos: int, a: int, b: int)
    requires pos % 4 == 0
    ensures Align4(Align4(pos + a) + b) == pos + Align4(a) + Align4(b)
  {
    AlignShift(pos, a);
    AlignShift(Align4(pos + a), b);
  }

  /** A header that states minus sixty holds the ar reader where it is for ever. */
  lemma {:induction false} ArSpins(heading: Heading, data: Bytes, c: Cursor, limit: nat)
    requires 0 <= c.pos && c.pos + 60 <= |data| && SizeAt(heading, data, c.pos) == Some(-60)
    requires |c.out.members| < MAX_MEMBERS
    requires heading(Slice(data, c.pos, c.pos + 60)).name in c.out.members || |c.out.members| + 1 < MAX_MEMBERS
    ensures Run(ArWith(heading, data), c, limit).Running?
    decreases limit
  {
    if limit == 0 {
    } else {
      var turn := ArStep(heading, data, c);
      assert turn.Next? && turn.cursor.pos == c.pos;
      ArSpins(heading, data, turn.cursor, limit - 1);
    }
  }
}
