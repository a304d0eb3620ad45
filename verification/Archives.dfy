// Writing ar and newc cpio archives, and reading them back: the round trips of the readers, and
// the archive on which one of them never ends.
module Archives {
  import opened Basics
  import opened Numerals
  import opened Unpack

  /** A member and the parts of its header that the readers ignore. */
  datatype Member = Member(name: Bytes, content: Bytes, meta: Bytes, fields: seq<nat>)

  type Writer = Member -> Bytes

  function Body(bytes: Writer, ms: seq<Member>): Bytes {
    if ms == [] then [] else bytes(ms[0]) + Body(bytes, ms[1..])
  }

  // ---- what reading back should give ---------------------------------------------------------

  /** One member stored; the cpio reader passes over members without content. */
  function WithMember(members: map<Bytes, Bytes>, m: Member, skipsEmpty: bool): map<Bytes, Bytes> {
    if skipsEmpty && m.content == [] then members else members[m.name := m.content]
  }

  /** All members stored in order, the later of two with one name winning. */
  function Stored(members: map<Bytes, Bytes>, ms: seq<Member>, skipsEmpty: bool): map<Bytes, Bytes>
    decreases |ms|
  {
    if ms == [] then members else Stored(WithMember(members, ms[0], skipsEmpty), ms[1..], skipsEmpty)
  }

  ghost predicate DistinctNames(ms: seq<Member>) {
    forall i, j | 0 <= i < j < |ms| :: ms[i].name != ms[j].name
  }

  predicate IsKept(m: Member, skipsEmpty: bool) {
    !skipsEmpty || m.content != []
  }

  /** With distinct names every member that is kept is there with its content. */
  lemma {:induction false} StoredHasAll(members: map<Bytes, Bytes>, ms: seq<Member>, skipsEmpty: bool, i: nat)
    requires DistinctNames(ms) && i < |ms| && IsKept(ms[i], skipsEmpty)
    ensures ms[i].name in Stored(members, ms, skipsEmpty)
            && Stored(members, ms, skipsEmpty)[ms[i].name] == ms[i].content
    decreases |ms|
  {
    var rest := WithMember(members, ms[0], skipsEmpty);
    if i == 0 {
      forall k | 0 <= k < |ms[1..]| ensures ms[1..][k].name != ms[0].name {
        assert ms[1..][k] == ms[k + 1];
      }
      StoredHasNoMore(rest, ms[1..], skipsEmpty, ms[0].name);
    } else {
      StoredHasAll(rest, ms[1..], skipsEmpty, i - 1);
    }
  }

  /** A name none of the members has is as it was. */
  lemma {:induction false} StoredHasNoMore(members: map<Bytes, Bytes>, ms: seq<Member>, skipsEmpty: bool, name: Bytes)
    requires forall k | 0 <= k < |ms| :: IsKept(ms[k], skipsEmpty) ==> ms[k].name != name
    ensures name in Stored(members, ms, skipsEmpty) <==> name in members
    ensures name in members ==> Stored(members, ms, skipsEmpty)[name] == members[name]
    decreases |ms|
  {
    if ms == [] {
    } else {
      assert forall k | 0 <= k < |ms[1..]| :: ms[1..][k] == ms[k + 1];
      StoredHasNoMore(WithMember(members, ms[0], skipsEmpty), ms[1..], skipsEmpty, name);
    }
  }

  function After(out: Unpacked, m: Member, skipsEmpty: bool): Unpacked {
    out.(members := WithMember(out.members, m, skipsEmpty))
  }

  lemma AfterSize(out: Unpacked, m: Member, skipsEmpty: bool)
    ensures |After(out, m, skipsEmpty).members| <= |out.members| + 1
  {
    assert out.members[m.name := m.content].Keys == out.members.Keys + {m.name};
  }

  // ---- reading a run of members ------------------------------------------------------------------

  type Format = Bytes -> Reader

  /** Wherever a member is written, one turn of the reader stores it and moves to its end. */
  ghost predicate ReadsAt(format: Format, bytes: Writer, aligned: nat -> bool, skipsEmpty: bool, m: Member,
                          pre: Bytes, post: Bytes, out: Unpacked) {
    aligned(|pre|) && |out.members| < MAX_MEMBERS ==>
      && format(pre + (bytes(m) + post))(Cursor(|pre|, out))
         == Next(Cursor(|pre + bytes(m)|, After(out, m, skipsEmpty)))
      && aligned(|pre + bytes(m)|)
  }

  ghost predicate Reads(format: Format, bytes: Writer, aligned: nat -> bool, skipsEmpty: bool, m: Member) {
    forall pre, post, out {:trigger ReadsAt(format, bytes, aligned, skipsEmpty, m, pre, post, out)} ::
      ReadsAt(format, bytes, aligned, skipsEmpty, m, pre, post, out)
  }

  /** Reading that comes to the tail stops there. */
  ghost predicate StopsAt(format: Format, aligned: nat -> bool, body: Bytes, tail: Bytes) {
    forall end: Cursor {:trigger format(body + tail)(end)} | end.pos == |body| && aligned(end.pos) ::
      format(body + tail)(end) == Stop(end.out)
  }

  /** Whatever is left of the run, the reader finishes with all of it stored. */
  lemma {:induction false} BodyReads(format: Format, bytes: Writer, aligned: nat -> bool, skipsEmpty: bool,
                                     pre: Bytes, ms: seq<Member>, tail: Bytes, out: Unpacked, limit: nat)
    requires forall i | 0 <= i < |ms| :: Reads(format, bytes, aligned, skipsEmpty, ms[i])
    requires aligned(|pre|) && |out.members| + |ms| <= MAX_MEMBERS && limit > |ms|
    requires StopsAt(format, aligned, pre + Body(bytes, ms), tail)
    ensures Run(format(pre + Body(bytes, ms) + tail), Cursor(|pre|, out), limit)
         == Finished(out.(members := Stored(out.members, ms, skipsEmpty)))
    decreases |ms|
  {
    var body, c := pre + Body(bytes, ms), Cursor(|pre|, out);
    var reader := format(body + tail);
    if ms == [] {
      assert body == pre;
      assert reader(c) == Stop(out);
    } else {
      var m, rest := ms[0], Body(bytes, ms[1..]) + tail;
      var moved, next := pre + bytes(m), After(out, m, skipsEmpty);
      assert body + tail == pre + (bytes(m) + rest);
      assert body == moved + Body(bytes, ms[1..]);
      assert Reads(format, bytes, aligned, skipsEmpty, ms[0]);
      assert ReadsAt(format, bytes, aligned, skipsEmpty, m, pre, rest, out);
      AfterSize(out, m, skipsEmpty);
      BodyReads(format, bytes, aligned, skipsEmpty, moved, ms[1..], tail, next, limit - 1);
    }
  }

  /** Reading a whole file: what comes before the members, the members, the tail. */
  lemma {:induction false} FileReads(format: Format, bytes: Writer, aligned: nat -> bool, skipsEmpty: bool, pre: Bytes,
                                     ms: seq<Member>, tail: Bytes)
    requires forall i | 0 <= i < |ms| :: Reads(format, bytes, aligned, skipsEmpty, ms[i])
    requires aligned(|pre|) && |ms| <= MAX_MEMBERS && StopsAt(format, aligned, pre + Body(bytes, ms), tail)
    ensures Run(format(pre + Body(bytes, ms) + tail), Cursor(|pre|, NOTHING), |ms| + 1)
         == Finished(Unpacked(Stored(map[], ms, skipsEmpty), []))
  {
    BodyReads(format, bytes, aligned, skipsEmpty, pre, ms, tail, NOTHING, |ms| + 1);
  }

  lemma PiecesIn(pre: Bytes, b: Bytes, post: Bytes, lo: nat, n: nat)
    requires lo + n <= |b|
    ensures Slice(pre + (b + post), |pre| + lo, |pre| + lo + n) == b[lo..lo + n]
  {
  }

  // ---- ar ----------------------------------------------------------------------------------------

  const AR_MAGIC: Bytes := [33, 60, 97, 114, 99, 104, 62, 10]

  /** A name that fits its field and survives the reader's trimming, and a size within the cap. */
  predicate FitsAr(m: Member) {
    && 0 < |m.name| <= 16 && !IsSpace(true, m.name[|m.name| - 1]) && m.name[|m.name| - 1] != SLASH
    && |m.content| <= MAX_MEMBER_BYTES && |m.meta| == 32
  }

  lemma {:induction false} CapFitsField(n: nat)
    requires n <= MAX_MEMBER_BYTES
    ensures |Decimal(n)| <= 9
  {
    assert Pow10(3) == 1000;
    assert Pow10(6) == 1000000;
    assert Pow10(9) == 1000000000;
    DecimalLength(n, 9);
  }

  /** `%-10d` in its ten columns. */
  function SizeField(n: nat): (r: Bytes)
    requires n <= MAX_MEMBER_BYTES
    ensures |r| == 10
  {
    CapFitsField(n);
    Decimal(n) + Spaces(10 - |Decimal(n)|)
  }

  function ArHead(m: Member): (r: Bytes)
    requires FitsAr(m)
    ensures |r| == 60
  {
    (m.name + Spaces(16 - |m.name|)) + m.meta + SizeField(|m.content|) + [96, 10]
  }

  function ArBytes(m: Member): Bytes {
    if !FitsAr(m) then [] else ArHead(m) + m.content + (if |m.content| % 2 == 1 then [10] else [])
  }

  function ArWriter(): Writer {
    (m: Member) => ArBytes(m)
  }

  function ArFormat(heading: Heading): Format {
    (data: Bytes) => ArWith(heading, data)
  }

  function Anywhere(): nat -> bool {
    (pos: nat) => true
  }

  lemma ArHeadName(m: Member)
    requires FitsAr(m)
    ensures ArName(ArHead(m)) == m.name
  {
    assert Slice(ArHead(m), 0, 16) == m.name + Spaces(16 - |m.name|);
    StripPadded(true, m.name, 16 - |m.name|);
  }

  lemma ArHeadSize(m: Member)
    requires FitsAr(m)
    ensures ArSize(ArHead(m)) == Some(|m.content|)
  {
    assert Slice(ArHead(m), 48, 58) == SizeField(|m.content|);
    DecimalRead(|m.content|, 10 - |Decimal(|m.content|)|);
  }

  /** The bytes of a member: header, content and length where the reader looks for them. */
  ghost predicate HasArPieces(b: Bytes, m: Member)
    requires FitsAr(m)
  {
    |b| == 60 + Even(|m.content|) && b[0..60] == ArHead(m) && b[60..60 + |m.content|] == m.content
  }

  lemma ArBytesPieces(m: Member)
    requires FitsAr(m)
    ensures HasArPieces(ArBytes(m), m)
  {
  }

  lemma ArEntryReads(heading: Heading, pre: Bytes, b: Bytes, m: Member, post: Bytes, out: Unpacked)
    requires FitsAr(m) && HasArPieces(b, m) && heading(ArHead(m)) == Stated(m.name, Some(|m.content|))
             && |out.members| < MAX_MEMBERS
    ensures ArWith(heading, pre + (b + post))(Cursor(|pre|, out)) == Next(Cursor(|pre + b|, After(out, m, false)))
  {
    PiecesIn(pre, b, post, 0, 60);
    PiecesIn(pre, b, post, 60, |m.content|);
  }

  lemma ArReads(heading: Heading, m: Member)
    requires FitsAr(m) && heading(ArHead(m)) == Stated(m.name, Some(|m.content|))
    ensures Reads(ArFormat(heading), ArWriter(), Anywhere(), false, m)
  {
    forall pre, post, out ensures ReadsAt(ArFormat(heading), ArWriter(), Anywhere(), false, m, pre, post, out) {
      if |out.members| < MAX_MEMBERS {
        ArBytesPieces(m);
        ArEntryReads(heading, pre, ArBytes(m), m, post, out);
      }
    }
  }

  lemma ArReadsAll(heading: Heading, ms: seq<Member>)
    requires forall i | 0 <= i < |ms| ::
             FitsAr(ms[i]) && heading(ArHead(ms[i])) == Stated(ms[i].name, Some(|ms[i].content|))
    ensures forall i | 0 <= i < |ms| :: Reads(ArFormat(heading), ArWriter(), Anywhere(), false, ms[i])
  {
    forall i | 0 <= i < |ms| ensures Reads(ArFormat(heading), ArWriter(), Anywhere(), false, ms[i]) {
      ArReads(heading, ms[i]);
    }
  }

  lemma ArEnds(heading: Heading, body: Bytes)
    ensures StopsAt(ArFormat(heading), Anywhere(), body, [])
  {
    assert body + [] == body;
  }

  /** Writing members and reading the file back gives the members. */
  lemma {:induction false} ArRoundTrip(ms: seq<Member>)
    requires (forall i | 0 <= i < |ms| :: FitsAr(ms[i])) && |ms| <= MAX_MEMBERS
    ensures Run(Ar(AR_MAGIC + Body(ArWriter(), ms)), AR_START, |ms| + 1)
            == Finished(Unpacked(Stored(map[], ms, false), []))
  {
    forall i | 0 <= i < |ms| ensures ArHeading()(ArHead(ms[i])) == Stated(ms[i].name, Some(|ms[i].content|)) {
      ArHeadName(ms[i]);
      ArHeadSize(ms[i]);
    }
    ArReadsAll(ArHeading(), ms);
    var body := AR_MAGIC + Body(ArWriter(), ms);
    ArEnds(ArHeading(), body);
    FileReads(ArFormat(ArHeading()), ArWriter(), Anywhere(), false, AR_MAGIC, ms, []);
    assert body + [] == body;
  }

  /** An ar file of one header that states a size of minus sixty. */
  function Spinner(name: Bytes, meta: Bytes): Bytes
    requires |name| == 16 && |meta| == 32
  {
    AR_MAGIC + (name + meta + ([45] + Decimal(60) + Spaces(7)) + [96, 10])
  }

  lemma {:induction false} SpinnerNeverEnds(name: Bytes, meta: Bytes, limit: nat)
    requires |name| == 16 && |meta| == 32
    ensures Run(Ar(Spinner(name, meta)), AR_START, limit).Running?
  {
    var data := Spinner(name, meta);
    var size := [45] + Decimal(60) + Spaces(7);
    assert Decimal(60) == Decimal(6) + [48] == [54, 48];
    DecimalRead(60, 7);
    var head := name + meta + size + [96, 10];
    assert Slice(data, 8, 68) == head;
    assert Slice(head, 48, 58) == size;
    ArSpins(ArHeading(), data, AR_START, limit);
  }

  // ---- cpio --------------------------------------------------------------------------------------

  const FIELD_LIMIT := 0x1_0000_0000

  /** What a newc header can say about a member the reader keeps. */
  predicate FitsCpio(m: Member) {
    && |m.fields| == FIELDS && (forall i | 0 <= i < FIELDS :: m.fields[i] < FIELD_LIMIT)
    && |m.name| + 1 < FIELD_LIMIT && |m.content| <= MAX_MEMBER_BYTES
  }

  function HeaderFields(m: Member): (fs: seq<nat>)
    requires FitsCpio(m)
    ensures |fs| == FIELDS && (forall i | 0 <= i < FIELDS :: fs[i] < FIELD_LIMIT)
    ensures fs[NAMESIZE] == |m.name| + 1 && fs[FILESIZE] == |m.content|
  {
    m.fields[NAMESIZE := |m.name| + 1][FILESIZE := |m.content|]
  }

  /** How a header field is written. */
  type Digits = nat -> Bytes

  function HexDigits(): Digits {
    (n: nat) => Hex(n, 8)
  }

  ghost predicate EightWide(digits: Digits) {
    forall n {:trigger digits(n)} :: |digits(n)| == 8
  }

  function FieldBytes(digits: Digits, fs: seq<nat>): Bytes {
    if fs == [] then [] else digits(fs[0]) + FieldBytes(digits, fs[1..])
  }

  lemma {:induction false} FieldBytesWide(digits: Digits, fs: seq<nat>)
    requires EightWide(digits)
    ensures |FieldBytes(digits, fs)| == 8 * |fs|
  {
    if fs == [] {
    } else {
      FieldBytesWide(digits, fs[1..]);
    }
  }

  lemma HexIsWide()
    ensures EightWide(HexDigits())
  {
  }

  function Padding(n: nat): Bytes {
    seq(Align4(n) - n, _ => 0)
  }

  function CpioHead(m: Member): (r: Bytes)
    requires FitsCpio(m)
    ensures |r| == 110
  {
    HexIsWide();
    FieldBytesWide(HexDigits(), HeaderFields(m));
    MAGICS[0] + FieldBytes(HexDigits(), HeaderFields(m))
  }

  function CpioBytes(m: Member): Bytes {
    if !FitsCpio(m) then []
    else CpioHead(m) + (m.name + [0]) + Padding(111 + |m.name|) + m.content + Padding(|m.content|)
  }

  function CpioWriter(): Writer {
    (m: Member) => CpioBytes(m)
  }

  function CpioFormat(numeral: Numeral): Format {
    (data: Bytes) => CpioWith(numeral, data)
  }

  function ByFours(): nat -> bool {
    (pos: nat) => pos % 4 == 0
  }

  lemma {:induction false} FieldBytesAt(digits: Digits, fs: seq<nat>, i: nat)
    requires EightWide(digits) && i < |fs|
    ensures 8 * i + 8 <= |FieldBytes(digits, fs)| && FieldBytes(digits, fs)[8 * i..8 * i + 8] == digits(fs[i])
  {
    var first, rest := digits(fs[0]), FieldBytes(digits, fs[1..]);
    if i == 0 {
    } else {
      FieldBytesAt(digits, fs[1..], i - 1);
      assert (first + rest)[8 * i..8 * i + 8] == rest[8 * (i - 1)..8 * (i - 1) + 8];
    }
  }

  lemma FieldLimit()
    ensures Pow16(8) == FIELD_LIMIT
  {
    assert Pow16(2) == 256;
    assert Pow16(4) == 65536;
    assert Pow16(6) == 0x100_0000;
  }

  lemma FieldIn(pre: Bytes, magic: Bytes, fields: Bytes, rest: Bytes, lo: nat)
    requires |magic| == 6 && lo + 8 <= |fields|
    ensures Slice(pre + ((magic + fields) + rest), |pre| + 6 + lo, |pre| + 6 + lo + 8) == fields[lo..lo + 8]
    ensures Slice(pre + ((magic + fields) + rest), |pre|, |pre| + 6) == magic
  {
  }

  /** A header field where it stands in a file. */
  lemma FieldTextIn(pre: Bytes, magic: Bytes, fields: Bytes, rest: Bytes, i: nat, lo: nat)
    requires |magic| == 6 && lo == 8 * i && lo + 8 <= |fields|
    ensures Slice(pre + ((magic + fields) + rest), |pre| + 6 + i * 8, |pre| + 6 + (i + 1) * 8) == fields[lo..lo + 8]
  {
    FieldIn(pre, magic, fields, rest, lo);
  }

  /** What is written in eight hexadecimal digits reads back. */
  ghost predicate ReadsBack(numeral: Numeral, digits: Digits) {
    forall n: nat {:trigger digits(n)} | n < FIELD_LIMIT :: numeral(digits(n)) == Some(n)
  }

  lemma HexadecimalReads()
    ensures ReadsBack(Hexadecimal(), HexDigits())
  {
    FieldLimit();
    forall n: nat | n < FIELD_LIMIT ensures Hexadecimal()(HexDigits()(n)) == Some(n) {
      HexRead(n, 8);
    }
  }

  /** The pieces of a member within its bytes. */
  lemma CpioPieces(head: Bytes, name: Bytes, gap: Bytes, content: Bytes, end: Bytes)
    ensures var b, start := head + (name + [0]) + gap + content + end, |head| + |name| + 1 + |gap|;
            b[|head|..|head| + |name|] == name && b[start..start + |content|] == content
                && |b| == start + |content| + |end|
  {
  }

  /** The bytes of a member: name, content and length where the reader looks for them. */
  ghost predicate HasPieces(b: Bytes, m: Member) {
    var skip := Align4(111 + |m.name|);
    && |b| == skip + Align4(|m.content|)
    && b[110..110 + |m.name|] == m.name && b[skip..skip + |m.content|] == m.content
  }

  lemma CpioBytesPieces(m: Member)
    requires FitsCpio(m)
    ensures HasPieces(CpioBytes(m), m)
  {
    CpioPieces(CpioHead(m), m.name, Padding(111 + |m.name|), m.content, Padding(|m.content|));
  }

  /** The fields a reader finds in the header of a written member. */
  ghost predicate FieldsIn(field: Field, m: Member)
    requires FitsCpio(m)
  {
    forall i: nat {:trigger field(i)} | i < FIELDS :: field(i) == Some(HeaderFields(m)[i])
  }

  /** All that follows the header of a member. */
  lemma HeadFirst(pre: Bytes, m: Member, post: Bytes) returns (rest: Bytes)
    requires FitsCpio(m)
    ensures pre + (CpioBytes(m) + post) == pre + (CpioHead(m) + rest)
  {
    rest := (m.name + [0]) + Padding(111 + |m.name|) + m.content + Padding(|m.content|) + post;
  }

  /** Each of the fields is written where it belongs. */
  ghost predicate Written(digits: Digits, fields: Bytes, fs: seq<nat>) {
    |fields| == 8 * |fs| && forall i: nat {:trigger fs[i]} | i < |fs| :: fields[8 * i..8 * i + 8] == digits(fs[i])
  }

  lemma {:induction false} FieldBytesWritten(digits: Digits, fs: seq<nat>)
    requires EightWide(digits)
    ensures Written(digits, FieldBytes(digits, fs), fs)
  {
    FieldBytesWide(digits, fs);
    forall i: nat | i < |fs| ensures FieldBytes(digits, fs)[8 * i..8 * i + 8] == digits(fs[i]) {
      FieldBytesAt(digits, fs, i);
    }
  }

  lemma FieldsWritten(numeral: Numeral, digits: Digits, pre: Bytes, magic: Bytes, fields: Bytes, fs: seq<nat>,
                      rest: Bytes)
    requires |magic| == 6 && ReadsBack(numeral, digits) && Written(digits, fields, fs)
    requires forall i | 0 <= i < |fs| :: fs[i] < FIELD_LIMIT
    ensures var field := CpioField(numeral, pre + ((magic + fields) + rest), |pre|);
            forall i: nat {:trigger field(i)} | i < |fs| :: field(i) == Some(fs[i])
  {
    var field := CpioField(numeral, pre + ((magic + fields) + rest), |pre|);
    forall i: nat | i < |fs| ensures field(i) == Some(fs[i]) {
      FieldTextIn(pre, magic, fields, rest, i, 8 * i);
      FieldReads(numeral, digits, pre + ((magic + fields) + rest), |pre|, i, fs[i]);
    }
  }

  lemma FieldReads(numeral: Numeral, digits: Digits, data: Bytes, pos: int, i: nat, n: nat)
    requires Slice(data, pos + 6 + i * 8, pos + 6 + (i + 1) * 8) == digits(n) && ReadsBack(numeral, digits)
             && n < FIELD_LIMIT
    ensures FieldAt(numeral, data, pos, i) == Some(n)
  {
  }

  lemma HeaderFieldsRead(numeral: Numeral, pre: Bytes, m: Member, post: Bytes)
    requires FitsCpio(m) && ReadsBack(numeral, HexDigits())
    ensures FieldsIn(CpioField(numeral, pre + (CpioBytes(m) + post), |pre|), m)
  {
    var digits, fs := HexDigits(), HeaderFields(m);
    var rest := HeadFirst(pre, m, post);
    HexIsWide();
    FieldBytesWritten(digits, fs);
    FieldsWritten(numeral, digits, pre, MAGICS[0], FieldBytes(digits, fs), fs, rest);
  }

  lemma MagicIn(pre: Bytes, m: Member, post: Bytes)
    requires FitsCpio(m)
    ensures HasMagic(pre + (CpioBytes(m) + post), |pre|) && |pre| + 110 <= |pre + (CpioBytes(m) + post)|
  {
    var rest := HeadFirst(pre, m, post);
    HexIsWide();
    FieldBytesWide(HexDigits(), HeaderFields(m));
    FieldIn(pre, MAGICS[0], FieldBytes(HexDigits(), HeaderFields(m)), rest, 0);
  }

  /** A written header leads the reader to the sizes it states. */
  lemma CpioTurnReads(numeral: Numeral, pre: Bytes, m: Member, post: Bytes, out: Unpacked)
    requires FitsCpio(m) && ReadsBack(numeral, HexDigits()) && |out.members| < MAX_MEMBERS
    ensures var data := pre + (CpioBytes(m) + post);
            CpioStep(numeral, data, Cursor(|pre|, out))
                == CpioEntry(data, Cursor(|pre|, out), |m.name| + 1, |m.content|)
  {
    var data := pre + (CpioBytes(m) + post);
    MagicIn(pre, m, post);
    HeaderFieldsRead(numeral, pre, m, post);
    FieldsDecide(data, Cursor(|pre|, out), CpioField(numeral, data, |pre|), HeaderFields(m));
  }

  lemma FieldsDecide(data: Bytes, c: Cursor, field: Field, fs: seq<nat>)
    requires |fs| == FIELDS && forall i: nat {:trigger field(i)} | i < FIELDS :: field(i) == Some(fs[i])
    ensures CpioHeader(data, c, field) == CpioEntry(data, c, fs[NAMESIZE], fs[FILESIZE])
  {
  }

  /** The reader's two alignments, from an aligned position. */
  lemma CpioPositions(pos: nat, n: nat, size: nat)
    requires pos % 4 == 0
    ensures Align4(pos + 110 + (n + 1)) == pos + Align4(111 + n)
    ensures Align4(pos + Align4(111 + n) + size) == pos + Align4(111 + n) + Align4(size)
    ensures (pos + Align4(111 + n) + Align4(size)) % 4 == 0
  {
    AlignShift(pos, 111 + n);
    AlignShift(pos + Align4(111 + n), size);
  }

  lemma PartsWhere(pre: Bytes, b: Bytes, m: Member, post: Bytes)
    requires HasPieces(b, m)
    ensures var data, start := pre + (b + post), |pre| + Align4(111 + |m.name|);
            && Slice(data, |pre| + 110, |pre| + 110 + |m.name|) == m.name
            && Slice(data, start, start + |m.content|) == m.content && start + |m.content| <= |data|
  {
    PiecesIn(pre, b, post, 110, |m.name|);
    PiecesIn(pre, b, post, Align4(111 + |m.name|), |m.content|);
  }

  lemma CpioMemberReads(pre: Bytes, b: Bytes, m: Member, post: Bytes, out: Unpacked)
    requires HasPieces(b, m) && m.name != TRAILER && |pre| % 4 == 0 && |m.content| <= MAX_MEMBER_BYTES
    ensures CpioEntry(pre + (b + post), Cursor(|pre|, out), |m.name| + 1, |m.content|)
            == Next(Cursor(|pre + b|, After(out, m, true)))
    ensures |pre + b| % 4 == 0
  {
    var start := |pre| + Align4(111 + |m.name|);
    PartsWhere(pre, b, m, post);
    CpioPositions(|pre|, |m.name|, |m.content|);
    EntryIs(pre + (b + post), Cursor(|pre|, out), m, start);
  }

  lemma EntryIs(data: Bytes, c: Cursor, m: Member, start: nat)
    requires Slice(data, c.pos + 110, c.pos + 110 + |m.name|) == m.name && m.name != TRAILER
    requires start == Align4(c.pos + 110 + (|m.name| + 1)) && start + |m.content| <= |data|
    requires Slice(data, start, start + |m.content|) == m.content && |m.content| <= MAX_MEMBER_BYTES
    ensures CpioEntry(data, c, |m.name| + 1, |m.content|)
            == Next(Cursor(Align4(start + |m.content|), After(c.out, m, true)))
  {
  }

  lemma CpioStepReads(numeral: Numeral, pre: Bytes, m: Member, post: Bytes, out: Unpacked)
    requires FitsCpio(m) && m.name != TRAILER && ReadsBack(numeral, HexDigits()) && |pre| % 4 == 0
             && |out.members| < MAX_MEMBERS
    ensures CpioStep(numeral, pre + (CpioBytes(m) + post), Cursor(|pre|, out))
         == Next(Cursor(|pre + CpioBytes(m)|, After(out, m, true)))
    ensures |pre + CpioBytes(m)| % 4 == 0
  {
    CpioTurnReads(numeral, pre, m, post, out);
    CpioBytesPieces(m);
    CpioMemberReads(pre, CpioBytes(m), m, post, out);
  }

  lemma CpioReadsAt(numeral: Numeral, m: Member, pre: Bytes, post: Bytes, out: Unpacked)
    requires FitsCpio(m) && m.name != TRAILER && ReadsBack(numeral, HexDigits())
    ensures ReadsAt(CpioFormat(numeral), CpioWriter(), ByFours(), true, m, pre, post, out)
  {
    if |pre| % 4 == 0 && |out.members| < MAX_MEMBERS {
      CpioStepReads(numeral, pre, m, post, out);
    }
  }

  lemma CpioReads(numeral: Numeral, m: Member)
    requires FitsCpio(m) && m.name != TRAILER && ReadsBack(numeral, HexDigits())
    ensures Reads(CpioFormat(numeral), CpioWriter(), ByFours(), true, m)
  {
    forall pre, post, out ensures ReadsAt(CpioFormat(numeral), CpioWriter(), ByFours(), true, m, pre, post, out) {
      CpioReadsAt(numeral, m, pre, post, out);
    }
  }

  /** The trailer, with whatever follows it, ends the reading. */
  lemma TrailerStops(numeral: Numeral, pre: Bytes, trailer: Member, junk: Bytes, out: Unpacked)
    requires FitsCpio(trailer) && trailer.name == TRAILER && |pre| % 4 == 0 && ReadsBack(numeral, HexDigits())
    ensures CpioStep(numeral, pre + (CpioBytes(trailer) + junk), Cursor(|pre|, out)) == Stop(out)
  {
    if |out.members| < MAX_MEMBERS {
      CpioTurnReads(numeral, pre, trailer, junk, out);
      CpioBytesPieces(trailer);
      PiecesIn(pre, CpioBytes(trailer), junk, 110, |TRAILER|);
    }
  }

  lemma CpioReadsAll(numeral: Numeral, ms: seq<Member>)
    requires forall i | 0 <= i < |ms| :: FitsCpio(ms[i]) && ms[i].name != TRAILER
    requires ReadsBack(numeral, HexDigits())
    ensures forall i | 0 <= i < |ms| :: Reads(CpioFormat(numeral), CpioWriter(), ByFours(), true, ms[i])
  {
    forall i | 0 <= i < |ms| ensures Reads(CpioFormat(numeral), CpioWriter(), ByFours(), true, ms[i]) {
      CpioReads(numeral, ms[i]);
    }
  }

  lemma TrailerEnds(numeral: Numeral, body: Bytes, trailer: Member, junk: Bytes)
    requires FitsCpio(trailer) && trailer.name == TRAILER && ReadsBack(numeral, HexDigits())
    ensures StopsAt(CpioFormat(numeral), ByFours(), body, CpioBytes(trailer) + junk)
  {
    var format, tail := CpioFormat(numeral), CpioBytes(trailer) + junk;
    forall end: Cursor {:trigger format(body + tail)(end)} | end.pos == |body| && ByFours()(end.pos)
      ensures format(body + tail)(end) == Stop(end.out)
    {
      TrailerStops(numeral, body, trailer, junk, end.out);
    }
  }

  lemma {:induction false} CpioFileReads(numeral: Numeral, ms: seq<Member>, trailer: Member, junk: Bytes)
    requires (forall i | 0 <= i < |ms| :: FitsCpio(ms[i]) && ms[i].name != TRAILER) && |ms| <= MAX_MEMBERS
    requires FitsCpio(trailer) && trailer.name == TRAILER && ReadsBack(numeral, HexDigits())
    ensures Run(CpioFormat(numeral)(Body(CpioWriter(), ms) + (CpioBytes(trailer) + junk)), CPIO_START, |ms| + 1)
         == Finished(Unpacked(Stored(map[], ms, true), []))
  {
    var body := Body(CpioWriter(), ms);
    CpioReadsAll(numeral, ms);
    TrailerEnds(numeral, body, trailer, junk);
    assert [] + body == body;
    FileReads(CpioFormat(numeral), CpioWriter(), ByFours(), true, [], ms, CpioBytes(trailer) + junk);
  }

  /** Writing members, a trailer and anything after it, and reading the file back gives the
      members that have content. */
  lemma {:induction false} CpioRoundTrip(ms: seq<Member>, trailer: Member, junk: Bytes)
    requires (forall i | 0 <= i < |ms| :: FitsCpio(ms[i]) && ms[i].name != TRAILER) && |ms| <= MAX_MEMBERS
    requires FitsCpio(trailer) && trailer.name == TRAILER
    ensures Run(Cpio(Body(CpioWriter(), ms) + (CpioBytes(trailer) + junk)), CPIO_START, |ms| + 1)
         == Finished(Unpacked(Stored(map[], ms, true), []))
  {
    HexadecimalReads();
    CpioFileReads(Hexadecimal(), ms, trailer, junk);
  }
}
