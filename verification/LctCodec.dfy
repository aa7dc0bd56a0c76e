/**
 * The packed event sent to crashlogd: attachments are appended to a growing buffer
 * by lct_attach and walked back by foreach_attchmt.
 */
module LctCodec {
  import opened Sequences


  const U32 := 0x1_0000_0000
  /** Offset of the flexible array in struct ct_event. */
  const ATTACHMENTS: nat := 84

  /** Offset of its field attchmt_size. */
  const SIZE_FIELD: nat := 76

  /** The size of struct ct_event, whose 64-bit time stamp is aligned to 4 or to 8 bytes. */
  predicate IsEventSize(n: nat) { n == 84 || n == 88 }

  /** Size of the header of struct ct_attchmt. */
  const SIZEOF_ATTCHMT: nat := 8
  const ALIGNMENT: nat := 4

  type Word = w: int | 0 <= w < U32

  /** Conversion to an unsigned 32-bit size. */
  function ToU32(n: nat): (w: Word)
    ensures n < U32 ==> w == n
  {
    n % U32
  }

  datatype Attachment = Attachment(kind: Word, data: Bytes)

  /** KCT_ALIGN: the next multiple of the alignment. */
  function Align(x: nat): (r: nat)
    ensures r % 4 == 0 && x <= r < x + 4
  {
    (x + 3) / 4 * 4
  }

  /** Alignment is the only such multiple, so it commutes with shifts by multiples. */
  lemma AlignShift(base: nat, x: nat)
    requires base % 4 == 0
    ensures Align(base + x) == base + Align(x)
  {
  }

  // ---- Words ----

  /** Little-endian: the least significant byte comes first. */
  function Le(w: Word): (s: Bytes)
    ensures |s| == 4
  {
    [w % 256, w / 256 % 256, w / 65536 % 256, w / 16777216]
  }

  function WordOf(s: Bytes): (w: Word)
    requires |s| == 4
  {
    var a: int, b: int, c: int, d: int := s[0], s[1], s[2], s[3];
    a + 256 * b + 65536 * c + 16777216 * d
  }

  /** A small number sits in the first byte, and each further byte counts 256 times as much. */
  lemma LittleEndian(a: Byte, b: Byte, c: Byte, d: Byte)
    ensures var x: int, y: int, z: int, t: int := a, b, c, d;
            Le(x + 256 * y + 65536 * z + 16777216 * t) == [a, b, c, d]
  {
    var x: int, y: int, z: int, t: int := a, b, c, d;
    var w := x + 256 * y + 65536 * z + 16777216 * t;
    assert w / 256 == y + 256 * z + 65536 * t && w % 256 == x;
    assert w / 65536 == z + 256 * t && w / 16777216 == t;
  }

  lemma WordRoundTrip(w: Word)
    ensures WordOf(Le(w)) == w
  {
    var a, b := w / 256, w / 65536;
    assert w == 256 * a + w % 256;
    assert a == 256 * (a / 256) + a % 256 && a / 256 == b;
    assert b == 256 * (b / 256) + b % 256 && b / 256 == w / 16777216;
  }

  // ---- Layout ----

  /** Room taken by one attachment, padding included. */
  function Room(a: Attachment): (n: nat)
    ensures n % 4 == 0 && n >= SIZEOF_ATTCHMT + |a.data|
  {
    Align(|a.data| + SIZEOF_ATTCHMT)
  }

  /** Room taken by all attachments. */
  function Total(atts: seq<Attachment>): (n: nat)
    ensures n % 4 == 0
  {
    if atts == [] then 0 else Room(atts[0]) + Total(atts[1..])
  }

  /** The bytes of one attachment: size, type, data; the padding may hold anything. */
  ghost predicate IsBlock(block: Bytes, a: Attachment)
  {
    && |a.data| < U32
    && |block| == Room(a)
    && block[..4] == Le(|a.data|)
    && block[4..8] == Le(a.kind)
    && block[8..8 + |a.data|] == a.data
  }

  /** The attachment area holds exactly these attachments, one after the other. */
  ghost predicate Encodes(area: Bytes, atts: seq<Attachment>)
  {
    if atts == [] then area == []
    else
      var n := Room(atts[0]);
      |area| >= n && IsBlock(area[..n], atts[0]) && Encodes(area[n..], atts[1..])
  }

  lemma {:induction false} EncodesSize(area: Bytes, atts: seq<Attachment>)
    requires Encodes(area, atts)
    ensures |area| == Total(atts)
  {
    if atts != [] {
      EncodesSize(area[Room(atts[0])..], atts[1..]);
    }
  }

  lemma EncodesOne(block: Bytes, a: Attachment)
    requires IsBlock(block, a)
    ensures Encodes(block, [a])
  {
    assert block[..Room(a)] == block && block[Room(a)..] == [];
  }

  lemma SplitAppend<T>(s: seq<T>, t: seq<T>, n: nat)
    requires n <= |s|
    ensures (s + t)[..n] == s[..n] && (s + t)[n..] == s[n..] + t
  {
  }

  lemma {:induction false} EncodesAppend(area: Bytes, atts: seq<Attachment>, block: Bytes, a: Attachment)
    requires Encodes(area, atts) && IsBlock(block, a)
    ensures Encodes(area + block, atts + [a])
  {
    if atts == [] {
      assert area + block == block && atts + [a] == [a];
      EncodesOne(block, a);
    } else {
      var n := Room(atts[0]);
      EncodesAppend(area[n..], atts[1..], block, a);
      SplitAppend(area, block, n);
      SplitAppend(atts, [a], 1);
      assert (atts + [a])[0] == atts[0];
    }
  }

  /** What a reader finds at the start of a block. */
  lemma ReadBlock(block: Bytes, a: Attachment, rest: Bytes)
    requires IsBlock(block, a)
    ensures var area, n := block + rest, |a.data|;
            && |area| >= 8 + n
            && WordOf(area[..4]) == n && WordOf(area[4..8]) == a.kind && area[8..8 + n] == a.data
  {
    var area := block + rest;
    assert area[..4] == block[..4] && area[4..8] == block[4..8];
    assert area[8..8 + |a.data|] == block[8..8 + |a.data|];
    WordRoundTrip(|a.data|);
    WordRoundTrip(a.kind);
  }

  /** `bytes` stored at `at`. */
  function Store(buf: Bytes, at: nat, bytes: Bytes): Bytes
    requires at + |bytes| <= |buf|
  {
    buf[..at] + bytes + buf[at + |bytes|..]
  }

  lemma StoreReads(buf: Bytes, at: nat, bytes: Bytes)
    requires at + |bytes| <= |buf|
    ensures Store(buf, at, bytes)[at..at + |bytes|] == bytes
  {
  }

  lemma StoreKeeps(buf: Bytes, at: nat, bytes: Bytes, i: nat, j: nat)
    requires i <= j <= at && at + |bytes| <= |buf|
    ensures Store(buf, at, bytes)[i..j] == buf[i..j]
  {
  }

  /** Writing size, type and data into unset bytes makes a block of them. */
  lemma StoreBlock(buf: Bytes, at: nat, a: Attachment, done: Bytes)
    requires |a.data| < U32 && at + Room(a) == |buf|
    requires done == Store(Store(Store(buf, at, Le(|a.data|)), at + 4, Le(a.kind)), at + SIZEOF_ATTCHMT, a.data)
    ensures done[..at] == buf[..at] && |done| == |buf| && IsBlock(done[at..], a)
  {
    var b1 := Store(buf, at, Le(|a.data|));
    var b2 := Store(b1, at + 4, Le(a.kind));
    StoreReads(buf, at, Le(|a.data|));
    StoreKeeps(b1, at + 4, Le(a.kind), at, at + 4);
    StoreReads(b1, at + 4, Le(a.kind));
    StoreKeeps(b2, at + 8, a.data, at, at + 4);
    StoreKeeps(b2, at + 8, a.data, at + 4, at + 8);
    StoreReads(b2, at + 8, a.data);
    assert done[at..] == done[at..|done|];
    SliceOfSlice(done, at, |done|, 0, 4);
    SliceOfSlice(done, at, |done|, 4, 8);
    SliceOfSlice(done, at, |done|, 8, 8 + |a.data|);
  }

  lemma StoreKeepsBehind(buf: Bytes, at: nat, bytes: Bytes, i: nat, j: nat)
    requires at + |bytes| <= i <= j <= |buf|
    ensures Store(buf, at, bytes)[i..j] == buf[i..j]
  {
  }

  /** The size field of an event. */
  function SizeIn(buf: Bytes): Word
    requires |buf| >= ATTACHMENTS
  {
    WordOf(buf[SIZE_FIELD..SIZE_FIELD + 4])
  }

  /** Setting the size field changes these four bytes only. */
  lemma SizeStored(buf: Bytes, size: Word, end: nat)
    requires ATTACHMENTS <= end <= |buf|
    ensures var done := Store(buf, SIZE_FIELD, Le(size));
            && |done| == |buf| && SizeIn(done) == size && done[..SIZE_FIELD] == buf[..SIZE_FIELD]
            && done[SIZE_FIELD + 4..ATTACHMENTS] == buf[SIZE_FIELD + 4..ATTACHMENTS]
            && done[ATTACHMENTS..end] == buf[ATTACHMENTS..end]
  {
    StoreReads(buf, SIZE_FIELD, Le(size));
    WordRoundTrip(size);
    StoreKeeps(buf, SIZE_FIELD, Le(size), 0, SIZE_FIELD);
    StoreKeepsBehind(buf, SIZE_FIELD, Le(size), SIZE_FIELD + 4, ATTACHMENTS);
    StoreKeepsBehind(buf, SIZE_FIELD, Le(size), ATTACHMENTS, end);
  }

  /** The bytes of an event with these attachments: its size field is the size of the area. */
  ghost predicate IsEvent(buf: Bytes, sizeofEvent: nat, atts: seq<Attachment>)
  {
    && IsEventSize(sizeofEvent) && |buf| >= ATTACHMENTS
    && |buf| == sizeofEvent + SizeIn(buf) < U32
    && Encodes(buf[ATTACHMENTS..ATTACHMENTS + SizeIn(buf)], atts)
  }

  /** The event under construction, as the bytes that are sent. */
  class EventBuffer {
    const sizeofEvent: nat
    var buf: Bytes
    ghost var attached: seq<Attachment>

    ghost predicate Valid()
      reads this
    {
      IsEvent(buf, sizeofEvent, attached)
    }

    /** A fresh event: the header, with an empty area. */
    constructor (header: Bytes)
      requires IsEventSize(|header|) && SizeIn(header) == 0
      ensures Valid() && attached == [] && buf == header && sizeofEvent == |header|
    {
      sizeofEvent := |header|;
      buf, attached := header, [];
    }

    /**
     * `lct_attach`, on memory that realloc enlarged without setting it. The event must
     * stay below 4 GiB, the range of its 32-bit size.
     */
    method Attach(kind: Word, data: Bytes)
      requires Valid()
      requires sizeofEvent + SizeIn(buf) + Room(Attachment(kind, data)) < U32
      modifies this
      ensures Valid() && attached == old(attached) + [Attachment(kind, data)]
      ensures SizeIn(buf) == old(SizeIn(buf)) + Room(Attachment(kind, data))
      ensures buf[..SIZE_FIELD] == old(buf[..SIZE_FIELD])
      ensures buf[SIZE_FIELD + 4..ATTACHMENTS] == old(buf[SIZE_FIELD + 4..ATTACHMENTS])
    {
      ghost var a := Attachment(kind, data);
      var size := SizeIn(buf);
      var newSize := ToU32(sizeofEvent + size + Align(|data| + SIZEOF_ATTCHMT));
      var at := ATTACHMENTS + size;
      var unset := new Byte[newSize - |buf|];
      var grown := WriteBlock(buf + unset[..], at, kind, data);
      assert grown[..at] == buf[..at];
      EventGrows(buf, grown, sizeofEvent, attached, a);
      buf := Store(grown, SIZE_FIELD, Le(newSize - sizeofEvent));
      attached := attached + [a];
    }

    /** The three stores of lct_attach, with some slack left behind the block. */
    static method WriteBlock(grown: Bytes, at: nat, kind: Word, data: Bytes) returns (buf: Bytes)
      requires |data| < U32 && at + Room(Attachment(kind, data)) <= |grown|
      ensures |buf| == |grown| && buf[..at] == grown[..at]
      ensures IsBlock(buf[at..at + Room(Attachment(kind, data))], Attachment(kind, data))
    {
      buf := Store(grown, at, Le(|data|));
      buf := Store(buf, at + 4, Le(kind));
      buf := Store(buf, at + SIZEOF_ATTCHMT, data);
      ghost var n := at + Room(Attachment(kind, data));
      StoreFront(grown, n, at, Le(|data|));
      StoreFront(Store(grown, at, Le(|data|)), n, at + 4, Le(kind));
      StoreFront(Store(Store(grown, at, Le(|data|)), at + 4, Le(kind)), n, at + SIZEOF_ATTCHMT, data);
      StoreBlock(grown[..n], at, Attachment(kind, data), buf[..n]);
      assert buf[..n][..at] == buf[..at] && buf[..n][at..] == buf[at..n];
    }

    /** From `off` to `end` the buffer holds exactly the attachments of `todo`. */
    ghost predicate Left(off: int, end: nat, todo: seq<Attachment>)
      reads this
    {
      0 <= off <= end <= |buf| && Encodes(buf[off..end], todo)
    }

    /** The attachment whose header starts at `off`. */
    method ReadAt(off: nat, end: nat, ghost todo: seq<Attachment>) returns (a: Attachment)
      requires off < end && Left(off, end, todo)
      ensures todo != [] && a == todo[0]
      ensures Left(off + Room(a), end, todo[1..])
    {
      WalkStep(buf, off, end, todo);
      var size := WordOf(buf[off..off + 4]);
      var kind := WordOf(buf[off + 4..off + 8]);
      a := Attachment(kind, buf[off + 8..off + 8 + size]);
    }

    /** The walk has visited some attachments and stands at the header of the next one, or at the end. */
    ghost predicate Walked(first: nat, size: nat, cursor: nat, visited: seq<Attachment>, headers: seq<nat>, todo: seq<Attachment>)
      reads this
    {
      && attached == visited + todo
      && cursor == first + Total(visited)
      && HeadersOf(headers, first, visited)
      && Left(ATTACHMENTS + Total(visited), ATTACHMENTS + size, todo)
    }

    lemma WalkStarts(first: nat, size: nat)
      requires Valid() && size == SizeIn(buf)
      ensures Walked(first, size, first, [], [], attached)
    {
    }

    lemma WalkEnds(first: nat, size: nat, cursor: nat, visited: seq<Attachment>, headers: seq<nat>, todo: seq<Attachment>)
      requires Walked(first, size, cursor, visited, headers, todo) && cursor >= first + size
      ensures visited == attached && cursor == first + size && HeadersOf(headers, first, attached)
    {
      var off := ATTACHMENTS + Total(visited);
      EncodesSize(buf[off..ATTACHMENTS + size], todo);
    }

    /** One round of the loop. */
    method Visit(first: nat, size: nat, cursor: nat, ghost visited: seq<Attachment>, ghost headers: seq<nat>, ghost todo: seq<Attachment>)
      returns (a: Attachment, next: nat)
      requires first % ALIGNMENT == 0 && first <= cursor < first + size
      requires Walked(first, size, cursor, visited, headers, todo)
      ensures todo != [] && Walked(first, size, next, visited + [a], headers + [cursor], todo[1..])
    {
      a := ReadAt(ATTACHMENTS + (cursor - first), ATTACHMENTS + size, todo);
      next := Align(cursor + SIZEOF_ATTCHMT + |a.data|);
      NextHeader(first, visited, a);
      HeadersGrow(headers, first, visited, a);
      MoveHead(visited, todo);
    }

    /**
     * `foreach_attchmt`, for an event at a 4-aligned address: visits exactly the
     * attachments, in the order they were attached. Each header is found at an aligned
     * address, behind the aligned lengths of those before it, and the cursor ends
     * exactly at the end of the area.
     */
    method Walk(address: nat) returns (visited: seq<Attachment>, headers: seq<nat>, cursor: nat)
      requires Valid() && address % ALIGNMENT == 0
      ensures visited == attached && cursor == address + ATTACHMENTS + SizeIn(buf)
      ensures HeadersOf(headers, address + ATTACHMENTS, attached)
    {
      visited, headers, cursor := [], [], address + ATTACHMENTS;
      AlignedSum(address, ATTACHMENTS);
      var size := SizeIn(buf);
      if size != 0 {
        visited, headers, cursor := WalkFrom(address + ATTACHMENTS, size);
      } else {
        NothingAttached();
      }
    }

    lemma NothingAttached()
      requires Valid() && SizeIn(buf) == 0
      ensures attached == []
    {
      EncodesSize(buf[ATTACHMENTS..ATTACHMENTS + SizeIn(buf)], attached);
    }

    /** The loop of foreach_attchmt. */
    method WalkFrom(first: nat, size: nat) returns (visited: seq<Attachment>, headers: seq<nat>, cursor: nat)
      requires Valid() && first % ALIGNMENT == 0 && size == SizeIn(buf)
      ensures visited == attached && cursor == first + size && HeadersOf(headers, first, attached)
    {
      visited, headers, cursor := [], [], first;
      ghost var todo := attached;
      WalkStarts(first, size);
      while cursor < first + size
        invariant Walked(first, size, cursor, visited, headers, todo)
        decreases |todo|
      {
        var a, next := Visit(first, size, cursor, visited, headers, todo);
        visited, headers, todo := visited + [a], headers + [cursor], todo[1..];
        cursor := next;
      }
      WalkEnds(first, size, cursor, visited, headers, todo);
    }
  }

  /** The header of attachment `i` is at an aligned address behind those before it. */
  ghost predicate HeaderAt(header: nat, first: nat, atts: seq<Attachment>, i: nat)
    requires i <= |atts|
  {
    header == first + Total(atts[..i]) && header % ALIGNMENT == 0
  }

  ghost predicate HeadersOf(headers: seq<nat>, first: nat, atts: seq<Attachment>)
  {
    |headers| == |atts| && forall i :: 0 <= i < |headers| ==> HeaderAt(headers[i], first, atts, i)
  }

  lemma AlignedSum(a: nat, b: nat)
    requires a % ALIGNMENT == 0 && b % ALIGNMENT == 0
    ensures (a + b) % ALIGNMENT == 0
  {
  }

  /** The cursor arithmetic of the loop: the next header lies behind the padding. */
  lemma NextHeader(first: nat, atts: seq<Attachment>, a: Attachment)
    requires first % ALIGNMENT == 0
    ensures Align(first + Total(atts) + SIZEOF_ATTCHMT + |a.data|) == first + Total(atts) + Room(a)
  {
    AlignShift(first + Total(atts), SIZEOF_ATTCHMT + |a.data|);
  }

  lemma HeadersGrow(headers: seq<nat>, first: nat, atts: seq<Attachment>, a: Attachment)
    requires HeadersOf(headers, first, atts) && first % ALIGNMENT == 0
    ensures HeadersOf(headers + [first + Total(atts)], first, atts + [a])
    ensures Total(atts + [a]) == Total(atts) + Room(a)
  {
    TotalSplit(atts, [a]);
    AlignedSum(first, Total(atts));
    var headers', atts' := headers + [first + Total(atts)], atts + [a];
    forall i | 0 <= i < |headers'|
      ensures HeaderAt(headers'[i], first, atts', i)
    {
      assert atts'[..i] == atts[..i];
      if i < |atts| {
        assert HeaderAt(headers[i], first, atts, i);
      } else {
        assert atts[..i] == atts;
      }
    }
  }

  /** The area is as large as the aligned lengths together. */
  lemma AreaIsTotal(e: EventBuffer)
    requires e.Valid()
    ensures SizeIn(e.buf) == Total(e.attached)
  {
    EncodesSize(e.buf[ATTACHMENTS..ATTACHMENTS + SizeIn(e.buf)], e.attached);
  }

  lemma {:induction false} TotalSplit(a: seq<Attachment>, b: seq<Attachment>)
    ensures Total(a + b) == Total(a) + Total(b)
  {
    if a == [] {
      assert a + b == b;
    } else {
      TotalSplit(a[1..], b);
      assert (a + b)[1..] == a[1..] + b;
    }
  }

  // ---- lct_log_all ----

  const CT_ATTCHMT_FILELIST: Word := 7
  const CT_ATTCHMT_ADDITIONAL: Word := 8

  /** A string field: absent, or attached with its terminating zero. */
  function Field(kind: Word, text: Option<Bytes>): seq<Attachment>
  {
    if text.None? then [] else [Attachment(kind, text.value + [0])]
  }

  function Steps(addSteps: Word): seq<Attachment>
  {
    if addSteps == 0 then [] else [Attachment(CT_ATTCHMT_ADDITIONAL, Le(addSteps))]
  }

  /** Three data fields in order, under consecutive types from `kind` on; the types start with CT_ATTCHMT_DATA0 = 0. */
  function ThreeFields(kind: Word, d0: Option<Bytes>, d1: Option<Bytes>, d2: Option<Bytes>): seq<Attachment>
    requires kind <= 3
  {
    Field(kind, d0) + Field(kind + 1, d1) + Field(kind + 2, d2)
  }

  /** The room such a field takes. */
  function FieldSize(text: Option<Bytes>): nat
  {
    if text.None? then 0 else Align(|text.value| + 1 + SIZEOF_ATTCHMT)
  }

  function StepsSize(addSteps: Word): nat
  {
    if addSteps == 0 then 0 else Align(4 + SIZEOF_ATTCHMT)
  }

  method AttachField(e: EventBuffer, kind: Word, text: Option<Bytes>)
    requires e.Valid() && e.sizeofEvent + SizeIn(e.buf) + FieldSize(text) < U32
    modifies e
    ensures e.Valid() && e.attached == old(e.attached) + Field(kind, text)
    ensures SizeIn(e.buf) == old(SizeIn(e.buf)) + FieldSize(text)
  {
    if text.Some? {
      e.Attach(kind, text.value + [0]);
    }
  }

  method AttachSteps(e: EventBuffer, addSteps: Word)
    requires e.Valid() && e.sizeofEvent + SizeIn(e.buf) + StepsSize(addSteps) < U32
    modifies e
    ensures e.Valid() && e.attached == old(e.attached) + Steps(addSteps)
  {
    if addSteps != 0 {
      e.Attach(CT_ATTCHMT_ADDITIONAL, Le(addSteps));
    }
  }

  /** Three data fields in a row, leaving room for `rest` bytes. */
  method AttachThree(e: EventBuffer, kind: Word, d0: Option<Bytes>, d1: Option<Bytes>, d2: Option<Bytes>, ghost rest: nat)
    requires e.Valid() && kind <= 3
    requires e.sizeofEvent + SizeIn(e.buf) + FieldSize(d0) + FieldSize(d1) + FieldSize(d2) + rest < U32
    modifies e
    ensures e.Valid() && e.attached == old(e.attached) + ThreeFields(kind, d0, d1, d2)
    ensures e.sizeofEvent + SizeIn(e.buf) + rest < U32
  {
    AttachTwo(e, kind, d0, d1, FieldSize(d2) + rest);
    AttachField(e, kind + 2, d2);
    Regrouped(old(e.attached), Field(kind, d0) + Field(kind + 1, d1), Field(kind + 2, d2));
  }

  method AttachTwo(e: EventBuffer, kind: Word, d0: Option<Bytes>, d1: Option<Bytes>, ghost rest: nat)
    requires e.Valid() && kind <= 4
    requires e.sizeofEvent + SizeIn(e.buf) + FieldSize(d0) + FieldSize(d1) + rest < U32
    modifies e
    ensures e.Valid() && e.attached == old(e.attached) + (Field(kind, d0) + Field(kind + 1, d1))
    ensures e.sizeofEvent + SizeIn(e.buf) + rest < U32
  {
    AttachField(e, kind, d0);
    AttachField(e, kind + 1, d1);
    Regrouped(old(e.attached), Field(kind, d0), Field(kind + 1, d1));
  }

  lemma Regrouped<T>(a: seq<T>, b: seq<T>, c: seq<T>)
    ensures a + b + c == a + (b + c)
  {
  }

  /** `lct_log_all` up to the send: the event carries the given fields, in order of their types. */
  method LogAll(header: Bytes, d0: Option<Bytes>, d1: Option<Bytes>, d2: Option<Bytes>, d3: Option<Bytes>,
                d4: Option<Bytes>, d5: Option<Bytes>, flist: Option<Bytes>, addSteps: Word)
    returns (e: EventBuffer)
    requires IsEventSize(|header|) && SizeIn(header) == 0
    requires |header| + FieldSize(d0) + FieldSize(d1) + FieldSize(d2) + FieldSize(d3) + FieldSize(d4)
             + FieldSize(d5) + FieldSize(flist) + StepsSize(addSteps) < U32
    ensures fresh(e) && e.Valid()
    ensures e.attached == ThreeFields(0, d0, d1, d2) + ThreeFields(3, d3, d4, d5)
                          + (Field(CT_ATTCHMT_FILELIST, flist) + Steps(addSteps))
    ensures LoggedAs(e.attached, d0, d1, d2, d3, d4, d5, flist, addSteps)
  {
    e := new EventBuffer(header);
    ghost var last := FieldSize(flist) + StepsSize(addSteps);
    AttachThree(e, 0, d0, d1, d2, FieldSize(d3) + FieldSize(d4) + FieldSize(d5) + last);
    AttachThree(e, 3, d3, d4, d5, last);
    AttachRest(e, flist, addSteps);
    EmptyFront(ThreeFields(0, d0, d1, d2), ThreeFields(3, d3, d4, d5), Field(CT_ATTCHMT_FILELIST, flist) + Steps(addSteps));
    AllLogged(e.attached, d0, d1, d2, d3, d4, d5, flist, addSteps);
  }

  method AttachRest(e: EventBuffer, flist: Option<Bytes>, addSteps: Word)
    requires e.Valid() && e.sizeofEvent + SizeIn(e.buf) + FieldSize(flist) + StepsSize(addSteps) < U32
    modifies e
    ensures e.Valid() && e.attached == old(e.attached) + (Field(CT_ATTCHMT_FILELIST, flist) + Steps(addSteps))
  {
    AttachField(e, CT_ATTCHMT_FILELIST, flist);
    AttachSteps(e, addSteps);
  }

  lemma EmptyFront<T>(a: seq<T>, b: seq<T>, c: seq<T>)
    ensures [] + a + b + c == a + b + c
  {
  }

  /** The data attached under a type, in order. */
  function OfKind(atts: seq<Attachment>, kind: Word): seq<Bytes>
  {
    if atts == [] then []
    else OfKind(atts[..|atts| - 1], kind) + (if atts[|atts| - 1].kind == kind then [atts[|atts| - 1].data] else [])
  }

  lemma {:induction false} OfKindSplit(a: seq<Attachment>, b: seq<Attachment>, kind: Word)
    ensures OfKind(a + b, kind) == OfKind(a, kind) + OfKind(b, kind)
    decreases |b|
  {
    if b == [] {
      assert a + b == a;
    } else {
      OfKindSplit(a, b[..|b| - 1], kind);
      assert (a + b)[..|a + b| - 1] == a + b[..|b| - 1];
    }
  }

  lemma FieldIs(kind: Word, text: Option<Bytes>, other: Word)
    ensures OfKind(Field(kind, text), other) == if other == kind then Strings(text) else []
  {
    if text.Some? {
      assert Field(kind, text)[..0] == [];
    }
  }

  lemma ThreeFieldsAre(kind: Word, d0: Option<Bytes>, d1: Option<Bytes>, d2: Option<Bytes>, other: Word)
    requires kind <= 3
    ensures OfKind(ThreeFields(kind, d0, d1, d2), other) ==
            if other == kind then Strings(d0)
            else if other == kind + 1 then Strings(d1)
            else if other == kind + 2 then Strings(d2)
            else []
  {
    OfKindSplit(Field(kind, d0) + Field(kind + 1, d1), Field(kind + 2, d2), other);
    OfKindSplit(Field(kind, d0), Field(kind + 1, d1), other);
    FieldIs(kind, d0, other);
    FieldIs(kind + 1, d1, other);
    FieldIs(kind + 2, d2, other);
  }

  lemma RestIs(flist: Option<Bytes>, addSteps: Word, kind: Word)
    ensures OfKind(Field(CT_ATTCHMT_FILELIST, flist) + Steps(addSteps), kind) ==
            if kind == 7 then Strings(flist) else if kind == 8 && addSteps != 0 then [Le(addSteps)] else []
  {
    OfKindSplit(Field(CT_ATTCHMT_FILELIST, flist), Steps(addSteps), kind);
    FieldIs(CT_ATTCHMT_FILELIST, flist, kind);
    if addSteps != 0 {
      assert Steps(addSteps)[..0] == [];
    }
  }

  lemma KindsJoin(first: seq<Attachment>, second: seq<Attachment>, rest: seq<Attachment>, kind: Word)
    ensures OfKind(first + second + rest, kind) == OfKind(first, kind) + OfKind(second, kind) + OfKind(rest, kind)
  {
    OfKindSplit(first + second, rest, kind);
    OfKindSplit(first, second, kind);
  }

  function OneOf(i: int, d0: Option<Bytes>, d1: Option<Bytes>, d2: Option<Bytes>): Option<Bytes>
  {
    if i == 0 then d0 else if i == 1 then d1 else d2
  }

  /** The three strings of a part are found under three consecutive types, and nothing else is. */
  ghost predicate HoldsThree(part: seq<Attachment>, kind: Word, d0: Option<Bytes>, d1: Option<Bytes>, d2: Option<Bytes>)
  {
    forall other: Word :: OfKind(part, other) ==
      if kind <= other <= kind + 2 then Strings(OneOf(other - kind, d0, d1, d2)) else []
  }

  lemma ThreeHeld(kind: Word, d0: Option<Bytes>, d1: Option<Bytes>, d2: Option<Bytes>)
    requires kind <= 3
    ensures HoldsThree(ThreeFields(kind, d0, d1, d2), kind, d0, d1, d2)
  {
    var part := ThreeFields(kind, d0, d1, d2);
    forall other: Word
      ensures OfKind(part, other) == if kind <= other <= kind + 2 then Strings(OneOf(other - kind, d0, d1, d2)) else []
    {
      ThreeFieldsAre(kind, d0, d1, d2, other);
    }
  }

  /** What lct_log_all attached, type by type: d0 to d5 under 0 to 5, the file list under 7, the steps under 8. */
  lemma LoggedFields(first: seq<Attachment>, second: seq<Attachment>, flist: Option<Bytes>, addSteps: Word, kind: Word,
                     d0: Option<Bytes>, d1: Option<Bytes>, d2: Option<Bytes>, d3: Option<Bytes>, d4: Option<Bytes>, d5: Option<Bytes>)
    requires HoldsThree(first, 0, d0, d1, d2) && HoldsThree(second, 3, d3, d4, d5)
    ensures OfKind(first + second + (Field(CT_ATTCHMT_FILELIST, flist) + Steps(addSteps)), kind) ==
            if kind <= 2 then Strings(OneOf(kind, d0, d1, d2))
            else if kind <= 5 then Strings(OneOf(kind - 3, d3, d4, d5))
            else if kind == 7 then Strings(flist)
            else if kind == 8 && addSteps != 0 then [Le(addSteps)]
            else []
  {
    var rest := Field(CT_ATTCHMT_FILELIST, flist) + Steps(addSteps);
    KindsJoin(first, second, rest, kind);
    RestIs(flist, addSteps, kind);
    OnlyOne(OfKind(first, kind), OfKind(second, kind), OfKind(rest, kind));
  }

  /** The attachments of lct_log_all, type by type. */
  ghost predicate LoggedAs(atts: seq<Attachment>, d0: Option<Bytes>, d1: Option<Bytes>, d2: Option<Bytes>, d3: Option<Bytes>,
                           d4: Option<Bytes>, d5: Option<Bytes>, flist: Option<Bytes>, addSteps: Word)
  {
    forall kind: Word :: OfKind(atts, kind) ==
      if kind <= 2 then Strings(OneOf(kind, d0, d1, d2))
      else if kind <= 5 then Strings(OneOf(kind - 3, d3, d4, d5))
      else if kind == 7 then Strings(flist)
      else if kind == 8 && addSteps != 0 then [Le(addSteps)]
      else []
  }

  lemma AllLogged(atts: seq<Attachment>, d0: Option<Bytes>, d1: Option<Bytes>, d2: Option<Bytes>, d3: Option<Bytes>,
                  d4: Option<Bytes>, d5: Option<Bytes>, flist: Option<Bytes>, addSteps: Word)
    requires atts == ThreeFields(0, d0, d1, d2) + ThreeFields(3, d3, d4, d5) + (Field(CT_ATTCHMT_FILELIST, flist) + Steps(addSteps))
    ensures LoggedAs(atts, d0, d1, d2, d3, d4, d5, flist, addSteps)
  {
    var first, second := ThreeFields(0, d0, d1, d2), ThreeFields(3, d3, d4, d5);
    ThreeHeld(0, d0, d1, d2);
    ThreeHeld(3, d3, d4, d5);
    forall kind: Word
      ensures OfKind(atts, kind) ==
              if kind <= 2 then Strings(OneOf(kind, d0, d1, d2))
              else if kind <= 5 then Strings(OneOf(kind - 3, d3, d4, d5))
              else if kind == 7 then Strings(flist)
              else if kind == 8 && addSteps != 0 then [Le(addSteps)]
              else []
    {
      LoggedFields(first, second, flist, addSteps, kind, d0, d1, d2, d3, d4, d5);
    }
  }

  lemma OnlyOne<T>(a: seq<T>, b: seq<T>, c: seq<T>)
    ensures b == [] && c == [] ==> a + b + c == a
    ensures a == [] && c == [] ==> a + b + c == b
    ensures a == [] && b == [] ==> a + b + c == c
  {
  }

  /** The string itself and a terminating zero, or nothing. */
  function Strings(text: Option<Bytes>): (s: seq<Bytes>)
    ensures text.None? <==> s == []
    ensures text.Some? ==> |s| == 1 && |s[0]| == |text.value| + 1 && s[0][..|text.value|] == text.value && s[0][|text.value|] == 0
  {
    if text.None? then [] else [text.value + [0]]
  }

  lemma MoveHead<T>(done: seq<T>, todo: seq<T>)
    requires todo != []
    ensures done + todo == (done + [todo[0]]) + todo[1..]
  {
  }

  /** The attachment area after a block was written behind it. */
  lemma AreaGrows(buf: Bytes, grown: Bytes, at: nat, atts: seq<Attachment>, a: Attachment)
    requires ATTACHMENTS <= at <= |buf| && at + Room(a) <= |grown| && grown[..at] == buf[..at]
    requires Encodes(buf[ATTACHMENTS..at], atts) && IsBlock(grown[at..at + Room(a)], a)
    ensures Encodes(grown[ATTACHMENTS..at + Room(a)], atts + [a])
    ensures grown[..ATTACHMENTS] == buf[..ATTACHMENTS]
  {
    var area, block := buf[ATTACHMENTS..at], grown[at..at + Room(a)];
    SamePrefix(buf, grown, ATTACHMENTS, at, at + Room(a));
    EncodesAppend(area, atts, block, a);
  }

  lemma SamePrefix(buf: Bytes, grown: Bytes, from: nat, at: nat, end: nat)
    requires from <= at <= |buf| && at <= end <= |grown| && grown[..at] == buf[..at]
    ensures grown[..from] == buf[..from]
    ensures grown[from..end] == buf[from..at] + grown[at..end]
  {
    assert grown[from..at] == grown[..at][from..] == buf[from..at];
    assert grown[..from] == grown[..at][..from];
  }

  /** A block written behind the area and the new size make an event with one attachment more. */
  lemma EventGrows(buf: Bytes, grown: Bytes, sizeofEvent: nat, atts: seq<Attachment>, a: Attachment)
    requires IsEvent(buf, sizeofEvent, atts) && |grown| == |buf| + Room(a) < U32
    requires var at := ATTACHMENTS + SizeIn(buf); grown[..at] == buf[..at] && IsBlock(grown[at..at + Room(a)], a)
    ensures var size := SizeIn(buf) + Room(a);
            var done := Store(grown, SIZE_FIELD, Le(size));
            && IsEvent(done, sizeofEvent, atts + [a]) && SizeIn(done) == size
            && done[..SIZE_FIELD] == buf[..SIZE_FIELD]
            && done[SIZE_FIELD + 4..ATTACHMENTS] == buf[SIZE_FIELD + 4..ATTACHMENTS]
  {
    var at, size := ATTACHMENTS + SizeIn(buf), SizeIn(buf) + Room(a);
    AreaGrows(buf, grown, at, atts, a);
    SizeStored(grown, size, at + Room(a));
    HeaderKept(buf, grown, at);
    assert ATTACHMENTS + size == at + Room(a);
  }

  lemma HeaderKept(buf: Bytes, grown: Bytes, at: nat)
    requires ATTACHMENTS <= at <= |buf| && at <= |grown| && grown[..at] == buf[..at]
    ensures grown[..SIZE_FIELD] == buf[..SIZE_FIELD]
    ensures grown[SIZE_FIELD + 4..ATTACHMENTS] == buf[SIZE_FIELD + 4..ATTACHMENTS]
  {
    assert grown[..SIZE_FIELD] == grown[..at][..SIZE_FIELD];
    assert grown[SIZE_FIELD + 4..ATTACHMENTS] == grown[..at][SIZE_FIELD + 4..ATTACHMENTS];
  }

  /** What the loop reads at `off`, and where it goes on. */
  lemma WalkStep(buf: Bytes, off: nat, end: nat, todo: seq<Attachment>)
    requires off < end <= |buf| && Encodes(buf[off..end], todo)
    ensures todo != []
    ensures var a := todo[0];
            && off + 8 + |a.data| <= end
            && WordOf(buf[off..off + 4]) == |a.data|
            && WordOf(buf[off + 4..off + 8]) == a.kind
            && buf[off + 8..off + 8 + |a.data|] == a.data
            && off + Align(SIZEOF_ATTCHMT + |a.data|) <= end
            && Encodes(buf[off + Align(SIZEOF_ATTCHMT + |a.data|)..end], todo[1..])
  {
    var area, a := buf[off..end], todo[0];
    var n := Room(a);
    assert area == area[..n] + area[n..];
    ReadBlock(area[..n], a, area[n..]);
    SliceOfSlice(buf, off, end, 0, 4);
    SliceOfSlice(buf, off, end, 4, 8);
    SliceOfSlice(buf, off, end, 8, 8 + |a.data|);
    SliceOfSlice(buf, off, end, n, end - off);
  }

  lemma SliceOfSlice(s: Bytes, from: nat, to: nat, i: nat, j: nat)
    requires from + i <= from + j <= to <= |s|
    ensures s[from..to][i..j] == s[from + i..from + j]
  {
    var a := s[from..to];
    assert forall k :: 0 <= k < j - i ==> a[i..j][k] == a[i + k] == s[from + i + k];
  }

  lemma StoreFront(buf: Bytes, n: nat, at: nat, bytes: Bytes)
    requires at + |bytes| <= n <= |buf|
    ensures Store(buf, at, bytes)[..n] == Store(buf[..n], at, bytes)
  {
  }
}
