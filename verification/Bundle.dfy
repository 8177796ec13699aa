/** Little-endian unsigned integers as they lie in memory. */
module LittleEndian {

  type byte = b: int | 0 <= b < 256

  function Pow256(k: nat): nat {
    if k == 0 then 1 else 256 * Pow256(k - 1)
  }

  function Encode(n: nat, k: nat): (bytes: seq<byte>)
    ensures |bytes| == k
  {
    if k == 0 then [] else [n % 256] + Encode(n / 256, k - 1)
  }

  function Decode(bytes: seq<byte>): nat {
    if bytes == [] then 0 else bytes[0] + 256 * Decode(bytes[1..])
  }

  lemma {:induction false} DecodeEncode(n: nat, k: nat)
    requires n < Pow256(k)
    ensures Decode(Encode(n, k)) == n
  {
    if k > 0 {
      DecodeEncode(n / 256, k - 1);
      assert Encode(n, k)[1..] == Encode(n / 256, k - 1);
    }
  }

  lemma {:induction false} EncodeDecode(bytes: seq<byte>)
    ensures Decode(bytes) < Pow256(|bytes|)
    ensures Encode(Decode(bytes), |bytes|) == bytes
  {
    if bytes != [] {
      EncodeDecode(bytes[1..]);
      assert Decode(bytes) % 256 == bytes[0] && Decode(bytes) / 256 == Decode(bytes[1..]);
    }
  }

  /** Byte `i` has the weight 256^i: the first byte is the least significant one. */
  lemma {:induction false} DecodeConcat(low: seq<byte>, high: seq<byte>)
    ensures Decode(low + high) == Decode(low) + Pow256(|low|) * Decode(high)
  {
    if low == [] {
      assert low + high == high;
    } else {
      var rest := low[1..];
      assert (low + high)[1..] == rest + high;
      DecodeConcat(rest, high);
      Regroup(256, Pow256(|rest|), Decode(high));
    }
  }

  lemma Regroup(a: nat, b: nat, c: nat)
    ensures a * (b * c) == (a * b) * c
  {
  }

  lemma {:induction false} Pow256At8()
    ensures Pow256(8) == 0x1_0000_0000_0000_0000
  {
    assert Pow256(1) == 256;
    assert Pow256(2) == 0x1_0000;
    assert Pow256(4) == 0x1_0000_0000 by {
      assert Pow256(3) == 0x100_0000;
    }
    assert Pow256(6) == 0x1_0000_0000_0000 by {
      assert Pow256(5) == 0x100_0000_0000;
    }
    assert Pow256(7) == 0x100_0000_0000_0000;
  }
}

/**
 The reader of Clang offload bundles. A bundle is the magic string, a 64-bit entry count, and
 for every entry its object offset, object size and identifier length (64 bits each) followed by
 the identifier. Addresses are offsets into the buffer and do not wrap around.
 */
module Bundle {
  import opened Prelude
  import opened LittleEndian

  const MAGIC: seq<byte> := Bytes("__CLANG_OFFLOAD_BUNDLE__")
  const HIP: seq<byte> := Bytes("hip")
  const COUNT_OFFSET := 24
  const FIRST_ENTRY := 32
  const ENTRY_ID_START := 24
  const WORD_LIMIT := 0x1_0000_0000_0000_0000

  /** The character codes of an ASCII string. */
  function Bytes(s: string): (bytes: seq<byte>)
    ensures |bytes| == |s|
  {
    seq(|s|, i requires 0 <= i < |s| => if s[i] as int < 256 then s[i] as int else 0)
  }

  /** The fields of an entry header. */
  datatype Entry = Entry(objectOffset: nat, objectSize: nat, idSize: nat)

  datatype UrResult = Success | InvalidProgram

  /** A 64-bit load; that it lies inside the buffer is an obligation of every caller. */
  function Word(buff: seq<byte>, at: nat): (w: nat)
    requires at + 8 <= |buff|
    ensures w < WORD_LIMIT
  {
    EncodeDecode(buff[at..at + 8]);
    Pow256At8();
    Decode(buff[at..at + 8])
  }

  function EntryAt(buff: seq<byte>, at: nat): Entry
    requires at + ENTRY_ID_START <= |buff|
  {
    Entry(Word(buff, at), Word(buff, at + 8), Word(buff, at + 16))
  }

  predicate StartsWith(s: seq<byte>, prefix: seq<byte>) {
    prefix <= s
  }

  predicate EndsWith(s: seq<byte>, suffix: seq<byte>) {
    |suffix| <= |s| && s[|s| - |suffix|..] == suffix
  }

  predicate Matches(id: seq<byte>, target: seq<byte>) {
    StartsWith(id, HIP) && EndsWith(id, target)
  }

  /** `load`: the buffer is a bundle when it starts with the magic string. */
  predicate Load(buff: seq<byte>) {
    StartsWith(buff, MAGIC)
  }

  /** The identifiers that a search for the target accepts. */
  function Wanted(target: seq<byte>): seq<byte> -> bool {
    (id: seq<byte>) => Matches(id, target)
  }

  /** What the search accepts: identifiers that start with the bytes of "hip" and end with the target. */
  lemma {:induction false} WantedIff(target: seq<byte>, id: seq<byte>)
    ensures Wanted(target)(id) <==> [104, 105, 112] <= id && exists front :: id == front + target
  {
    assert HIP == [104, 105, 112] by {
      assert 'h' as int == 104 && 'i' as int == 105 && 'p' as int == 112;
    }
    if |target| <= |id| {
      var front := id[..|id| - |target|];
      assert id == front + id[|id| - |target|..];
    }
    if front :| id == front + target {
      assert id[|id| - |target|..] == target;
    }
  }

  /** A buffer is taken for a bundle exactly when it starts with the 24 bytes of the magic string. */
  lemma {:induction false} LoadIff(buff: seq<byte>)
    ensures Load(buff) <==>
              |buff| >= 24 && forall i :: 0 <= i < 24 ==> buff[i] == "__CLANG_OFFLOAD_BUNDLE__"[i] as int
  {
    var magic := "__CLANG_OFFLOAD_BUNDLE__";
    assert |magic| == 24;
    AsciiBytes(magic);
    if Load(buff) {
      assert buff[..24] == MAGIC;
    }
    if |buff| >= 24 && forall i :: 0 <= i < 24 ==> buff[i] == magic[i] as int {
      assert buff[..24] == MAGIC;
    }
  }

  lemma {:induction false} AsciiBytes(s: string)
    requires forall c :: c in s ==> c as int < 256
    ensures forall i :: 0 <= i < |s| ==> Bytes(s)[i] == s[i] as int
  {
    forall i | 0 <= i < |s|
      ensures Bytes(s)[i] == s[i] as int
    {
      assert s[i] in s;
    }
  }

  /** The entry headers of a buffer; outside the buffer there is nothing to read. */
  function Headers(buff: seq<byte>): nat -> Entry {
    (at: nat) => if at + ENTRY_ID_START <= |buff| then EntryAt(buff, at) else Entry(0, 0, 0)
  }

  // ---------------------------------------------------------------- the reader

  /** What the walk finds from `at` on with `count` entries left, and how often it loops. */
  datatype Walk = Walk(entry: Option<Entry>, steps: nat)

  function WalkFrom(buff: seq<byte>, entryAt: nat -> Entry, at: nat, count: nat, wanted: seq<byte> -> bool): Walk
    decreases count
  {
    if count == 0 then Walk(None, 0)
    else
      var idStart := at + ENTRY_ID_START;
      if idStart > |buff| || idStart + entryAt(at).idSize > |buff| then Walk(None, 1)
      else
        var entry := entryAt(at);
        if wanted(buff[idStart..idStart + entry.idSize]) then Walk(Some(entry), 1)
        else OneMore(WalkFrom(buff, entryAt, idStart + entry.idSize, count - 1, wanted))
  }

  function OneMore(walk: Walk): Walk {
    Walk(walk.entry, walk.steps + 1)
  }

  /** The walk stops at an entry that does not lie in the buffer. */
  lemma {:induction false} WalkStops(
      buff: seq<byte>, entryAt: nat -> Entry, at: nat, count: nat, wanted: seq<byte> -> bool)
    requires count > 0
    requires at + ENTRY_ID_START > |buff| || at + ENTRY_ID_START + entryAt(at).idSize > |buff|
    ensures WalkFrom(buff, entryAt, at, count, wanted) == Walk(None, 1)
  {
  }

  /** One step of the walk on an entry that lies in the buffer. */
  lemma {:induction false} WalkOne(
      buff: seq<byte>, entryAt: nat -> Entry, at: nat, count: nat, wanted: seq<byte> -> bool, entry: Entry,
      id: seq<byte>)
    requires count > 0 && at + ENTRY_ID_START + entry.idSize <= |buff|
    requires entry == entryAt(at) && id == buff[at + ENTRY_ID_START..at + ENTRY_ID_START + entry.idSize]
    ensures WalkFrom(buff, entryAt, at, count, wanted) ==
            if wanted(id) then Walk(Some(entry), 1)
            else OneMore(WalkFrom(buff, entryAt, at + ENTRY_ID_START + entry.idSize, count - 1, wanted))
  {
  }

  function Found(buff: seq<byte>, target: seq<byte>): Walk {
    if FIRST_ENTRY > |buff| then Walk(None, 0)
    else WalkFrom(buff, Headers(buff), FIRST_ENTRY, Word(buff, COUNT_OFFSET), Wanted(target))
  }

  /** However large the claimed count, the walk loops at most once per 24 bytes left, plus once. */
  lemma {:induction false} WalkIsBounded(
      buff: seq<byte>, entryAt: nat -> Entry, at: nat, count: nat, wanted: seq<byte> -> bool)
    requires at <= |buff|
    ensures WalkFrom(buff, entryAt, at, count, wanted).steps <= (|buff| - at) / ENTRY_ID_START + 1
    decreases count
  {
    if count > 0 && at + ENTRY_ID_START <= |buff| {
      var next := at + ENTRY_ID_START + entryAt(at).idSize;
      if next <= |buff| {
        WalkIsBounded(buff, entryAt, next, count - 1, wanted);
        assert (|buff| - next) / ENTRY_ID_START <= (|buff| - at - ENTRY_ID_START) / ENTRY_ID_START;
      }
    }
  }

  /** Nothing is found under an empty identifier. */
  lemma {:induction false} EmptyIdNotWanted(target: seq<byte>)
    ensures !Wanted(target)([])
  {
    assert |HIP| == 3;
  }

  /** The entry that is copied out, including the first byte of its identifier, lies in the buffer. */
  lemma {:induction false} FoundEntryIsInside(
      buff: seq<byte>, entryAt: nat -> Entry, at: nat, count: nat, wanted: seq<byte> -> bool)
    returns (where: nat)
    requires WalkFrom(buff, entryAt, at, count, wanted).entry.Some? && !wanted([])
    ensures at <= where && where + ENTRY_ID_START + 1 <= |buff|
    ensures WalkFrom(buff, entryAt, at, count, wanted).entry.value == entryAt(where)
    decreases count
  {
    var entry := entryAt(at);
    var idStart := at + ENTRY_ID_START;
    if wanted(buff[idStart..idStart + entry.idSize]) {
      where := at;
      assert |buff[idStart..idStart + entry.idSize]| == entry.idSize;
    } else {
      where := FoundEntryIsInside(buff, entryAt, idStart + entry.idSize, count - 1, wanted);
    }
  }

  /** What a search returns is an entry of the buffer, read without leaving it. */
  lemma {:induction false} FoundIsInside(buff: seq<byte>, target: seq<byte>) returns (where: nat)
    requires Found(buff, target).entry.Some?
    ensures FIRST_ENTRY <= where && where + ENTRY_ID_START + 1 <= |buff|
    ensures Found(buff, target).entry.value == EntryAt(buff, where)
  {
    EmptyIdNotWanted(target);
    where := FoundEntryIsInside(buff, Headers(buff), FIRST_ENTRY, Word(buff, COUNT_OFFSET), Wanted(target));
  }

  method ContainsBundle(buff: seq<byte>, target: seq<byte>) returns (entry: Option<Entry>, steps: nat)
    ensures Walk(entry, steps) == Found(buff, target)
    ensures |buff| >= FIRST_ENTRY ==> steps <= (|buff| - FIRST_ENTRY) / ENTRY_ID_START + 1
  {
    if FIRST_ENTRY > |buff| {
      return None, 0;
    }
    var entryCount := Word(buff, COUNT_OFFSET);
    entry, steps := WalkEntries(buff, Headers(buff), entryCount, Wanted(target));
    WalkIsBounded(buff, Headers(buff), FIRST_ENTRY, entryCount, Wanted(target));
  }

  /** A walk that continues after some steps. */
  function After(walk: Walk, steps: nat): Walk {
    Walk(walk.entry, walk.steps + steps)
  }

  lemma AfterOneMore(walk: Walk, steps: nat)
    ensures After(OneMore(walk), steps) == After(walk, steps + 1)
  {
  }

  ghost predicate IsReader(buff: seq<byte>, entryAt: nat -> Entry) {
    forall at: nat {:trigger EntryAt(buff, at)} :: at + ENTRY_ID_START <= |buff| ==> entryAt(at) == EntryAt(buff, at)
  }

  /** The three loads of an entry header. */
  method LoadEntry(buff: seq<byte>, ghost entryAt: nat -> Entry, at: nat) returns (entry: Entry)
    requires at + ENTRY_ID_START <= |buff| && IsReader(buff, entryAt)
    ensures entry == entryAt(at)
    ensures entry.objectOffset == Decode(buff[at..at + 8])
    ensures entry.objectSize == Decode(buff[at + 8..at + 16])
    ensures entry.idSize == Decode(buff[at + 16..at + 24])
  {
    entry := EntryAt(buff, at);
  }

  /** The loop over the entries. */
  method WalkEntries(buff: seq<byte>, ghost entryAt: nat -> Entry, entryCount: nat, wanted: seq<byte> -> bool)
    returns (entry: Option<Entry>, steps: nat)
    requires IsReader(buff, entryAt)
    ensures Walk(entry, steps) == WalkFrom(buff, entryAt, FIRST_ENTRY, entryCount, wanted)
  {
    var current: nat := FIRST_ENTRY;
    ghost var walk, left := WalkFrom(buff, entryAt, FIRST_ENTRY, entryCount, wanted), entryCount;
    steps := 0;
    while steps < entryCount
      invariant steps + left == entryCount
      invariant walk == After(WalkFrom(buff, entryAt, current, left, wanted), steps)
    {
      var entryBytes := current + ENTRY_ID_START;
      if entryBytes > |buff| {
        WalkStops(buff, entryAt, current, left, wanted);
        return None, steps + 1;
      }
      var header := LoadEntry(buff, entryAt, current);
      if entryBytes + header.idSize > |buff| {
        WalkStops(buff, entryAt, current, left, wanted);
        return None, steps + 1;
      }
      var id := buff[entryBytes..entryBytes + header.idSize];
      WalkOne(buff, entryAt, current, left, wanted, header, id);
      if wanted(id) {
        return Some(header), steps + 1;
      }
      current := entryBytes + header.idSize;
      left := left - 1;
      AfterOneMore(WalkFrom(buff, entryAt, current, left, wanted), steps);
      steps := steps + 1;
    }
    entry := None;
  }

  /** `extract`: the outputs keep their values when no entry is found. */
  method Extract(buff: seq<byte>, target: seq<byte>, binary: nat, length: nat)
    returns (result: UrResult, outBinary: nat, outLength: nat)
    ensures match Found(buff, target).entry
            case None => (result, outBinary, outLength) == (InvalidProgram, binary, length)
            case Some(e) =>
              && outBinary == e.objectOffset && outLength == e.objectSize
              && (result == Success <==> outBinary + outLength <= |buff|)
    ensures result == InvalidProgram <==> Extracted(buff, target) == None
    ensures result == Success ==>
              outBinary + outLength <= |buff| && Extracted(buff, target) == Some(buff[outBinary..outBinary + outLength])
  {
    outBinary, outLength := binary, length;
    var entry, _ := ContainsBundle(buff, target);
    if entry.Some? {
      outBinary := entry.value.objectOffset;
      outLength := entry.value.objectSize;
      if outBinary + outLength <= |buff| {
        return Success, outBinary, outLength;
      }
    }
    result := InvalidProgram;
  }

  /** The bytes that an entry designates, when they lie in the buffer. */
  function Designated(buff: seq<byte>, entry: Option<Entry>): Option<seq<byte>> {
    match entry
    case None => None
    case Some(e) =>
      if e.objectOffset + e.objectSize <= |buff|
      then Some(buff[e.objectOffset..e.objectOffset + e.objectSize])
      else None
  }

  function Extracted(buff: seq<byte>, target: seq<byte>): Option<seq<byte>> {
    Designated(buff, Found(buff, target).entry)
  }

  // ---------------------------------------------------------------- a longer buffer

  lemma {:induction false} WordInLonger(buff: seq<byte>, longer: seq<byte>, at: nat)
    requires buff <= longer && at + 8 <= |buff|
    ensures Word(longer, at) == Word(buff, at)
  {
    assert longer[at..at + 8] == buff[at..at + 8];
  }

  lemma {:induction false} EntryInLonger(buff: seq<byte>, longer: seq<byte>, at: nat)
    requires buff <= longer && at + ENTRY_ID_START <= |buff|
    ensures EntryAt(longer, at) == EntryAt(buff, at)
  {
    WordInLonger(buff, longer, at);
    WordInLonger(buff, longer, at + 8);
    WordInLonger(buff, longer, at + 16);
  }

  lemma {:induction false} WalkInLonger(
      buff: seq<byte>, entryAt: nat -> Entry, longer: seq<byte>, entryAt': nat -> Entry,
      at: nat, count: nat, wanted: seq<byte> -> bool)
    requires buff <= longer && forall i: nat :: i + ENTRY_ID_START <= |buff| ==> entryAt'(i) == entryAt(i)
    requires WalkFrom(buff, entryAt, at, count, wanted).entry.Some?
    ensures WalkFrom(longer, entryAt', at, count, wanted) == WalkFrom(buff, entryAt, at, count, wanted)
    decreases count
  {
    var entry, idStart := entryAt(at), at + ENTRY_ID_START;
    var next := idStart + entry.idSize;
    var id := buff[idStart..next];
    assert longer[idStart..next] == id;
    WalkOne(buff, entryAt, at, count, wanted, entry, id);
    WalkOne(longer, entryAt', at, count, wanted, entry, id);
    if !wanted(id) {
      WalkInLonger(buff, entryAt, longer, entryAt', next, count - 1, wanted);
    }
  }

  /** What can be extracted from a buffer is extracted in the same way from every extension of it. */
  lemma {:induction false} ExtractedFromLonger(buff: seq<byte>, longer: seq<byte>, target: seq<byte>)
    requires buff <= longer && Extracted(buff, target).Some?
    ensures Found(longer, target) == Found(buff, target)
    ensures Extracted(longer, target) == Extracted(buff, target)
  {
    WordInLonger(buff, longer, COUNT_OFFSET);
    forall i: nat | i + ENTRY_ID_START <= |buff|
      ensures Headers(longer)(i) == Headers(buff)(i)
    {
      EntryInLonger(buff, longer, i);
    }
    WalkInLonger(buff, Headers(buff), longer, Headers(longer), FIRST_ENTRY, Word(buff, COUNT_OFFSET), Wanted(target));
    var e := Found(buff, target).entry.value;
    assert longer[e.objectOffset..e.objectOffset + e.objectSize] == buff[e.objectOffset..e.objectOffset + e.objectSize];
  }

  // ---------------------------------------------------------------- the layout

  datatype Object = Object(id: seq<byte>, blob: seq<byte>)

  /** From `at` on the buffer holds one entry per object, each pointing at that object's bytes. */
  ghost predicate HoldsFrom(buff: seq<byte>, entryAt: nat -> Entry, at: nat, objects: seq<Object>)
    decreases |objects|
  {
    if objects == [] then true
    else
      var o := objects[0];
      var idStart := at + ENTRY_ID_START;
      && idStart + |o.id| <= |buff|
      && var e := entryAt(at);
      && e.idSize == |o.id| && buff[idStart..idStart + |o.id|] == o.id
      && e.objectOffset + e.objectSize <= |buff|
      && buff[e.objectOffset..e.objectOffset + e.objectSize] == o.blob
      && HoldsFrom(buff, entryAt, idStart + |o.id|, objects[1..])
  }

  /** The buffer is a bundle of these objects; where the object bytes lie is left open. */
  ghost predicate IsBundleOf(buff: seq<byte>, objects: seq<Object>) {
    && Load(buff)
    && FIRST_ENTRY <= |buff|
    && Word(buff, COUNT_OFFSET) == |objects|
    && HoldsFrom(buff, Headers(buff), FIRST_ENTRY, objects)
  }

  /** The bytes of the first object whose identifier matches. */
  function FirstMatch(objects: seq<Object>, wanted: seq<byte> -> bool): Option<seq<byte>> {
    if objects == [] then None
    else if wanted(objects[0].id) then Some(objects[0].blob)
    else FirstMatch(objects[1..], wanted)
  }

  /** It is the first object that is wanted. */
  lemma {:induction false} FirstMatchMeaning(objects: seq<Object>, wanted: seq<byte> -> bool, k: nat)
    requires k <= |objects| && forall j :: 0 <= j < k ==> !wanted(objects[j].id)
    requires k < |objects| ==> wanted(objects[k].id)
    ensures FirstMatch(objects, wanted) == if k < |objects| then Some(objects[k].blob) else None
  {
    if k > 0 {
      FirstMatchMeaning(objects[1..], wanted, k - 1);
    }
  }

  /** What the first entry of a layout says, and where the rest of the layout is. */
  lemma {:induction false} LayoutFirst(buff: seq<byte>, entryAt: nat -> Entry, at: nat, objects: seq<Object>)
    requires HoldsFrom(buff, entryAt, at, objects) && objects != []
    ensures var o, idStart := objects[0], at + ENTRY_ID_START;
            && idStart + |o.id| <= |buff| && entryAt(at).idSize == |o.id|
            && buff[idStart..idStart + |o.id|] == o.id
            && Designated(buff, Some(entryAt(at))) == Some(o.blob)
            && HoldsFrom(buff, entryAt, idStart + |o.id|, objects[1..])
  {
  }

  lemma {:induction false} WalkReadsLayout(
      buff: seq<byte>, entryAt: nat -> Entry, at: nat, objects: seq<Object>, wanted: seq<byte> -> bool)
    requires HoldsFrom(buff, entryAt, at, objects)
    ensures Designated(buff, WalkFrom(buff, entryAt, at, |objects|, wanted).entry) == FirstMatch(objects, wanted)
    decreases |objects|
  {
    if objects != [] {
      LayoutFirst(buff, entryAt, at, objects);
      WalkOne(buff, entryAt, at, |objects|, wanted, entryAt(at), objects[0].id);
      if !wanted(objects[0].id) {
        WalkReadsLayout(buff, entryAt, at + ENTRY_ID_START + |objects[0].id|, objects[1..], wanted);
      }
    }
  }

  /** Reading a bundle gives exactly the first matching object, or INVALID_PROGRAM when there is none. */
  lemma {:induction false} ReadingFindsFirstMatch(buff: seq<byte>, objects: seq<Object>, target: seq<byte>)
    requires IsBundleOf(buff, objects)
    ensures Extracted(buff, target) == FirstMatch(objects, Wanted(target))
  {
    WalkReadsLayout(buff, Headers(buff), FIRST_ENTRY, objects, Wanted(target));
  }

  // ---------------------------------------------------------------- the encoder

  function HeaderSize(objects: seq<Object>): nat {
    if objects == [] then 0 else ENTRY_ID_START + |objects[0].id| + HeaderSize(objects[1..])
  }

  function Blobs(objects: seq<Object>): seq<byte> {
    if objects == [] then [] else objects[0].blob + Blobs(objects[1..])
  }

  /** The entry headers, with the objects stored back to back from `offset` on. */
  function EncodedHeaders(objects: seq<Object>, offset: nat): (bytes: seq<byte>)
    ensures |bytes| == HeaderSize(objects)
  {
    if objects == [] then []
    else
      var o := objects[0];
      Encode(offset, 8) + Encode(|o.blob|, 8) + Encode(|o.id|, 8) + o.id
      + EncodedHeaders(objects[1..], offset + |o.blob|)
  }

  function EncodeBundle(objects: seq<Object>): seq<byte> {
    MAGIC + Encode(|objects|, 8)
    + EncodedHeaders(objects, FIRST_ENTRY + HeaderSize(objects))
    + Blobs(objects)
  }

  lemma {:induction false} WordOfEncoded(buff: seq<byte>, at: nat, n: nat)
    requires n < WORD_LIMIT && at + 8 <= |buff| && buff[at..at + 8] == Encode(n, 8)
    ensures Word(buff, at) == n
  {
    Pow256At8();
    DecodeEncode(n, 8);
  }

  lemma CountFits(objects: seq<Object>)
    ensures |objects| <= HeaderSize(objects)
  {
  }

  lemma {:induction false} SliceOfSlice(buff: seq<byte>, at: nat, s: seq<byte>, i: nat, j: nat)
    requires at + |s| <= |buff| && buff[at..at + |s|] == s && i <= j <= |s|
    ensures buff[at + i..at + j] == s[i..j]
  {
    forall k | 0 <= k < j - i
      ensures buff[at + i..at + j][k] == s[i..j][k]
    {
      assert s[i + k] == buff[at + i + k];
    }
  }

  lemma FivePieces(a: seq<byte>, b: seq<byte>, c: seq<byte>, d: seq<byte>, e: seq<byte>, n: nat)
    requires |a| == |b| == |c| == n
    ensures var h := a + b + c + d + e;
            && h[0..n] == a && h[n..2 * n] == b && h[2 * n..3 * n] == c
            && h[3 * n..3 * n + |d|] == d && h[3 * n + |d|..] == e
  {
  }

  lemma FourPieces(a: seq<byte>, b: seq<byte>, c: seq<byte>, d: seq<byte>)
    ensures var h := a + b + c + d;
            && a <= h && h[|a|..|a| + |b|] == b
            && h[|a| + |b|..|a| + |b| + |c|] == c
            && h[|a| + |b| + |c|..|a| + |b| + |c| + |d|] == d
  {
  }

  lemma {:induction false} EncodedHeadersFields(objects: seq<Object>, offset: nat)
    requires objects != []
    ensures var o, h := objects[0], EncodedHeaders(objects, offset);
            && h[0..8] == Encode(offset, 8)
            && h[8..16] == Encode(|o.blob|, 8)
            && h[16..24] == Encode(|o.id|, 8)
            && h[24..24 + |o.id|] == o.id
            && h[24 + |o.id|..] == EncodedHeaders(objects[1..], offset + |o.blob|)
  {
    var o := objects[0];
    FivePieces(Encode(offset, 8), Encode(|o.blob|, 8), Encode(|o.id|, 8), o.id,
               EncodedHeaders(objects[1..], offset + |o.blob|), 8);
  }

  /** The first entry of encoded headers reads back as the first object. */
  lemma {:induction false} EncodedEntry(
      buff: seq<byte>, at: nat, idStart: nat, next: nat, offset: nat, objects: seq<Object>)
    requires |buff| < WORD_LIMIT && objects != [] && offset + |objects[0].blob| <= |buff|
    requires idStart == at + ENTRY_ID_START && next == idStart + |objects[0].id|
    requires at + HeaderSize(objects) <= |buff| && buff[at..at + HeaderSize(objects)] == EncodedHeaders(objects, offset)
    ensures EntryAt(buff, at) == Entry(offset, |objects[0].blob|, |objects[0].id|)
    ensures buff[idStart..next] == objects[0].id
    ensures next + HeaderSize(objects[1..]) <= |buff|
    ensures buff[next..next + HeaderSize(objects[1..])] == EncodedHeaders(objects[1..], offset + |objects[0].blob|)
  {
    var o, h := objects[0], EncodedHeaders(objects, offset);
    EncodedHeadersFields(objects, offset);
    SliceOfSlice(buff, at, h, 0, 8);
    SliceOfSlice(buff, at, h, 8, 16);
    SliceOfSlice(buff, at, h, 16, 24);
    EncodedHeader(buff, at, offset, |o.blob|, |o.id|);
    SliceOfSlice(buff, at, h, 24, 24 + |o.id|);
    SliceOfSlice(buff, at, h, 24 + |o.id|, |h|);
  }

  lemma {:induction false} EncodedHeader(buff: seq<byte>, at: nat, offset: nat, size: nat, idSize: nat)
    requires at + ENTRY_ID_START <= |buff| && offset < WORD_LIMIT && size < WORD_LIMIT && idSize < WORD_LIMIT
    requires buff[at + 0..at + 8] == Encode(offset, 8)
    requires buff[at + 8..at + 16] == Encode(size, 8)
    requires buff[at + 16..at + 24] == Encode(idSize, 8)
    ensures EntryAt(buff, at) == Entry(offset, size, idSize)
  {
    WordOfEncoded(buff, at, offset);
    WordOfEncoded(buff, at + 8, size);
    WordOfEncoded(buff, at + 16, idSize);
  }

  lemma {:induction false} EncodedBlob(buff: seq<byte>, offset: nat, objects: seq<Object>)
    requires objects != [] && offset + |Blobs(objects)| <= |buff|
    requires buff[offset..offset + |Blobs(objects)|] == Blobs(objects)
    ensures offset + |objects[0].blob| + |Blobs(objects[1..])| <= |buff|
    ensures buff[offset..offset + |objects[0].blob|] == objects[0].blob
    ensures buff[offset + |objects[0].blob|..offset + |objects[0].blob| + |Blobs(objects[1..])|] == Blobs(objects[1..])
  {
    var o, blobs := objects[0], Blobs(objects);
    SliceOfSlice(buff, offset, blobs, 0, |o.blob|);
    SliceOfSlice(buff, offset, blobs, |o.blob|, |blobs|);
    assert blobs[0..|o.blob|] == o.blob && blobs[|o.blob|..] == Blobs(objects[1..]);
  }

  lemma {:induction false} HoldsCons(
      buff: seq<byte>, entryAt: nat -> Entry, at: nat, idStart: nat, next: nat, objects: seq<Object>, offset: nat)
    requires objects != [] && IsReader(buff, entryAt)
    requires idStart == at + ENTRY_ID_START && next == idStart + |objects[0].id| && next <= |buff|
    requires EntryAt(buff, at) == Entry(offset, |objects[0].blob|, |objects[0].id|)
    requires buff[idStart..next] == objects[0].id
    requires offset + |objects[0].blob| <= |buff| && buff[offset..offset + |objects[0].blob|] == objects[0].blob
    requires HoldsFrom(buff, entryAt, next, objects[1..])
    ensures HoldsFrom(buff, entryAt, at, objects)
  {
  }

  lemma {:induction false} EncodedHolds(
      buff: seq<byte>, entryAt: nat -> Entry, at: nat, offset: nat, objects: seq<Object>)
    requires |buff| < WORD_LIMIT && IsReader(buff, entryAt)
    requires at + HeaderSize(objects) <= |buff| && buff[at..at + HeaderSize(objects)] == EncodedHeaders(objects, offset)
    requires offset + |Blobs(objects)| <= |buff| && buff[offset..offset + |Blobs(objects)|] == Blobs(objects)
    ensures HoldsFrom(buff, entryAt, at, objects)
    decreases |objects|
  {
    if objects != [] {
      var idStart := at + ENTRY_ID_START;
      var next := idStart + |objects[0].id|;
      EncodedBlob(buff, offset, objects);
      EncodedEntry(buff, at, idStart, next, offset, objects);
      EncodedHolds(buff, entryAt, next, offset + |objects[0].blob|, objects[1..]);
      HoldsCons(buff, entryAt, at, idStart, next, objects, offset);
    }
  }

  /** The encoder produces a bundle of its objects, as long as 64-bit offsets suffice. */
  lemma {:induction false} EncodeIsBundle(objects: seq<Object>)
    requires |EncodeBundle(objects)| < WORD_LIMIT
    ensures IsBundleOf(EncodeBundle(objects), objects)
  {
    var buff := EncodeBundle(objects);
    var offset := FIRST_ENTRY + HeaderSize(objects);
    CountFits(objects);
    FourPieces(MAGIC, Encode(|objects|, 8), EncodedHeaders(objects, offset), Blobs(objects));
    WordOfEncoded(buff, COUNT_OFFSET, |objects|);
    EncodedHolds(buff, Headers(buff), FIRST_ENTRY, offset, objects);
  }

  /** Object `k` is the first whose identifier starts with "hip" and ends with the target. */
  ghost predicate IsFirst(objects: seq<Object>, target: seq<byte>, k: nat) {
    && k < |objects|
    && IsHipFor(objects[k].id, target)
    && forall j :: 0 <= j < k ==> !IsHipFor(objects[j].id, target)
  }

  ghost predicate IsHipFor(id: seq<byte>, target: seq<byte>) {
    [104, 105, 112] <= id && exists front :: id == front + target
  }

  lemma {:induction false} FirstMatchIsFirst(objects: seq<Object>, target: seq<byte>)
    ensures FirstMatch(objects, Wanted(target)).None? <==>
              forall k :: 0 <= k < |objects| ==> !IsHipFor(objects[k].id, target)
    ensures forall blob :: FirstMatch(objects, Wanted(target)) == Some(blob) <==>
              exists k: nat :: IsFirst(objects, target, k) && objects[k].blob == blob
  {
    forall k | 0 <= k < |objects|
      ensures Wanted(target)(objects[k].id) <==> IsHipFor(objects[k].id, target)
    {
      WantedIff(target, objects[k].id);
    }
    forall k: nat | IsFirst(objects, target, k)
      ensures FirstMatch(objects, Wanted(target)) == Some(objects[k].blob)
    {
      FirstMatchMeaning(objects, Wanted(target), k);
    }
    if forall k :: 0 <= k < |objects| ==> !IsHipFor(objects[k].id, target) {
      FirstMatchMeaning(objects, Wanted(target), |objects|);
    } else {
      var k := LeastWanted(objects, Wanted(target));
      FirstMatchMeaning(objects, Wanted(target), k);
      assert IsFirst(objects, target, k);
    }
  }

  lemma {:induction false} LeastWanted(objects: seq<Object>, wanted: seq<byte> -> bool) returns (k: nat)
    requires exists i :: 0 <= i < |objects| && wanted(objects[i].id)
    ensures k < |objects| && wanted(objects[k].id) && forall j :: 0 <= j < k ==> !wanted(objects[j].id)
  {
    if wanted(objects[0].id) {
      k := 0;
    } else {
      var i :| 0 <= i < |objects| && wanted(objects[i].id);
      assert objects[1..][i - 1] == objects[i];
      k := LeastWanted(objects[1..], wanted);
      assert forall j :: 0 < j < k + 1 ==> objects[j] == objects[1..][j - 1];
      k := k + 1;
    }
  }

  /**
   Round trip: loading and extracting from an encoded list of objects gives back, byte for byte, the
   object of the least index whose identifier starts with "hip" and ends with the target, and fails
   exactly when there is no such index.
   */
  lemma {:induction false} RoundTrip(objects: seq<Object>, target: seq<byte>)
    requires |EncodeBundle(objects)| < WORD_LIMIT
    ensures Load(EncodeBundle(objects))
    ensures forall blob :: Extracted(EncodeBundle(objects), target) == Some(blob) <==>
              exists k: nat :: IsFirst(objects, target, k) && objects[k].blob == blob
    ensures Extracted(EncodeBundle(objects), target) == None <==>
              forall k :: 0 <= k < |objects| ==> !IsHipFor(objects[k].id, target)
  {
    EncodeIsBundle(objects);
    ReadingFindsFirstMatch(EncodeBundle(objects), objects, target);
    FirstMatchIsFirst(objects, target);
  }
}
