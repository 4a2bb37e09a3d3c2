/**
 The byte layout of a transaction in a sync message: hash, content with its length, an unused expiration
 field, the short ids and their flags.
 */
module TxRecords {
  import opened Basics
  import opened ByteBuffers

  const SHA256_HASH_LEN := 32
  const UL_INT_SIZE_IN_BYTES := 4
  const UL_SHORT_SIZE_IN_BYTES := 2
  const SID_LEN := UL_INT_SIZE_IN_BYTES
  const TRANSACTION_FLAG_LEN := UL_SHORT_SIZE_IN_BYTES

  // ----- Records -----

  /** `TxContentShortIds`; the content of a transaction may be unknown. */
  datatype TxRecord = TxRecord(hash: seq<byte>, content: Option<seq<byte>>, sids: seq<nat>, flags: seq<nat>)

  /** Each field fits its place in the layout, and there is a flag for every short id. */
  ghost predicate Valid(r: TxRecord) {
    && |r.hash| == SHA256_HASH_LEN
    && (r.content.Some? ==> |r.content.value| < Pow256(UL_INT_SIZE_IN_BYTES))
    && |r.sids| == |r.flags| < Pow256(UL_SHORT_SIZE_IN_BYTES)
    && (forall i :: 0 <= i < |r.sids| ==> r.sids[i] < Pow256(SID_LEN))
    && (forall i :: 0 <= i < |r.flags| ==> r.flags[i] < Pow256(TRANSACTION_FLAG_LEN))
  }

  ghost predicate AllValid(rs: seq<TxRecord>) {
    forall i :: 0 <= i < |rs| ==> Valid(rs[i])
  }

  /** The serializer writes only transactions with a content and without the null short id. */
  predicate Sendable(r: TxRecord) {
    r.content.Some? && NULL_TX_SID !in r.sids
  }

  ghost predicate AllSendable(rs: seq<TxRecord>) {
    forall i :: 0 <= i < |rs| ==> Sendable(rs[i])
  }

  predicate AllKnown(rs: seq<TxRecord>) {
    forall i :: 0 <= i < |rs| ==> rs[i].content.Some?
  }

  /** `get_serialized_tx_content_short_ids_bytes_len`. */
  function EncodedLen(r: TxRecord): nat {
    SHA256_HASH_LEN + UL_INT_SIZE_IN_BYTES + |Content(r)| + UL_INT_SIZE_IN_BYTES + UL_SHORT_SIZE_IN_BYTES
    + (SID_LEN + TRANSACTION_FLAG_LEN) * |r.sids|
  }

  function Content(r: TxRecord): seq<byte> {
    if r.content.Some? then r.content.value else []
  }

  function Head(r: TxRecord): seq<byte> {
    r.hash + (Pack(|Content(r)|, UL_INT_SIZE_IN_BYTES) + Content(r))
  }

  function Tail(r: TxRecord): seq<byte> {
    Pack(0, UL_INT_SIZE_IN_BYTES) + (Pack(|r.sids|, UL_SHORT_SIZE_IN_BYTES) +
    (PackAll(r.sids, SID_LEN) + PackAll(r.flags, TRANSACTION_FLAG_LEN)))
  }

  function Encode(r: TxRecord): seq<byte> {
    Head(r) + Tail(r)
  }

  lemma EncodeLen(r: TxRecord)
    requires Valid(r)
    ensures |Encode(r)| == EncodedLen(r)
  {
  }

  function EncodeAll(rs: seq<TxRecord>): seq<byte> {
    FlatMap(Encode, rs)
  }

  /** The hash, the content and the offset behind it. A hash cut short raises; a content cut short does not. */
  function ReadHead(buf: seq<byte>, offset: nat): Option<(seq<byte>, seq<byte>, nat)> {
    var size := ReadInt(buf, offset + SHA256_HASH_LEN, UL_INT_SIZE_IN_BYTES);
    if size.None? then None
    else
      var contentAt := offset + SHA256_HASH_LEN + UL_INT_SIZE_IN_BYTES;
      var next := contentAt + size.value;
      Some((buf[offset..offset + SHA256_HASH_LEN], Slice(buf, contentAt, next), next))
  }

  /** The short ids, their flags and the offset behind them. */
  function ReadTail(buf: seq<byte>, offset: nat): Option<(seq<nat>, seq<nat>, nat)> {
    var count := ReadInt(buf, offset + UL_INT_SIZE_IN_BYTES, UL_SHORT_SIZE_IN_BYTES);
    if count.None? then None
    else
      var sidsAt := offset + UL_INT_SIZE_IN_BYTES + UL_SHORT_SIZE_IN_BYTES;
      var flagsAt := sidsAt + count.value * SID_LEN;
      var sids := ReadInts(buf, sidsAt, SID_LEN, count.value);
      var flags := ReadInts(buf, flagsAt, TRANSACTION_FLAG_LEN, count.value);
      if sids.None? || flags.None? then None
      else Some((sids.value, flags.value, flagsAt + count.value * TRANSACTION_FLAG_LEN))
  }

  /** One record of `deserialize_txs_content_short_ids_from_buffer` and the offset behind it. */
  function ReadRecord(buf: seq<byte>, offset: nat): Option<(TxRecord, nat)> {
    var head := ReadHead(buf, offset);
    if head.None? then None
    else
      var tail := ReadTail(buf, head.value.2);
      if tail.None? then None
      else Some((TxRecord(head.value.0, Some(head.value.1), tail.value.0, tail.value.1), tail.value.2))
  }

  function ReadRecords(buf: seq<byte>, offset: nat, count: nat): Option<seq<TxRecord>> {
    ReadMany(ReadRecord, buf, offset, count)
  }

  // ----- Reading back what was written -----

  lemma ReadEncodedHead(buf: seq<byte>, offset: nat, r: TxRecord, end: nat)
    requires Valid(r) && r.content.Some? && Holds(buf, offset, Head(r)) && end == offset + |Head(r)|
    ensures ReadHead(buf, offset) == Some((r.hash, r.content.value, end))
    ensures ReadInt(buf, offset + SHA256_HASH_LEN, UL_INT_SIZE_IN_BYTES) == Some(|Content(r)|)
  {
    var size := Pack(|Content(r)|, UL_INT_SIZE_IN_BYTES);
    HoldsParts(buf, offset, r.hash, size + r.content.value);
    HoldsParts(buf, offset + SHA256_HASH_LEN, size, r.content.value);
    ReadPacked(buf, offset + SHA256_HASH_LEN, |Content(r)|, UL_INT_SIZE_IN_BYTES);
  }

  /** The short ids and the flags behind them. */
  function Lists(r: TxRecord): seq<byte> {
    PackAll(r.sids, SID_LEN) + PackAll(r.flags, TRANSACTION_FLAG_LEN)
  }

  lemma ReadEncodedLists(buf: seq<byte>, sidsAt: nat, r: TxRecord, flagsAt: nat)
    requires Valid(r) && Holds(buf, sidsAt, Lists(r)) && flagsAt == sidsAt + |r.sids| * SID_LEN
    ensures ReadInts(buf, sidsAt, SID_LEN, |r.sids|) == Some(r.sids)
    ensures ReadInts(buf, flagsAt, TRANSACTION_FLAG_LEN, |r.flags|) == Some(r.flags)
  {
    HoldsParts(buf, sidsAt, PackAll(r.sids, SID_LEN), PackAll(r.flags, TRANSACTION_FLAG_LEN));
    ReadAllPacked(buf, sidsAt, r.sids, SID_LEN);
    ReadAllPacked(buf, flagsAt, r.flags, TRANSACTION_FLAG_LEN);
  }

  lemma TailParts(r: TxRecord)
    requires Valid(r)
    ensures Tail(r) == Pack(0, UL_INT_SIZE_IN_BYTES) + (Pack(|r.sids|, UL_SHORT_SIZE_IN_BYTES) + Lists(r))
    ensures |Tail(r)| == UL_INT_SIZE_IN_BYTES + UL_SHORT_SIZE_IN_BYTES
                         + |r.sids| * SID_LEN + |r.sids| * TRANSACTION_FLAG_LEN
  {
  }

  lemma TailStands(buf: seq<byte>, offset: nat, r: TxRecord, countAt: nat, sidsAt: nat)
    requires Valid(r) && Holds(buf, offset, Tail(r))
    requires countAt == offset + UL_INT_SIZE_IN_BYTES && sidsAt == countAt + UL_SHORT_SIZE_IN_BYTES
    ensures Holds(buf, countAt, Pack(|r.sids|, UL_SHORT_SIZE_IN_BYTES)) && Holds(buf, sidsAt, Lists(r))
  {
    var count := Pack(|r.sids|, UL_SHORT_SIZE_IN_BYTES);
    TailParts(r);
    HoldsParts(buf, offset, Pack(0, UL_INT_SIZE_IN_BYTES), count + Lists(r));
    HoldsParts(buf, countAt, count, Lists(r));
  }

  lemma HeadStands(buf: seq<byte>, r: TxRecord, c: nat, tailAt: nat)
    requires Valid(r) && Holds(buf, 0, Encode(r)) && c == |Content(r)| && tailAt == 36 + c
    ensures Holds(buf, 0, r.hash) && Holds(buf, 32, Pack(c, 4)) && Holds(buf, 36, Content(r))
    ensures Holds(buf, tailAt, Tail(r))
  {
    EncodeParts(r);
    HoldsParts(buf, 0, Head(r), Tail(r));
    HoldsParts(buf, 0, r.hash, Pack(c, 4) + Content(r));
    HoldsParts(buf, 32, Pack(c, 4), Content(r));
  }

  lemma ListsStand(buf: seq<byte>, r: TxRecord, sidsAt: nat, flagsAt: nat)
    requires Valid(r) && Holds(buf, sidsAt, Lists(r)) && flagsAt == sidsAt + 4 * |r.sids|
    ensures forall i :: 0 <= i < |r.sids| ==> Holds(buf, sidsAt + 4 * i, Pack(r.sids[i], 4))
    ensures forall i :: 0 <= i < |r.flags| ==> Holds(buf, flagsAt + 2 * i, Pack(r.flags[i], 2))
  {
    HoldsParts(buf, sidsAt, PackAll(r.sids, 4), PackAll(r.flags, 2));
    forall i | 0 <= i < |r.sids| ensures Holds(buf, sidsAt + 4 * i, Pack(r.sids[i], 4)) {
      HoldsNth(buf, sidsAt, r.sids, 4, i, sidsAt + 4 * i);
    }
    forall i | 0 <= i < |r.flags| ensures Holds(buf, flagsAt + 2 * i, Pack(r.flags[i], 2)) {
      HoldsNth(buf, flagsAt, r.flags, 2, i, flagsAt + 2 * i);
    }
  }

  /**
   Where each part of an encoded record stands: hash, length of the content, content, four zero bytes, number of short
   ids, the short ids, then their flags.
   */
  lemma EncodeLayout(r: TxRecord, buf: seq<byte>, c: nat, zerosAt: nat, countAt: nat, sidsAt: nat, flagsAt: nat)
    requires Valid(r) && buf == Encode(r) && c == |Content(r)|
    requires zerosAt == 36 + c && countAt == zerosAt + 4 && sidsAt == countAt + 2 && flagsAt == sidsAt + 4 * |r.sids|
    ensures |buf| == flagsAt + 2 * |r.flags|
    ensures Holds(buf, 0, r.hash) && Holds(buf, 32, Pack(c, 4)) && Holds(buf, 36, Content(r))
    ensures Holds(buf, zerosAt, [0, 0, 0, 0]) && Holds(buf, countAt, Pack(|r.sids|, 2))
    ensures forall i :: 0 <= i < |r.sids| ==> Holds(buf, sidsAt + 4 * i, Pack(r.sids[i], 4))
    ensures forall i :: 0 <= i < |r.flags| ==> Holds(buf, flagsAt + 2 * i, Pack(r.flags[i], 2))
  {
    EncodeLen(r);
    HoldsItself(buf);
    HeadStands(buf, r, c, zerosAt);
    ZerosStand(buf, zerosAt, r);
    TailStands(buf, zerosAt, r, countAt, sidsAt);
    ListsStand(buf, r, sidsAt, flagsAt);
  }

  lemma ZerosStand(buf: seq<byte>, at: nat, r: TxRecord)
    requires Valid(r) && Holds(buf, at, Tail(r))
    ensures Holds(buf, at, [0, 0, 0, 0])
  {
    TailParts(r);
    HoldsParts(buf, at, Pack(0, 4), Pack(|r.sids|, 2) + Lists(r));
    assert Pack(0, 4) == [0, 0, 0, 0];
  }

  lemma TailFromReads(buf: seq<byte>, offset: nat, r: TxRecord, sidsAt: nat, flagsAt: nat, end: nat)
    requires ReadInt(buf, offset + UL_INT_SIZE_IN_BYTES, UL_SHORT_SIZE_IN_BYTES) == Some(|r.sids|)
    requires ReadInts(buf, sidsAt, SID_LEN, |r.sids|) == Some(r.sids)
    requires ReadInts(buf, flagsAt, TRANSACTION_FLAG_LEN, |r.sids|) == Some(r.flags)
    requires sidsAt == offset + UL_INT_SIZE_IN_BYTES + UL_SHORT_SIZE_IN_BYTES
    requires flagsAt == sidsAt + |r.sids| * SID_LEN && end == flagsAt + |r.sids| * TRANSACTION_FLAG_LEN
    ensures ReadTail(buf, offset) == Some((r.sids, r.flags, end))
  {
  }

  lemma ReadEncodedTail(buf: seq<byte>, offset: nat, r: TxRecord, end: nat)
    requires Valid(r) && Holds(buf, offset, Tail(r)) && end == offset + |Tail(r)|
    ensures ReadTail(buf, offset) == Some((r.sids, r.flags, end))
    ensures ReadInt(buf, offset + UL_INT_SIZE_IN_BYTES, UL_SHORT_SIZE_IN_BYTES) == Some(|r.sids|)
  {
    var countAt := offset + UL_INT_SIZE_IN_BYTES;
    var sidsAt := countAt + UL_SHORT_SIZE_IN_BYTES;
    var flagsAt := sidsAt + |r.sids| * SID_LEN;
    TailStands(buf, offset, r, countAt, sidsAt);
    ReadPacked(buf, countAt, |r.sids|, UL_SHORT_SIZE_IN_BYTES);
    ReadEncodedLists(buf, sidsAt, r, flagsAt);
    TailParts(r);
    TailFromReads(buf, offset, r, sidsAt, flagsAt, end);
  }

  lemma ReadBothParts(buf: seq<byte>, offset: nat, r: TxRecord, mid: nat, end: nat)
    requires r.content.Some? && ReadHead(buf, offset) == Some((r.hash, r.content.value, mid))
    requires ReadTail(buf, mid) == Some((r.sids, r.flags, end))
    ensures ReadRecord(buf, offset) == Some((r, end))
  {
  }

  lemma EncodeParts(r: TxRecord)
    ensures Encode(r) == Head(r) + Tail(r) && |Encode(r)| == |Head(r)| + |Tail(r)|
  {
  }

  lemma ReadHeadAndTail(buf: seq<byte>, offset: nat, r: TxRecord, mid: nat, end: nat)
    requires Valid(r) && r.content.Some? && Holds(buf, offset, Head(r)) && Holds(buf, mid, Tail(r))
    requires mid == offset + |Head(r)| && end == mid + |Tail(r)|
    ensures ReadRecord(buf, offset) == Some((r, end))
  {
    ReadEncodedHead(buf, offset, r, mid);
    ReadEncodedTail(buf, mid, r, end);
    ReadBothParts(buf, offset, r, mid, end);
  }

  lemma ReadEncoded(buf: seq<byte>, offset: nat, r: TxRecord, end: nat)
    requires Valid(r) && r.content.Some? && Holds(buf, offset, Encode(r)) && end == offset + |Encode(r)|
    ensures ReadRecord(buf, offset) == Some((r, end))
  {
    EncodeParts(r);
    HoldsParts(buf, offset, Head(r), Tail(r));
    ReadHeadAndTail(buf, offset, r, offset + |Head(r)|, end);
  }

  // ----- Several records -----

  lemma NthStands(buf: seq<byte>, offset: nat, rs: seq<TxRecord>, i: nat)
    requires Holds(buf, offset, FlatMap(Encode, rs)) && i < |rs|
    ensures Holds(buf, StartOf(Encode, rs, offset, i), Encode(rs[i]))
    ensures StartOf(Encode, rs, offset, i + 1) == StartOf(Encode, rs, offset, i) + |Encode(rs[i])|
  {
    StartOfNext(Encode, buf, offset, rs, i);
  }

  lemma ReadNth(buf: seq<byte>, offset: nat, rs: seq<TxRecord>, i: nat)
    requires AllValid(rs) && AllKnown(rs) && Holds(buf, offset, FlatMap(Encode, rs)) && i < |rs|
    ensures ReadRecord(buf, StartOf(Encode, rs, offset, i)) == Some((rs[i], StartOf(Encode, rs, offset, i + 1)))
  {
    NthStands(buf, offset, rs, i);
    ReadEncoded(buf, StartOf(Encode, rs, offset, i), rs[i], StartOf(Encode, rs, offset, i + 1));
  }

  lemma EachIsRead(buf: seq<byte>, offset: nat, rs: seq<TxRecord>)
    requires AllValid(rs) && AllKnown(rs) && Holds(buf, offset, FlatMap(Encode, rs))
    ensures ReadsEach(ReadRecord, Encode, buf, offset, rs)
  {
    forall i {:trigger rs[i]} | 0 <= i < |rs|
      ensures ReadRecord(buf, StartOf(Encode, rs, offset, i)) == Some((rs[i], StartOf(Encode, rs, offset, i + 1)))
    {
      ReadNth(buf, offset, rs, i);
    }
  }

  lemma EncodeAllIs(rs: seq<TxRecord>)
    ensures EncodeAll(rs) == FlatMap(Encode, rs)
  {
  }

  lemma ReadRecordsIs(buf: seq<byte>, offset: nat, count: nat)
    ensures ReadRecords(buf, offset, count) == ReadMany(ReadRecord, buf, offset, count)
  {
  }

  /** Records written one after the other, anywhere in a buffer, are all read back. */
  lemma ReadAllEncoded(buf: seq<byte>, offset: nat, rs: seq<TxRecord>, count: nat)
    requires AllValid(rs) && AllKnown(rs) && Holds(buf, offset, EncodeAll(rs)) && count == |rs|
    ensures ReadRecords(buf, offset, count) == Some(rs)
  {
    EncodeAllIs(rs);
    EachIsRead(buf, offset, rs);
    AllRead(ReadRecord, Encode, buf, offset, rs, count);
    ReadRecordsIs(buf, offset, count);
  }

  lemma HoldsItself(b: seq<byte>)
    ensures Holds(b, 0, b)
  {
  }

  /** Writing records one after the other and reading them back gives the records. */
  lemma RecordsRoundTrip(rs: seq<TxRecord>)
    requires AllValid(rs) && AllKnown(rs)
    ensures ReadRecords(EncodeAll(rs), 0, |rs|) == Some(rs)
  {
    HoldsItself(EncodeAll(rs));
    ReadAllEncoded(EncodeAll(rs), 0, rs, |rs|);
  }

  // ----- A message of transactions, some of them skipped -----

  function Zeros(n: nat): (z: seq<byte>)
    ensures |z| == n && forall i :: 0 <= i < n ==> z[i] == 0
  {
    seq(n, _ => 0)
  }

  function SendableOnly(items: seq<TxRecord>): (r: seq<TxRecord>)
    ensures |r| <= |items| && AllKnown(r) && AllSendable(r)
    ensures AllValid(items) ==> AllValid(r)
  {
    if items == [] then []
    else
      var rest := SendableOnly(items[1..]);
      if Sendable(items[0]) then [items[0]] + rest else rest
  }

  function TotalEncodedLen(items: seq<TxRecord>): nat {
    if items == [] then 0 else EncodedLen(items[0]) + TotalEncodedLen(items[1..])
  }

  /**
   `serialize_txs_content_short_ids_into_bytes`: a zeroed buffer with room for every item, into which only the
   sendable ones are written, one behind the other.
   */
  function Serialize(items: seq<TxRecord>): seq<byte>
    requires AllValid(items)
  {
    var written := EncodeAll(SendableOnly(items));
    RoomForPhantoms(items);
    written + Zeros(TotalEncodedLen(items) - |written|)
  }

  /** What the reader makes of 42 zero bytes. */
  const PHANTOM := TxRecord(Zeros(SHA256_HASH_LEN), Some([]), [], [])
  const PHANTOM_LEN: nat := 42

  function Phantoms(n: nat): (r: seq<TxRecord>)
    ensures |r| == n && AllKnown(r) && AllSendable(r) && AllValid(r)
    ensures forall i :: 0 <= i < n ==> r[i] == PHANTOM
  {
    seq(n, _ => PHANTOM)
  }

  lemma {:induction false} RoomForPhantoms(items: seq<TxRecord>)
    requires AllValid(items)
    ensures |EncodeAll(SendableOnly(items))| + PHANTOM_LEN * (|items| - |SendableOnly(items)|) <= TotalEncodedLen(items)
  {
    if items != [] {
      RoomForPhantoms(items[1..]);
      var rest := SendableOnly(items[1..]);
      if Sendable(items[0]) {
        EncodeLen(items[0]);
        assert ([items[0]] + rest)[1..] == rest;
      }
    }
  }

  lemma {:induction false} PackZero(width: nat)
    ensures Pack(0, width) == Zeros(width)
  {
    if width > 0 {
      PackZero(width - 1);
    }
  }

  lemma PhantomBytes()
    ensures Encode(PHANTOM) == Zeros(PHANTOM_LEN)
  {
    PackZero(UL_INT_SIZE_IN_BYTES);
    PackZero(UL_SHORT_SIZE_IN_BYTES);
    assert Head(PHANTOM) == Zeros(SHA256_HASH_LEN + UL_INT_SIZE_IN_BYTES);
    assert Tail(PHANTOM) == Zeros(UL_INT_SIZE_IN_BYTES + UL_SHORT_SIZE_IN_BYTES);
  }

  lemma {:induction false} PhantomsBytes(n: nat)
    ensures EncodeAll(Phantoms(n)) == Zeros(PHANTOM_LEN * n)
  {
    if n > 0 {
      PhantomBytes();
      PhantomsBytes(n - 1);
      assert Phantoms(n)[1..] == Phantoms(n - 1);
      assert Zeros(PHANTOM_LEN) + Zeros(PHANTOM_LEN * (n - 1)) == Zeros(PHANTOM_LEN * n);
    }
  }

  function Received(items: seq<TxRecord>): (r: seq<TxRecord>)
    requires AllValid(items)
    ensures |r| == |items| && AllValid(r) && AllKnown(r) && AllSendable(r)
  {
    SendableOnly(items) + Phantoms(|items| - |SendableOnly(items)|)
  }

  lemma ReceivedBytes(items: seq<TxRecord>, written: seq<byte>, zeros: nat)
    requires AllValid(items) && written == EncodeAll(SendableOnly(items))
    requires zeros == PHANTOM_LEN * (|items| - |SendableOnly(items)|)
    ensures EncodeAll(Received(items)) == written + Zeros(zeros)
  {
    var sent := SendableOnly(items);
    PhantomsBytes(|items| - |sent|);
    FlatMapConcat(Encode, sent, Phantoms(|items| - |sent|));
  }

  lemma PaddedHolds(written: seq<byte>, room: nat, zeros: nat)
    requires zeros <= room
    ensures Holds(written + Zeros(room), 0, written + Zeros(zeros))
  {
    assert (written + Zeros(room))[0..|written| + zeros] == written + Zeros(zeros);
  }

  lemma SerializeHoldsReceived(items: seq<TxRecord>)
    requires AllValid(items)
    ensures Holds(Serialize(items), 0, EncodeAll(Received(items)))
  {
    var written := EncodeAll(SendableOnly(items));
    var zeros := PHANTOM_LEN * (|items| - |SendableOnly(items)|);
    RoomForPhantoms(items);
    ReceivedBytes(items, written, zeros);
    PaddedHolds(written, TotalEncodedLen(items) - |written|, zeros);
  }

  /** The receiver, told the number of all items, reads the sent ones and a phantom for each skipped one. */
  lemma SkippedItemsBecomePhantoms(items: seq<TxRecord>)
    requires AllValid(items)
    ensures ReadRecords(Serialize(items), 0, |items|) == Some(Received(items))
  {
    SerializeHoldsReceived(items);
    ReadAllEncoded(Serialize(items), 0, Received(items), |items|);
  }

  lemma {:induction false} AllSent(items: seq<TxRecord>)
    requires AllSendable(items)
    ensures SendableOnly(items) == items
  {
    if items != [] {
      AllSent(items[1..]);
    }
  }

  /** A message is received as it was sent if and only if no item was skipped. */
  lemma MessageRoundTripIff(items: seq<TxRecord>)
    requires AllValid(items)
    ensures ReadRecords(Serialize(items), 0, |items|) == Some(items)
       <==> forall i :: 0 <= i < |items| ==> items[i].content.Some? && NULL_TX_SID !in items[i].sids
  {
    SkippedItemsBecomePhantoms(items);
    ReceivedIff(items);
  }

  lemma ReceivedIff(items: seq<TxRecord>)
    requires AllValid(items)
    ensures Received(items) == items <==> AllSendable(items)
  {
    var received := Received(items);
    if AllSendable(items) {
      AllSent(items);
      assert received == items;
    } else {
      var i :| 0 <= i < |items| && !Sendable(items[i]);
      assert AllSendable(received);
      assert received[i] != items[i];
    }
  }
}
