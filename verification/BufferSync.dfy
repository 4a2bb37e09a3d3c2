/**
 Sending a serialized mempool in messages: each alarm-driven step cuts the next slice of the buffer at a
 record boundary, for as long as the clock and the size limit allow.
 */
module BufferSync {
  import opened Basics
  import opened ByteBuffers
  import opened TxRecords

  const GATEWAY_SYNC_MAX_MESSAGE_SIZE_BYTES := 500 * 1024
  const SENDING_TX_MSGS_TIMEOUT_S := 15 * 60

  /** The part of a sync message that carries transactions. */
  datatype Message = Message(slice: seq<byte>, count: nat)

  datatype Built = Built(message: Message, end: nat, done: bool)

  // ----- One message -----

  /** The offset behind the record at `pos`, found without reading its short ids. */
  function SkipRecord(buf: seq<byte>, pos: nat): Option<nat> {
    var size := ReadInt(buf, pos + SHA256_HASH_LEN, UL_INT_SIZE_IN_BYTES);
    if size.None? then None
    else
      var countAt := pos + SHA256_HASH_LEN + UL_INT_SIZE_IN_BYTES + UL_INT_SIZE_IN_BYTES + size.value;
      var count := ReadInt(buf, countAt, UL_SHORT_SIZE_IN_BYTES);
      if count.None? then None
      else Some(countAt + UL_SHORT_SIZE_IN_BYTES + (SID_LEN + TRANSACTION_FLAG_LEN) * count.value)
  }

  function Skipper(buf: seq<byte>): nat -> Option<nat> {
    (pos: nat) => SkipRecord(buf, pos)
  }

  datatype Scan = Scan(pos: nat, count: nat, done: bool)

  /**
   The message-building loop from a given state. `checks` is the number of times the clock is still found
   before the deadline; what it shows after that does not matter, because the loop has ended.
   */
  function ScanItems(skip: nat -> Option<nat>, end: nat, start: nat, s: Scan, checks: nat): Option<Scan>
    decreases checks
  {
    if s.done || checks == 0 || s.pos - start > GATEWAY_SYNC_MAX_MESSAGE_SIZE_BYTES then Some(s)
    else
      var next := skip(s.pos);
      if next.None? then None
      else ScanItems(skip, end, start, Scan(next.value, s.count + 1, next.value >= end), checks - 1)
  }

  function ScanRecords(buf: seq<byte>, start: nat, s: Scan, checks: nat): Option<Scan> {
    ScanItems(Skipper(buf), |buf|, start, s, checks)
  }

  predicate SendsWhole(buf: seq<byte>, offset: nat) {
    offset == 0 && |buf| <= GATEWAY_SYNC_MAX_MESSAGE_SIZE_BYTES
  }

  function FirstRecord(offset: nat): nat {
    if offset == 0 then UL_INT_SIZE_IN_BYTES else offset
  }

  /** `create_txs_service_msg_from_buffer`; None where reading past the end of the buffer raises. */
  function BuildMessage(buf: seq<byte>, offset: nat, checks: nat): Option<Built> {
    if SendsWhole(buf, offset) then
      var count := ReadInt(buf, 0, UL_INT_SIZE_IN_BYTES);
      if count.None? then None else Some(Built(Message(buf[UL_INT_SIZE_IN_BYTES..], count.value), |buf|, true))
    else
      var start := FirstRecord(offset);
      var scan := ScanRecords(buf, start, Scan(start, 0, false), checks);
      if scan.None? then None
      else Some(Built(Message(Slice(buf, start, scan.value.pos), scan.value.count), scan.value.pos, scan.value.done))
  }

  method CreateTxsServiceMsgFromBuffer(buf: seq<byte>, startOffset: nat, checks: nat) returns (r: Option<Built>)
    ensures r == BuildMessage(buf, startOffset, checks)
  {
    if startOffset == 0 && |buf| <= GATEWAY_SYNC_MAX_MESSAGE_SIZE_BYTES {
      var count := ReadInt(buf, 0, UL_INT_SIZE_IN_BYTES);
      if count.None? {
        return None;
      }
      return Some(Built(Message(buf[UL_INT_SIZE_IN_BYTES..], count.value), |buf|, true));
    }
    var start := if startOffset == 0 then UL_INT_SIZE_IN_BYTES else startOffset;
    var currentPos: nat, txCount: nat, complete := start, 0, false;
    var left := checks;
    while !complete && left > 0 && currentPos - start <= GATEWAY_SYNC_MAX_MESSAGE_SIZE_BYTES
      invariant ScanRecords(buf, start, Scan(currentPos, txCount, complete), left)
                == ScanRecords(buf, start, Scan(start, 0, false), checks)
      decreases left
    {
      var next := SkipRecord(buf, currentPos);
      if next.None? {
        return None;
      }
      currentPos, txCount := next.value, txCount + 1;
      complete := currentPos >= |buf|;
      left := left - 1;
    }
    r := Some(Built(Message(Slice(buf, start, currentPos), txCount), currentPos, complete));
  }

  // ----- A well-formed buffer -----

  ghost predicate WellFormed(buf: seq<byte>, rs: seq<TxRecord>) {
    && AllValid(rs) && AllKnown(rs) && |rs| < Pow256(UL_INT_SIZE_IN_BYTES)
    && buf == Pack(|rs|, UL_INT_SIZE_IN_BYTES) + EncodeAll(rs)
  }

  /** Where the i-th record of the buffer starts. */
  function Boundary(rs: seq<TxRecord>, i: nat): nat
    requires i <= |rs|
  {
    StartOf(Encode, rs, UL_INT_SIZE_IN_BYTES, i)
  }

  lemma WellFormedHolds(buf: seq<byte>, rs: seq<TxRecord>)
    requires WellFormed(buf, rs)
    ensures Holds(buf, UL_INT_SIZE_IN_BYTES, EncodeAll(rs)) && ReadInt(buf, 0, UL_INT_SIZE_IN_BYTES) == Some(|rs|)
    ensures Boundary(rs, |rs|) == |buf|
  {
    assert Holds(buf, 0, Pack(|rs|, UL_INT_SIZE_IN_BYTES));
    ReadPacked(buf, 0, |rs|, UL_INT_SIZE_IN_BYTES);
    assert rs[..|rs|] == rs;
  }

  lemma SkipCounts(buf: seq<byte>, pos: nat, size: nat, countAt: nat, count: nat, end: nat)
    requires ReadInt(buf, pos + SHA256_HASH_LEN, UL_INT_SIZE_IN_BYTES) == Some(size)
    requires ReadInt(buf, countAt, UL_SHORT_SIZE_IN_BYTES) == Some(count)
    requires countAt == pos + SHA256_HASH_LEN + UL_INT_SIZE_IN_BYTES + UL_INT_SIZE_IN_BYTES + size
    requires end == countAt + UL_SHORT_SIZE_IN_BYTES + (SID_LEN + TRANSACTION_FLAG_LEN) * count
    ensures SkipRecord(buf, pos) == Some(end)
  {
  }

  lemma CountsStand(buf: seq<byte>, pos: nat, r: TxRecord, mid: nat)
    requires Valid(r) && r.content.Some? && Holds(buf, pos, Encode(r)) && mid == pos + |Head(r)|
    ensures ReadInt(buf, pos + SHA256_HASH_LEN, UL_INT_SIZE_IN_BYTES) == Some(|Content(r)|)
    ensures ReadInt(buf, mid + UL_INT_SIZE_IN_BYTES, UL_SHORT_SIZE_IN_BYTES) == Some(|r.sids|)
  {
    EncodeParts(r);
    HoldsParts(buf, pos, Head(r), Tail(r));
    ReadEncodedHead(buf, pos, r, mid);
    ReadEncodedTail(buf, mid, r, mid + |Tail(r)|);
  }

  lemma Positions(r: TxRecord, pos: nat, mid: nat, countAt: nat, end: nat)
    requires Valid(r) && mid == pos + |Head(r)| && countAt == mid + UL_INT_SIZE_IN_BYTES && end == pos + |Encode(r)|
    ensures countAt == pos + SHA256_HASH_LEN + UL_INT_SIZE_IN_BYTES + UL_INT_SIZE_IN_BYTES + |Content(r)|
    ensures end == countAt + UL_SHORT_SIZE_IN_BYTES + (SID_LEN + TRANSACTION_FLAG_LEN) * |r.sids|
  {
    EncodeLen(r);
  }

  /** Skipping a record, which does not read its short ids, ends where the record does. */
  lemma SkipEncoded(buf: seq<byte>, pos: nat, r: TxRecord, end: nat)
    requires Valid(r) && r.content.Some? && Holds(buf, pos, Encode(r)) && end == pos + |Encode(r)|
    ensures SkipRecord(buf, pos) == Some(end)
  {
    var mid := pos + |Head(r)|;
    CountsStand(buf, pos, r, mid);
    SkipFromCounts(buf, pos, r, mid, end);
  }

  lemma SkipFromCounts(buf: seq<byte>, pos: nat, r: TxRecord, mid: nat, end: nat)
    requires Valid(r) && mid == pos + |Head(r)| && end == pos + |Encode(r)|
    requires ReadInt(buf, pos + SHA256_HASH_LEN, UL_INT_SIZE_IN_BYTES) == Some(|Content(r)|)
    requires ReadInt(buf, mid + UL_INT_SIZE_IN_BYTES, UL_SHORT_SIZE_IN_BYTES) == Some(|r.sids|)
    ensures SkipRecord(buf, pos) == Some(end)
  {
    Positions(r, pos, mid, mid + UL_INT_SIZE_IN_BYTES, end);
    SkipCounts(buf, pos, |Content(r)|, mid + UL_INT_SIZE_IN_BYTES, |r.sids|, end);
  }

  lemma BoundaryNext(buf: seq<byte>, rs: seq<TxRecord>, i: nat)
    requires WellFormed(buf, rs) && i < |rs|
    ensures SkipRecord(buf, Boundary(rs, i)) == Some(Boundary(rs, i + 1))
    ensures Boundary(rs, i) < Boundary(rs, i + 1)
  {
    WellFormedHolds(buf, rs);
    NthStands(buf, UL_INT_SIZE_IN_BYTES, rs, i);
    SkipEncoded(buf, Boundary(rs, i), rs[i], Boundary(rs, i + 1));
    EncodeLen(rs[i]);
  }

  lemma {:induction false} BoundaryMonotone(buf: seq<byte>, rs: seq<TxRecord>, i: nat, j: nat)
    requires WellFormed(buf, rs) && i <= j <= |rs|
    ensures Boundary(rs, i) + (j - i) <= Boundary(rs, j)
    decreases j - i
  {
    if i < j {
      BoundaryNext(buf, rs, i);
      BoundaryMonotone(buf, rs, i + 1, j);
    }
  }

  /** `at` lists the starts of items that `skip` steps over, and the end of the last one. */
  ghost predicate Steps(skip: nat -> Option<nat>, at: seq<nat>) {
    && |at| > 0
    && (forall i :: 0 <= i < |at| - 1 ==> skip(at[i]) == Some(at[i + 1]))
    && (forall i, j :: 0 <= i < j < |at| ==> at[i] < at[j])
  }

  /** The loop stops at an item boundary, late enough to have used its time and early enough for the size limit. */
  lemma {:induction false} ScanStops(
      skip: nat -> Option<nat>, at: seq<nat>, end: nat, i: nat, k: nat, s: Scan, checks: nat) returns (r: Scan, j: nat)
    requires Steps(skip, at) && end == at[|at| - 1] && i <= k < |at| - 1
    requires s.count == k - i && s.pos == at[k] && !s.done
    requires k > i ==> at[k - 1] - at[i] <= GATEWAY_SYNC_MAX_MESSAGE_SIZE_BYTES
    ensures ScanItems(skip, end, at[i], s, checks) == Some(r)
    ensures k <= j < |at| && r.count == j - i && r.pos == at[j] && (r.done <==> j == |at| - 1)
    ensures j > i ==> at[j - 1] - at[i] <= GATEWAY_SYNC_MAX_MESSAGE_SIZE_BYTES
    ensures !r.done ==> j - k == checks || at[j] - at[i] > GATEWAY_SYNC_MAX_MESSAGE_SIZE_BYTES
    decreases checks
  {
    r, j := s, k;
    if checks > 0 && s.pos - at[i] <= GATEWAY_SYNC_MAX_MESSAGE_SIZE_BYTES {
      assert skip(at[k]) == Some(at[k + 1]);
      r, j := Scan(at[k + 1], s.count + 1, at[k + 1] >= end), k + 1;
      if k + 1 < |at| - 1 {
        r, j := ScanStops(skip, at, end, i, k + 1, r, checks - 1);
      }
    }
  }

  function Boundaries(rs: seq<TxRecord>): (at: seq<nat>)
    ensures |at| == |rs| + 1 && forall i :: 0 <= i <= |rs| ==> at[i] == Boundary(rs, i)
  {
    seq(|rs| + 1, i requires 0 <= i <= |rs| => Boundary(rs, i))
  }

  lemma BoundariesStep(buf: seq<byte>, rs: seq<TxRecord>)
    requires WellFormed(buf, rs)
    ensures Steps(Skipper(buf), Boundaries(rs))
  {
    var at := Boundaries(rs);
    forall i | 0 <= i < |rs| ensures SkipRecord(buf, at[i]) == Some(at[i + 1]) {
      BoundaryNext(buf, rs, i);
    }
    forall i, j | 0 <= i < j < |at| ensures at[i] < at[j] {
      BoundaryMonotone(buf, rs, i, j);
    }
  }

  lemma BoundarySlice(buf: seq<byte>, rs: seq<TxRecord>, i: nat, j: nat)
    requires WellFormed(buf, rs) && i <= j <= |rs|
    ensures Boundary(rs, i) <= Boundary(rs, j) <= |buf|
    ensures Slice(buf, Boundary(rs, i), Boundary(rs, j)) == EncodeAll(rs[i..j])
  {
    WellFormedHolds(buf, rs);
    SliceOfItems(Encode, buf, UL_INT_SIZE_IN_BYTES, rs, i, j);
  }

  // ----- What a message carries -----

  /** A message cut at record boundaries, with the right count, that exceeds the size limit by one record at most. */
  ghost predicate Cut(rs: seq<TxRecord>, m: Message, i: nat, j: nat) {
    && i <= j <= |rs|
    && m.slice == EncodeAll(rs[i..j]) && m.count == j - i
    && (i < j ==> |EncodeAll(rs[i..j - 1])| <= GATEWAY_SYNC_MAX_MESSAGE_SIZE_BYTES)
  }

  lemma CutSize(rs: seq<TxRecord>, i: nat, j: nat)
    requires i <= j <= |rs|
    ensures |EncodeAll(rs[i..j])| == Boundary(rs, j) - Boundary(rs, i)
  {
    assert rs[..j] == rs[..i] + rs[i..j];
    FlatMapConcat(Encode, rs[..i], rs[i..j]);
  }

  /** The offset a job has reached: the start of the i-th record, or 0 before the first message. */
  ghost predicate At(rs: seq<TxRecord>, offset: nat, i: nat) {
    i <= |rs| && (offset == Boundary(rs, i) || offset == i == 0)
  }

  lemma FirstRecordStands(rs: seq<TxRecord>, offset: nat, i: nat)
    requires At(rs, offset, i)
    ensures FirstRecord(offset) == Boundary(rs, i)
  {
    assert Boundary(rs, 0) == UL_INT_SIZE_IN_BYTES;
  }

  lemma BuildsWhole(buf: seq<byte>, rs: seq<TxRecord>, checks: nat)
    requires WellFormed(buf, rs) && |buf| <= 500 * 1024
    ensures BuildMessage(buf, 0, checks) == Some(Built(Message(EncodeAll(rs), |rs|), |buf|, true))
    ensures Cut(rs, Message(EncodeAll(rs), |rs|), 0, |rs|)
  {
    WellFormedHolds(buf, rs);
    assert rs[0..|rs|] == rs;
    if rs != [] {
      BoundaryMonotone(buf, rs, |rs| - 1, |rs|);
      CutSize(rs, 0, |rs| - 1);
    }
  }

  /** The loop from the i-th item on. */
  lemma ScanFrom(skip: nat -> Option<nat>, at: seq<nat>, end: nat, i: nat, start: nat, checks: nat)
      returns (r: Scan, j: nat)
    requires Steps(skip, at) && i < |at| - 1 && end == at[|at| - 1] && start == at[i]
    ensures ScanItems(skip, end, start, Scan(start, 0, false), checks) == Some(r)
    ensures i <= j < |at| && r.count == j - i && r.pos == at[j] && (r.done <==> j == |at| - 1)
    ensures j > i ==> at[j - 1] - start <= GATEWAY_SYNC_MAX_MESSAGE_SIZE_BYTES
    ensures checks > 0 ==> i < j
  {
    r, j := ScanStops(skip, at, end, i, i, Scan(start, 0, false), checks);
  }

  lemma ScanPart(buf: seq<byte>, rs: seq<TxRecord>, i: nat, start: nat, checks: nat) returns (r: Scan, j: nat)
    requires WellFormed(buf, rs) && i < |rs| && start == Boundary(rs, i)
    ensures ScanRecords(buf, start, Scan(start, 0, false), checks) == Some(r)
    ensures i <= j <= |rs| && r.count == j - i && r.pos == Boundary(rs, j) && (r.done <==> j == |rs|)
    ensures i < j ==> Boundary(rs, j - 1) - start <= GATEWAY_SYNC_MAX_MESSAGE_SIZE_BYTES
    ensures checks > 0 ==> i < j
  {
    var at := Boundaries(rs);
    WellFormedHolds(buf, rs);
    BoundariesStep(buf, rs);
    r, j := ScanFrom(Skipper(buf), at, |buf|, i, start, checks);
    assert at[j] == Boundary(rs, j);
    assert i < j ==> at[j - 1] == Boundary(rs, j - 1);
  }

  lemma PartIsCut(rs: seq<TxRecord>, m: Message, i: nat, j: nat)
    requires i <= j <= |rs|
    requires m.slice == EncodeAll(rs[i..j]) && m.count == j - i
    requires i < j ==> Boundary(rs, j - 1) - Boundary(rs, i) <= GATEWAY_SYNC_MAX_MESSAGE_SIZE_BYTES
    ensures Cut(rs, m, i, j)
  {
    if i < j {
      CutSize(rs, i, j - 1);
    }
  }

  lemma BuildsFromScan(buf: seq<byte>, offset: nat, start: nat, checks: nat, scan: Scan)
    requires !SendsWhole(buf, offset) && start == FirstRecord(offset)
    requires ScanRecords(buf, start, Scan(start, 0, false), checks) == Some(scan)
    ensures BuildMessage(buf, offset, checks)
         == Some(Built(Message(Slice(buf, start, scan.pos), scan.count), scan.pos, scan.done))
  {
  }

  lemma BuildsPart(buf: seq<byte>, rs: seq<TxRecord>, offset: nat, i: nat, checks: nat) returns (b: Built, j: nat)
    requires WellFormed(buf, rs) && At(rs, offset, i) && i < |rs| && !SendsWhole(buf, offset)
    ensures BuildMessage(buf, offset, checks) == Some(b)
    ensures i <= j && Cut(rs, b.message, i, j) && b.end == Boundary(rs, j) && (b.done <==> j == |rs|)
    ensures checks > 0 ==> i < j
  {
    var start := Boundary(rs, i);
    FirstRecordStands(rs, offset, i);
    var scan;
    scan, j := ScanPart(buf, rs, i, start, checks);
    BuildsFromScan(buf, offset, start, checks, scan);
    b := Built(Message(Slice(buf, start, scan.pos), scan.count), scan.pos, scan.done);
    BoundarySlice(buf, rs, i, j);
    PartIsCut(rs, b.message, i, j);
  }

  /** From record i on, the message built is a cut up to some record j, and it is done just when j is the last. */
  lemma BuildsCut(buf: seq<byte>, rs: seq<TxRecord>, offset: nat, i: nat, checks: nat) returns (b: Built, j: nat)
    requires WellFormed(buf, rs) && At(rs, offset, i)
    requires i < |rs| || SendsWhole(buf, offset)
    ensures BuildMessage(buf, offset, checks) == Some(b)
    ensures i <= j && Cut(rs, b.message, i, j) && b.end == Boundary(rs, j) && (b.done <==> j == |rs|)
    ensures checks > 0 ==> b.done || i < j
  {
    if SendsWhole(buf, offset) {
      assert Boundary(rs, i) > 0;
      BuildsWhole(buf, rs, checks);
      WellFormedHolds(buf, rs);
      j := |rs|;
      b := Built(Message(EncodeAll(rs), |rs|), |buf|, true);
    } else {
      b, j := BuildsPart(buf, rs, offset, i, checks);
    }
  }

  // ----- The steps -----

  datatype Event = Txs(message: Message) | Complete

  /** The arguments with which a step re-registers itself. */
  datatype Job = Job(offset: nat, started: int, msgs: nat, total: nat)

  /** How a sync stands: an alarm is pending only while it is running. */
  datatype Status = Running(job: Job) | Disposed | Inactive | TimedOut | Finished | Crashed

  /** What a step finds: the connection, two readings of the clock, the ping latency and its time for building. */
  datatype World = World(connected: bool, active: bool, now: int, later: int, ping: Option<int>, checks: nat)

  function StartTime(job: Job, w: World): int {
    if job.started == 0 then w.now else job.started
  }

  predicate InTime(job: Job, w: World) {
    w.later - StartTime(job, w) < SENDING_TX_MSGS_TIMEOUT_S
  }

  /** The step gets as far as building a message. */
  predicate Builds(job: Job, w: World) {
    w.connected && w.active && InTime(job, w) && w.ping.Some?
  }

  datatype Outcome = Outcome(events: seq<Event>, status: Status)

  /** One call of `send_tx_service_sync_txs_from_buffer`. */
  function Step(buf: seq<byte>, job: Job, w: World): Outcome {
    if !w.connected then Outcome([], Disposed)
    else if !w.active then Outcome([Complete], Inactive)
    else if !InTime(job, w) then Outcome([Complete], TimedOut)
    else if w.ping.None? then Outcome([], Running(job.(started := StartTime(job, w))))
    else
      var built := BuildMessage(buf, job.offset, w.checks);
      if built.None? then Outcome([], Crashed)
      else
        var b := built.value;
        if b.done then Outcome([Txs(b.message), Complete], Finished)
        else
          var next := Job(b.end, StartTime(job, w), job.msgs + 1, job.total + b.message.count);
          Outcome([Txs(b.message)], Running(next))
  }

  datatype Sync = Sync(outbox: seq<Event>, status: Status)

  const FIRST_JOB := Job(0, 0, 0, 0)

  function Run(buf: seq<byte>, worlds: seq<World>): Sync {
    if worlds == [] then Sync([], Running(FIRST_JOB))
    else
      var s := Run(buf, worlds[..|worlds| - 1]);
      if s.status.Running? then
        var o := Step(buf, s.status.job, worlds[|worlds| - 1]);
        Sync(s.outbox + o.events, o.status)
      else s
  }

  // ----- Every run -----

  function TxsEvents(messages: seq<Message>): (e: seq<Event>)
    ensures |e| == |messages|
  {
    seq(|messages|, i requires 0 <= i < |messages| => Txs(messages[i]))
  }

  /** The completion message follows on every ending except disposal. */
  function Completion(status: Status): seq<Event> {
    if status.Inactive? || status.TimedOut? || status.Finished? then [Complete] else []
  }

  /** The messages are contiguous cuts of the records, from the first one on. */
  ghost predicate Delivered(rs: seq<TxRecord>, messages: seq<Message>, cuts: seq<nat>) {
    && |cuts| == |messages| + 1
    && cuts[0] == 0
    && (forall k :: 0 <= k < |messages| ==> Cut(rs, messages[k], cuts[k], cuts[k + 1]))
    && cuts[|messages|] <= |rs|
  }

  ghost predicate Progress(buf: seq<byte>, rs: seq<TxRecord>, s: Sync, messages: seq<Message>, cuts: seq<nat>) {
    && Delivered(rs, messages, cuts)
    && s.outbox == TxsEvents(messages) + Completion(s.status)
    && var sent := cuts[|messages|];
       && (s.status.Running? ==>
             && At(rs, s.status.job.offset, sent) && (sent < |rs| || SendsWhole(buf, s.status.job.offset))
             && s.status.job.msgs == |messages| && s.status.job.total == sent)
       && (s.status.Finished? ==> sent == |rs|)
       && !s.status.Crashed?
  }

  lemma DeliverMore(rs: seq<TxRecord>, messages: seq<Message>, cuts: seq<nat>, m: Message, j: nat)
    requires Delivered(rs, messages, cuts) && Cut(rs, m, cuts[|messages|], j)
    ensures Delivered(rs, messages + [m], cuts + [j])
  {
  }

  lemma BuiltProgress(buf: seq<byte>, rs: seq<TxRecord>, s: Sync, w: World, messages: seq<Message>, cuts: seq<nat>)
      returns (messages': seq<Message>, cuts': seq<nat>)
    requires WellFormed(buf, rs) && Progress(buf, rs, s, messages, cuts) && s.status.Running? && Builds(s.status.job, w)
    ensures var o := Step(buf, s.status.job, w);
            Progress(buf, rs, Sync(s.outbox + o.events, o.status), messages', cuts')
  {
    var b, j := BuildsCut(buf, rs, s.status.job.offset, cuts[|messages|], w.checks);
    DeliverMore(rs, messages, cuts, b.message, j);
    messages', cuts' := messages + [b.message], cuts + [j];
    OutboxGrows(s.outbox, messages, b.message);
  }

  lemma OutboxGrows(outbox: seq<Event>, messages: seq<Message>, m: Message)
    requires outbox == TxsEvents(messages) + []
    ensures outbox + [Txs(m)] == TxsEvents(messages + [m]) + []
    ensures outbox + [Txs(m), Complete] == TxsEvents(messages + [m]) + [Complete]
  {
  }

  lemma StepProgress(buf: seq<byte>, rs: seq<TxRecord>, s: Sync, w: World, messages: seq<Message>, cuts: seq<nat>)
      returns (messages': seq<Message>, cuts': seq<nat>)
    requires WellFormed(buf, rs) && Progress(buf, rs, s, messages, cuts) && s.status.Running?
    ensures var o := Step(buf, s.status.job, w);
            Progress(buf, rs, Sync(s.outbox + o.events, o.status), messages', cuts')
  {
    messages', cuts' := messages, cuts;
    if Builds(s.status.job, w) {
      messages', cuts' := BuiltProgress(buf, rs, s, w, messages, cuts);
    } else {
      assert s.outbox == TxsEvents(messages);
    }
  }

  /**
   For every clock, connection and ping behaviour: the messages sent are contiguous cuts at record boundaries with
   the right counts, a completion message comes once and last on every ending but disposal, and nothing crashes.
   */
  lemma {:induction false} EveryRunDelivers(buf: seq<byte>, rs: seq<TxRecord>, worlds: seq<World>)
      returns (messages: seq<Message>, cuts: seq<nat>)
    requires WellFormed(buf, rs)
    ensures Progress(buf, rs, Run(buf, worlds), messages, cuts)
    decreases |worlds|
  {
    if worlds == [] {
      messages, cuts := [], [0];
      if rs == [] {
        WellFormedHolds(buf, rs);
      }
    } else {
      var n := |worlds| - 1;
      messages, cuts := EveryRunDelivers(buf, rs, worlds[..n]);
      var s := Run(buf, worlds[..n]);
      if s.status.Running? {
        messages, cuts := StepProgress(buf, rs, s, worlds[n], messages, cuts);
      }
    }
  }

  // ----- What arrives -----

  function AllSlices(messages: seq<Message>): seq<byte> {
    if messages == [] then []
    else
      var n := |messages| - 1;
      AllSlices(messages[..n]) + messages[n].slice
  }

  /** What a receiver reads from the messages, one after the other. */
  function ReceiveAll(messages: seq<Message>): Option<seq<TxRecord>> {
    if messages == [] then Some([])
    else
      var n := |messages| - 1;
      var before := ReceiveAll(messages[..n]);
      var last := ReadRecords(messages[n].slice, 0, messages[n].count);
      if before.None? || last.None? then None else Some(before.value + last.value)
  }

  lemma DeliveredPrefix(rs: seq<TxRecord>, messages: seq<Message>, cuts: seq<nat>)
    requires Delivered(rs, messages, cuts) && messages != []
    ensures Delivered(rs, messages[..|messages| - 1], cuts[..|messages|])
  {
    assert Cut(rs, messages[|messages| - 1], cuts[|messages| - 1], cuts[|messages|]);
  }

  lemma CutReads(rs: seq<TxRecord>, m: Message, i: nat, j: nat)
    requires AllKnown(rs) && AllValid(rs) && Cut(rs, m, i, j)
    ensures ReadRecords(m.slice, 0, m.count) == Some(rs[i..j])
  {
    var part := rs[i..j];
    assert AllValid(part) && AllKnown(part);
    HoldsItself(m.slice);
    ReadAllEncoded(m.slice, 0, part, m.count);
  }

  lemma ReceiveLast(messages: seq<Message>, before: seq<TxRecord>, last: seq<TxRecord>)
    requires messages != [] && ReceiveAll(messages[..|messages| - 1]) == Some(before)
    requires ReadRecords(messages[|messages| - 1].slice, 0, messages[|messages| - 1].count) == Some(last)
    ensures ReceiveAll(messages) == Some(before + last)
  {
  }

  lemma CutExtends(rs: seq<TxRecord>, i: nat, j: nat)
    requires i <= j <= |rs|
    ensures rs[..i] + rs[i..j] == rs[..j] && EncodeAll(rs[..i]) + EncodeAll(rs[i..j]) == EncodeAll(rs[..j])
  {
    assert rs[..i] + rs[i..j] == rs[..j];
    FlatMapConcat(Encode, rs[..i], rs[i..j]);
  }

  lemma {:induction false} DeliveredSlices(rs: seq<TxRecord>, messages: seq<Message>, cuts: seq<nat>)
    requires Delivered(rs, messages, cuts)
    ensures AllSlices(messages) == EncodeAll(rs[..cuts[|messages|]])
    decreases |messages|
  {
    if messages != [] {
      var n := |messages| - 1;
      DeliveredPrefix(rs, messages, cuts);
      DeliveredSlices(rs, messages[..n], cuts[..n + 1]);
      assert Cut(rs, messages[n], cuts[n], cuts[n + 1]);
      CutExtends(rs, cuts[n], cuts[n + 1]);
    }
  }

  lemma {:induction false} DeliveredArrives(rs: seq<TxRecord>, messages: seq<Message>, cuts: seq<nat>)
    requires AllKnown(rs) && AllValid(rs) && Delivered(rs, messages, cuts)
    ensures ReceiveAll(messages) == Some(rs[..cuts[|messages|]])
    decreases |messages|
  {
    if messages != [] {
      var n := |messages| - 1;
      DeliveredPrefix(rs, messages, cuts);
      DeliveredArrives(rs, messages[..n], cuts[..n + 1]);
      assert Cut(rs, messages[n], cuts[n], cuts[n + 1]);
      CutReads(rs, messages[n], cuts[n], cuts[n + 1]);
      CutExtends(rs, cuts[n], cuts[n + 1]);
      ReceiveLast(messages, rs[..cuts[n]], rs[cuts[n]..cuts[n + 1]]);
    }
  }

  /**
   In every run, what has been received is the first `sent` transactions, none lost, duplicated or split; when the
   run finishes it is all of them, and the slices make up the whole buffer after its count.
   */
  lemma ReceiverGetsThePrefix(buf: seq<byte>, rs: seq<TxRecord>, worlds: seq<World>)
      returns (messages: seq<Message>, sent: nat)
    requires WellFormed(buf, rs)
    ensures var s := Run(buf, worlds);
            && s.outbox == TxsEvents(messages) + Completion(s.status) && !s.status.Crashed?
            && sent <= |rs| && ReceiveAll(messages) == Some(rs[..sent])
            && AllSlices(messages) == EncodeAll(rs[..sent])
            && (s.status.Running? ==> s.status.job.total == sent && s.status.job.msgs == |messages|)
            && (s.status.Finished? ==> sent == |rs| && AllSlices(messages) == buf[UL_INT_SIZE_IN_BYTES..])
  {
    var cuts;
    messages, cuts := EveryRunDelivers(buf, rs, worlds);
    sent := cuts[|messages|];
    DeliveredArrives(rs, messages, cuts);
    DeliveredSlices(rs, messages, cuts);
    assert rs[..|rs|] == rs;
  }

  // ----- How a run ends -----

  function Readings(worlds: seq<World>): (r: seq<int>)
    ensures |r| == |worlds|
  {
    seq(|worlds|, i requires 0 <= i < |worlds| => worlds[i].now)
  }

  /** A step takes the clock for the start of the run only if there is none yet. */
  lemma StartKept(buf: seq<byte>, worlds: seq<World>)
    requires worlds != [] && Run(buf, worlds).status.Running?
    ensures Run(buf, worlds[..|worlds| - 1]).status.Running?
    ensures var before := Run(buf, worlds[..|worlds| - 1]).status.job.started;
            Run(buf, worlds).status.job.started == if before == 0 then worlds[|worlds| - 1].now else before
  {
  }

  /** While a run goes on, its start is the first clock reading of all. */
  lemma {:induction false} RunStarted(buf: seq<byte>, worlds: seq<World>, started: int)
    requires Run(buf, worlds).status.Running? && started == Run(buf, worlds).status.job.started
    ensures IsFirstNonzero(Readings(worlds), started)
    decreases |worlds|
  {
    if worlds != [] {
      var n := |worlds| - 1;
      StartKept(buf, worlds);
      var before := Run(buf, worlds[..n]).status.job.started;
      RunStarted(buf, worlds[..n], before);
      FirstNonzeroNext(Readings(worlds[..n]), worlds[n].now, before, started);
      assert Readings(worlds[..n]) + [worlds[n].now] == Readings(worlds);
    }
  }

  /**
   A running sync is dropped if and only if its connection is gone, ends inactive if and only if that is closing, and
   timed out if and only if fifteen minutes have passed since the run's first clock reading; only the first sends no
   completion message. Without a ping it waits, and sends nothing.
   */
  lemma NextStepEnds(buf: seq<byte>, worlds: seq<World>, w: World) returns (start: int)
    requires Run(buf, worlds).status.Running?
    ensures IsFirstNonzero(Readings(worlds + [w]), start)
    ensures var before, after := Run(buf, worlds), Run(buf, worlds + [w]);
            && (after.status.Disposed? <==> !w.connected)
            && (after.status.Inactive? <==> w.connected && !w.active)
            && (after.status.TimedOut? <==> w.connected && w.active && w.later - start >= 900)
            && (after.status.Disposed? ==> after.outbox == before.outbox)
            && (after.status.Inactive? || after.status.TimedOut? ==> after.outbox == before.outbox + [Complete])
            && (w.connected && w.active && w.later - start < 900 && w.ping.None? ==>
                  after == Sync(before.outbox, Running(before.status.job.(started := start))))
  {
    var started := Run(buf, worlds).status.job.started;
    start := if started == 0 then w.now else started;
    RunStarted(buf, worlds, started);
    FirstNonzeroNext(Readings(worlds), w.now, started, start);
    assert Readings(worlds) + [w.now] == Readings(worlds + [w]);
    assert (worlds + [w])[..|worlds|] == worlds;
  }

  // ----- A run comes to its end -----

  /** The connection is up, the ping is known, time is left and every step gets to write at least one record. */
  ghost predicate Favourable(worlds: seq<World>) {
    forall i, j :: 0 <= i < |worlds| && 0 <= j < |worlds| ==>
      var w := worlds[i];
      && w.connected && w.active && w.ping.Some? && w.checks > 0 && w.now != 0
      && w.later - worlds[j].now < SENDING_TX_MSGS_TIMEOUT_S
  }

  ghost predicate StartedIn(worlds: seq<World>, job: Job) {
    job.started == 0 || exists j :: 0 <= j < |worlds| && job.started == worlds[j].now
  }

  /** After a favourable run the job has finished or stands at a record not before the one numbered like its steps. */
  ghost predicate Advanced(buf: seq<byte>, rs: seq<TxRecord>, worlds: seq<World>, status: Status, i: nat) {
    status.Finished? ||
    (status.Running? && StartedIn(worlds, status.job) && At(rs, status.job.offset, i)
     && i >= |worlds| && (i < |rs| || SendsWhole(buf, status.job.offset)))
  }

  lemma FavourableBuilds(worlds: seq<World>, job: Job)
    requires Favourable(worlds) && worlds != [] && StartedIn(worlds[..|worlds| - 1], job)
    ensures Builds(job, worlds[|worlds| - 1])
    ensures exists j :: 0 <= j < |worlds| && StartTime(job, worlds[|worlds| - 1]) == worlds[j].now
  {
    var n := |worlds| - 1;
    assert worlds[n].later - worlds[n].now < SENDING_TX_MSGS_TIMEOUT_S;
    if job.started != 0 {
      var j :| 0 <= j < n && job.started == worlds[..n][j].now;
      assert worlds[n].later - worlds[j].now < SENDING_TX_MSGS_TIMEOUT_S;
      assert job.started == worlds[j].now;
    }
  }

  /** A step that builds sends at least one more record or finishes. */
  lemma FavourableStep(buf: seq<byte>, rs: seq<TxRecord>, job: Job, i: nat, w: World) returns (k: nat)
    requires WellFormed(buf, rs) && At(rs, job.offset, i) && (i < |rs| || SendsWhole(buf, job.offset))
    requires Builds(job, w) && w.checks > 0
    ensures var status := Step(buf, job, w).status;
            status.Finished? ||
            (status.Running? && status.job.started == StartTime(job, w) && At(rs, status.job.offset, k)
             && i < k < |rs|)
  {
    var b;
    b, k := BuildsCut(buf, rs, job.offset, i, w.checks);
  }

  lemma {:induction false} FavourableRunAdvances(buf: seq<byte>, rs: seq<TxRecord>, worlds: seq<World>)
      returns (i: nat)
    requires WellFormed(buf, rs) && Favourable(worlds)
    ensures Advanced(buf, rs, worlds, Run(buf, worlds).status, i)
    decreases |worlds|
  {
    if worlds == [] {
      i := 0;
      if rs == [] {
        WellFormedHolds(buf, rs);
      }
    } else {
      var n := |worlds| - 1;
      i := FavourableRunAdvances(buf, rs, worlds[..n]);
      var before := Run(buf, worlds[..n]).status;
      if before.Running? {
        FavourableBuilds(worlds, before.job);
        i := FavourableStep(buf, rs, before.job, i, worlds[n]);
      }
    }
  }

  /** Under favourable conditions a buffer of n records is sent in at most max(n, 1) steps. */
  lemma FavourableRunFinishes(buf: seq<byte>, rs: seq<TxRecord>, worlds: seq<World>)
    requires WellFormed(buf, rs) && Favourable(worlds) && |worlds| >= |rs| && |worlds| > 0
    ensures Run(buf, worlds).status.Finished?
  {
    var i := FavourableRunAdvances(buf, rs, worlds);
  }
}
