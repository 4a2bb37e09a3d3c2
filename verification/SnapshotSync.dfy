/**
 Sending a snapshot of transaction hashes: each alarm-driven step pops hashes off the end of the list, looks
 them up as the cache then is, and sends them in one message.
 */
module SnapshotSync {
  import opened Basics
  import opened ByteBuffers
  import opened TxRecords

  const TXS_MSG_SIZE := 64000
  const SENDING_TX_MSGS_TIMEOUT_S := 15 * 60

  type Hash = seq<byte>

  /** What the transaction service knows of a transaction: its content, its short ids and their flags. */
  datatype Info = Info(content: Option<seq<byte>>, sids: seq<nat>, flags: seq<nat>)

  type Lookup = Hash -> Info

  function RecordOf(lookup: Lookup, syncContent: bool, hash: Hash): TxRecord {
    var info := lookup(hash);
    TxRecord(hash, if syncContent then info.content else Some([]), info.sids, info.flags)
  }

  function Reverse<T>(s: seq<T>): (r: seq<T>)
    ensures |r| == |s|
  {
    seq(|s|, i requires 0 <= i < |s| => s[|s| - 1 - i])
  }

  lemma ReverseLast<T>(s: seq<T>)
    requires s != []
    ensures Reverse(s) == [s[|s| - 1]] + Reverse(s[..|s| - 1])
  {
  }

  function HashesOf(items: seq<TxRecord>): (h: seq<Hash>)
    ensures |h| == |items|
  {
    seq(|items|, i requires 0 <= i < |items| => items[i].hash)
  }

  // ----- One message -----

  datatype Collected = Collected(items: seq<TxRecord>, rest: seq<Hash>)

  /** Moving the last hash of the rest, looked up, to the items. */
  function TakeOne(lookup: Lookup, syncContent: bool, c: Collected): Collected
    requires c.rest != []
  {
    Collected(c.items + [RecordOf(lookup, syncContent, c.rest[|c.rest| - 1])], c.rest[..|c.rest| - 1])
  }

  /**
   The loop of `create_txs_service_msg` from a given state, with `length` bytes collected. `checks` is the number
   of items after which the clock is still found in time.
   */
  function Collect(lookup: Lookup, syncContent: bool, c: Collected, length: nat, checks: nat): Collected
    decreases |c.rest|
  {
    if c.rest == [] then c
    else
      var item := RecordOf(lookup, syncContent, c.rest[|c.rest| - 1]);
      var next := TakeOne(lookup, syncContent, c);
      if length + EncodedLen(item) >= TXS_MSG_SIZE || checks == 0 then next
      else Collect(lookup, syncContent, next, length + EncodedLen(item), checks - 1)
  }

  function BuildMessage(lookup: Lookup, syncContent: bool, snap: seq<Hash>, checks: nat): Collected {
    Collect(lookup, syncContent, Collected([], snap), 0, checks)
  }

  method CreateTxsServiceMsg(lookup: Lookup, syncContent: bool, snap: seq<Hash>, checks: nat)
      returns (items: seq<TxRecord>, rest: seq<Hash>)
    ensures Collected(items, rest) == BuildMessage(lookup, syncContent, snap, checks)
  {
    items, rest := [], snap;
    var length: nat, left := 0, checks;
    while rest != []
      invariant Collect(lookup, syncContent, Collected(items, rest), length, left)
                == BuildMessage(lookup, syncContent, snap, checks)
      decreases |rest|
    {
      var item := RecordOf(lookup, syncContent, rest[|rest| - 1]);
      rest := rest[..|rest| - 1];
      length := length + EncodedLen(item);
      items := items + [item];
      if length >= TXS_MSG_SIZE || left == 0 {
        break;
      }
      left := left - 1;
    }
  }

  /** Every item but the last starts below the size target. */
  ghost predicate WithinTarget(items: seq<TxRecord>) {
    items != [] && TotalEncodedLen(items[..|items| - 1]) < TXS_MSG_SIZE
  }

  /** Every item has the short ids and flags the cache holds for its hash, and its content if contents are synced. */
  ghost predicate LookedUp(lookup: Lookup, syncContent: bool, items: seq<TxRecord>) {
    forall i :: 0 <= i < |items| ==>
      var info := lookup(items[i].hash);
      && items[i].sids == info.sids && items[i].flags == info.flags
      && (syncContent ==> items[i].content == info.content)
      && (!syncContent ==> items[i].content == Some([]))
  }

  lemma {:induction false} TotalEncodedLenSnoc(items: seq<TxRecord>, item: TxRecord)
    ensures TotalEncodedLen(items + [item]) == TotalEncodedLen(items) + EncodedLen(item)
  {
    if items != [] {
      TotalEncodedLenSnoc(items[1..], item);
      assert (items + [item])[1..] == items[1..] + [item];
    }
  }

  lemma TakeOneKeepsOrder(lookup: Lookup, syncContent: bool, c: Collected)
    requires c.rest != []
    ensures var next := TakeOne(lookup, syncContent, c);
            HashesOf(next.items) + Reverse(next.rest) == HashesOf(c.items) + Reverse(c.rest)
  {
    var next := TakeOne(lookup, syncContent, c);
    ReverseLast(c.rest);
    assert HashesOf(next.items) == HashesOf(c.items) + [c.rest[|c.rest| - 1]];
  }

  lemma {:induction false} CollectKeepsOrder(lookup: Lookup, syncContent: bool, c: Collected, length: nat, checks: nat)
    ensures var r := Collect(lookup, syncContent, c, length, checks);
            && HashesOf(r.items) + Reverse(r.rest) == HashesOf(c.items) + Reverse(c.rest)
            && |r.rest| <= |c.rest| && (c.rest != [] ==> |r.rest| < |c.rest|)
    decreases |c.rest|
  {
    if c.rest != [] {
      var next := TakeOne(lookup, syncContent, c);
      var item := RecordOf(lookup, syncContent, c.rest[|c.rest| - 1]);
      TakeOneKeepsOrder(lookup, syncContent, c);
      if length + EncodedLen(item) < TXS_MSG_SIZE && checks > 0 {
        CollectKeepsOrder(lookup, syncContent, next, length + EncodedLen(item), checks - 1);
      }
    }
  }

  lemma TakeOneWithinTarget(lookup: Lookup, syncContent: bool, c: Collected, length: nat, next: Collected, sum: nat)
    requires c.rest != [] && length == TotalEncodedLen(c.items) < TXS_MSG_SIZE
    requires next == TakeOne(lookup, syncContent, c)
    requires sum == length + EncodedLen(RecordOf(lookup, syncContent, c.rest[|c.rest| - 1]))
    ensures WithinTarget(next.items) && TotalEncodedLen(next.items) == sum
  {
    assert next.items[..|next.items| - 1] == c.items;
    TotalEncodedLenSnoc(c.items, RecordOf(lookup, syncContent, c.rest[|c.rest| - 1]));
  }

  lemma CollectTurn(lookup: Lookup, syncContent: bool, c: Collected, length: nat, checks: nat, next: Collected,
                    sum: nat)
    requires c.rest != [] && next == TakeOne(lookup, syncContent, c)
    requires sum == length + EncodedLen(RecordOf(lookup, syncContent, c.rest[|c.rest| - 1]))
    ensures Collect(lookup, syncContent, c, length, checks)
         == if sum >= TXS_MSG_SIZE || checks == 0 then next else Collect(lookup, syncContent, next, sum, checks - 1)
  {
  }

  lemma {:induction false} CollectWithinTarget(lookup: Lookup, syncContent: bool, c: Collected, length: nat,
      checks: nat)
    requires c.rest != [] || c.items != []
    requires c.items != [] ==> WithinTarget(c.items)
    requires length == TotalEncodedLen(c.items) < TXS_MSG_SIZE
    ensures WithinTarget(Collect(lookup, syncContent, c, length, checks).items)
    decreases |c.rest|
  {
    if c.rest != [] {
      var next := TakeOne(lookup, syncContent, c);
      var sum := length + EncodedLen(RecordOf(lookup, syncContent, c.rest[|c.rest| - 1]));
      TakeOneWithinTarget(lookup, syncContent, c, length, next, sum);
      CollectTurn(lookup, syncContent, c, length, checks, next, sum);
      if sum < TXS_MSG_SIZE && checks > 0 {
        CollectWithinTarget(lookup, syncContent, next, sum, checks - 1);
      }
    }
  }

  lemma {:induction false} CollectLooksUp(lookup: Lookup, syncContent: bool, c: Collected, length: nat, checks: nat)
    requires LookedUp(lookup, syncContent, c.items)
    ensures LookedUp(lookup, syncContent, Collect(lookup, syncContent, c, length, checks).items)
    decreases |c.rest|
  {
    if c.rest != [] {
      var item := RecordOf(lookup, syncContent, c.rest[|c.rest| - 1]);
      if length + EncodedLen(item) < TXS_MSG_SIZE && checks > 0 {
        CollectLooksUp(lookup, syncContent, TakeOne(lookup, syncContent, c), length + EncodedLen(item), checks - 1);
      }
    }
  }

  /** The loop stops only where nothing is left, the target is reached, or its time is over. */
  lemma {:induction false} CollectStops(lookup: Lookup, syncContent: bool, c: Collected, length: nat, checks: nat)
    requires length == TotalEncodedLen(c.items) < TXS_MSG_SIZE
    ensures var r := Collect(lookup, syncContent, c, length, checks);
            && |r.items| <= |c.items| + checks + 1
            && (r.rest == [] || TotalEncodedLen(r.items) >= TXS_MSG_SIZE || |r.items| == |c.items| + checks + 1)
    decreases |c.rest|
  {
    if c.rest != [] {
      var next := TakeOne(lookup, syncContent, c);
      var sum := length + EncodedLen(RecordOf(lookup, syncContent, c.rest[|c.rest| - 1]));
      TakeOneWithinTarget(lookup, syncContent, c, length, next, sum);
      CollectTurn(lookup, syncContent, c, length, checks, next, sum);
      if sum < TXS_MSG_SIZE && checks > 0 {
        CollectStops(lookup, syncContent, next, sum, checks - 1);
      }
    }
  }

  lemma BuildTakesFromEnd(lookup: Lookup, syncContent: bool, snap: seq<Hash>, checks: nat)
    requires snap != []
    ensures var r := BuildMessage(lookup, syncContent, snap, checks);
            && HashesOf(r.items) + Reverse(r.rest) == Reverse(snap)
            && WithinTarget(r.items) && LookedUp(lookup, syncContent, r.items)
            && |r.rest| < |snap| && |r.items| <= checks + 1
            && (r.rest == [] || TotalEncodedLen(r.items) >= TXS_MSG_SIZE || |r.items| == checks + 1)
  {
    CollectStops(lookup, syncContent, Collected([], snap), 0, checks);
    CollectKeepsOrder(lookup, syncContent, Collected([], snap), 0, checks);
    CollectWithinTarget(lookup, syncContent, Collected([], snap), 0, checks);
    CollectLooksUp(lookup, syncContent, Collected([], snap), 0, checks);
    assert HashesOf([]) + Reverse(snap) == Reverse(snap);
  }

  // ----- The steps -----

  datatype Event = Txs(items: seq<TxRecord>) | Complete

  datatype Job = Job(snap: seq<Hash>, started: int, msgs: nat, total: nat)

  datatype Status = Running(job: Job) | Inactive | TimedOut | Finished

  /** What a step finds: the connection, two readings of the clock, the ping latency,
      the cache and its time for building. */
  datatype World = World(active: bool, now: int, later: int, ping: Option<int>, lookup: Lookup, checks: nat)

  datatype Outcome = Outcome(events: seq<Event>, status: Status)

  function StartTime(job: Job, w: World): int {
    if job.started == 0 then w.now else job.started
  }

  predicate InTime(job: Job, w: World) {
    w.later - StartTime(job, w) < SENDING_TX_MSGS_TIMEOUT_S
  }

  /** The job after sending one message. */
  function Sent(job: Job, c: Collected): Job {
    job.(snap := c.rest, msgs := job.msgs + 1, total := job.total + |c.items|)
  }

  /** One call of `send_tx_service_sync_txs`. */
  function Step(syncContent: bool, job: Job, w: World): Outcome {
    if !w.active then Outcome([Complete], Inactive)
    else if !InTime(job, w) then Outcome([Complete], TimedOut)
    else
      var timed := job.(started := StartTime(job, w));
      var sends := job.snap != [] && w.ping.Some?;
      var c := BuildMessage(w.lookup, syncContent, job.snap, w.checks);
      var next := if sends then Sent(timed, c) else timed;
      var events := if sends then [Txs(c.items)] else [];
      if next.snap != [] then Outcome(events, Running(next)) else Outcome(events + [Complete], Finished)
  }

  datatype Sync = Sync(outbox: seq<Event>, status: Status)

  function Run(syncContent: bool, snap: seq<Hash>, worlds: seq<World>): Sync {
    if worlds == [] then Sync([], Running(Job(snap, 0, 0, 0)))
    else
      var s := Run(syncContent, snap, worlds[..|worlds| - 1]);
      if s.status.Running? then
        var o := Step(syncContent, s.status.job, worlds[|worlds| - 1]);
        Sync(s.outbox + o.events, o.status)
      else s
  }

  // ----- Every run -----

  function TxsEvents(messages: seq<seq<TxRecord>>): (e: seq<Event>)
    ensures |e| == |messages|
  {
    seq(|messages|, i requires 0 <= i < |messages| => Txs(messages[i]))
  }

  function Concat<T>(parts: seq<seq<T>>): seq<T> {
    if parts == [] then [] else Concat(parts[..|parts| - 1]) + parts[|parts| - 1]
  }

  /** What is left of the snapshot while the run goes on; nothing once it has finished. */
  ghost predicate Leaves(status: Status, rest: seq<Hash>) {
    && (status.Running? ==> status.job.snap == rest)
    && (status.Finished? ==> rest == [])
  }

  ghost predicate Progress(snap: seq<Hash>, s: Sync, messages: seq<seq<TxRecord>>, rest: seq<Hash>) {
    && s.outbox == TxsEvents(messages) + (if s.status.Running? then [] else [Complete])
    && HashesOf(Concat(messages)) + Reverse(rest) == Reverse(snap)
    && (forall i :: 0 <= i < |messages| ==> WithinTarget(messages[i]))
    && Leaves(s.status, rest)
    && (s.status.Running? ==> s.status.job.msgs == |messages| && s.status.job.total == |Concat(messages)|)
  }

  lemma HashesOfConcat(a: seq<TxRecord>, b: seq<TxRecord>)
    ensures HashesOf(a + b) == HashesOf(a) + HashesOf(b)
  {
  }

  lemma SendOne(messages: seq<seq<TxRecord>>, items: seq<TxRecord>)
    ensures Concat(messages + [items]) == Concat(messages) + items
    ensures TxsEvents(messages + [items]) == TxsEvents(messages) + [Txs(items)]
  {
    assert (messages + [items])[..|messages|] == messages;
  }

  /** Either nothing was sent, or one message of what the cache says of its hashes. */
  ghost predicate SentOne(lookup: Lookup, syncContent: bool, before: seq<seq<TxRecord>>, after: seq<seq<TxRecord>>) {
    after == before
    || (|after| == |before| + 1 && after[..|before|] == before && LookedUp(lookup, syncContent, after[|before|]))
  }

  lemma StepProgress(syncContent: bool, snap: seq<Hash>, s: Sync, w: World, messages: seq<seq<TxRecord>>)
      returns (messages': seq<seq<TxRecord>>, rest: seq<Hash>)
    requires s.status.Running? && Progress(snap, s, messages, s.status.job.snap)
    ensures var o := Step(syncContent, s.status.job, w);
            Progress(snap, Sync(s.outbox + o.events, o.status), messages', rest)
    ensures SentOne(w.lookup, syncContent, messages, messages')
  {
    var job := s.status.job;
    var o := Step(syncContent, job, w);
    messages', rest := messages, job.snap;
    assert s.outbox == TxsEvents(messages);
    if w.active && InTime(job, w) && job.snap != [] && w.ping.Some? {
      var c := BuildMessage(w.lookup, syncContent, job.snap, w.checks);
      BuildTakesFromEnd(w.lookup, syncContent, job.snap, w.checks);
      SendOne(messages, c.items);
      HashesOfConcat(Concat(messages), c.items);
      messages', rest := messages + [c.items], c.rest;
    }
  }

  /** Every message holds what the cache said of its hashes at one of the steps. */
  ghost predicate AllLookedUp(syncContent: bool, worlds: seq<World>, messages: seq<seq<TxRecord>>) {
    forall i :: 0 <= i < |messages| ==>
      exists k :: 0 <= k < |worlds| && LookedUp(worlds[k].lookup, syncContent, messages[i])
  }

  lemma LookedUpSoFar(syncContent: bool, worlds: seq<World>, before: seq<seq<TxRecord>>, after: seq<seq<TxRecord>>)
    requires worlds != [] && AllLookedUp(syncContent, worlds[..|worlds| - 1], before)
    requires SentOne(worlds[|worlds| - 1].lookup, syncContent, before, after)
    ensures AllLookedUp(syncContent, worlds, after)
  {
    forall i | 0 <= i < |after|
      ensures exists k :: 0 <= k < |worlds| && LookedUp(worlds[k].lookup, syncContent, after[i])
    {
      if i < |before| {
        assert after[i] == before[i];
        var k :| 0 <= k < |worlds| - 1 && LookedUp(worlds[..|worlds| - 1][k].lookup, syncContent, before[i]);
        assert LookedUp(worlds[k].lookup, syncContent, after[i]);
      }
    }
  }

  /**
   In every run the hashes sent so far, followed by those left in reverse, are the snapshot in reverse; every message
   stays under the size target up to its last item and holds what the cache then says of its hashes; and the completion
   message comes once and last on every ending.
   */
  lemma {:induction false} EveryRunSendsInReverse(syncContent: bool, snap: seq<Hash>, worlds: seq<World>)
      returns (messages: seq<seq<TxRecord>>, rest: seq<Hash>)
    ensures Progress(snap, Run(syncContent, snap, worlds), messages, rest)
    ensures AllLookedUp(syncContent, worlds, messages)
    decreases |worlds|
  {
    if worlds == [] {
      messages, rest := [], snap;
    } else {
      var n := |worlds| - 1;
      var before;
      before, rest := EveryRunSendsInReverse(syncContent, snap, worlds[..n]);
      messages := before;
      var s := Run(syncContent, snap, worlds[..n]);
      if s.status.Running? {
        messages, rest := StepProgress(syncContent, snap, s, worlds[n], before);
      }
      LookedUpSoFar(syncContent, worlds, before, messages);
    }
  }

  /** A finished run has sent every hash of the snapshot exactly as often as it occurs, last one first. */
  lemma FinishedRunSendsAll(syncContent: bool, snap: seq<Hash>, worlds: seq<World>)
      returns (messages: seq<seq<TxRecord>>)
    requires Run(syncContent, snap, worlds).status.Finished?
    ensures Run(syncContent, snap, worlds).outbox == TxsEvents(messages) + [Complete]
    ensures HashesOf(Concat(messages)) == Reverse(snap)
  {
    var rest;
    messages, rest := EveryRunSendsInReverse(syncContent, snap, worlds);
    assert HashesOf(Concat(messages)) + [] == HashesOf(Concat(messages));
  }

  // ----- What the receiver reads -----

  /** What the cache holds for a hash fits the layout of a record. */
  ghost predicate InfoFits(hash: Hash, info: Info) {
    Valid(TxRecord(hash, info.content, info.sids, info.flags))
  }

  /** Whatever the cache says of a hash of the snapshot during the run fits the layout of a record. */
  ghost predicate CacheFits(snap: seq<Hash>, worlds: seq<World>) {
    forall k, h :: 0 <= k < |worlds| && h in snap ==> InfoFits(h, worlds[k].lookup(h))
  }

  ghost predicate AllFit(messages: seq<seq<TxRecord>>) {
    forall i :: 0 <= i < |messages| ==> AllValid(messages[i])
  }

  /** What a receiver reads from the messages, one after the other. */
  ghost function ReceivedFrom(messages: seq<seq<TxRecord>>): seq<TxRecord>
    requires AllFit(messages)
  {
    if messages == [] then []
    else ReceivedFrom(messages[..|messages| - 1]) + Received(messages[|messages| - 1])
  }

  lemma {:induction false} ConcatHas(messages: seq<seq<TxRecord>>, i: nat, item: TxRecord)
    requires i < |messages| && item in messages[i]
    ensures item in Concat(messages)
    decreases |messages|
  {
    if i < |messages| - 1 {
      ConcatHas(messages[..|messages| - 1], i, item);
    }
  }

  lemma HashIsOfSnapshot(snap: seq<Hash>, items: seq<TxRecord>, rest: seq<Hash>, item: TxRecord)
    requires HashesOf(items) + Reverse(rest) == Reverse(snap) && item in items
    ensures item.hash in snap
  {
    var i :| 0 <= i < |items| && items[i] == item;
    assert (HashesOf(items) + Reverse(rest))[i] == item.hash && Reverse(snap)[i] == snap[|snap| - 1 - i];
  }

  lemma MessageFits(syncContent: bool, snap: seq<Hash>, worlds: seq<World>, messages: seq<seq<TxRecord>>,
                    rest: seq<Hash>, i: nat)
    requires CacheFits(snap, worlds) && AllLookedUp(syncContent, worlds, messages) && i < |messages|
    requires HashesOf(Concat(messages)) + Reverse(rest) == Reverse(snap)
    ensures AllValid(messages[i])
  {
    var k :| 0 <= k < |worlds| && LookedUp(worlds[k].lookup, syncContent, messages[i]);
    forall j | 0 <= j < |messages[i]| ensures Valid(messages[i][j]) {
      ConcatHas(messages, i, messages[i][j]);
      HashIsOfSnapshot(snap, Concat(messages), rest, messages[i][j]);
      assert InfoFits(messages[i][j].hash, worlds[k].lookup(messages[i][j].hash));
    }
  }

  lemma {:induction false} ReceivedFromIff(messages: seq<seq<TxRecord>>)
    requires AllFit(messages)
    ensures |ReceivedFrom(messages)| == |Concat(messages)|
    ensures ReceivedFrom(messages) == Concat(messages) <==> AllSendable(Concat(messages))
    decreases |messages|
  {
    if messages != [] {
      var n := |messages| - 1;
      ReceivedFromIff(messages[..n]);
      ReceivedIff(messages[n]);
      SameParts(ReceivedFrom(messages[..n]), Received(messages[n]), Concat(messages[..n]), messages[n]);
      SendableParts(Concat(messages[..n]), messages[n]);
    }
  }

  lemma SameParts<T>(a: seq<T>, b: seq<T>, c: seq<T>, d: seq<T>)
    requires |a| == |c|
    ensures a + b == c + d <==> a == c && b == d
  {
    if a + b == c + d {
      assert a == (a + b)[..|a|] && b == (a + b)[|a|..];
      assert c == (c + d)[..|a|] && d == (c + d)[|a|..];
    }
  }

  lemma SendableParts(a: seq<TxRecord>, b: seq<TxRecord>)
    ensures AllSendable(a + b) <==> AllSendable(a) && AllSendable(b)
  {
    if AllSendable(a + b) {
      assert forall i :: 0 <= i < |a| ==> a[i] == (a + b)[i];
      assert forall i :: 0 <= i < |b| ==> b[i] == (a + b)[|a| + i];
    }
  }

  /**
   In every run, whatever the cache holds at each step: from each message the receiver reads the sent items and a
   phantom for each skipped one, and over the whole run it reads the records that were looked up if and only if all of
   them have a content and none the null short id.
   */
  lemma ReceiverReadsSnapshotIff(syncContent: bool, snap: seq<Hash>, worlds: seq<World>)
      returns (messages: seq<seq<TxRecord>>, rest: seq<Hash>)
    requires CacheFits(snap, worlds)
    ensures Progress(snap, Run(syncContent, snap, worlds), messages, rest)
    ensures AllLookedUp(syncContent, worlds, messages) && AllFit(messages)
    ensures forall i :: 0 <= i < |messages| ==>
              ReadRecords(Serialize(messages[i]), 0, |messages[i]|) == Some(Received(messages[i]))
    ensures ReceivedFrom(messages) == Concat(messages)
       <==> forall item :: item in Concat(messages) ==> item.content.Some? && NULL_TX_SID !in item.sids
  {
    messages, rest := EveryRunSendsInReverse(syncContent, snap, worlds);
    forall i | 0 <= i < |messages| ensures AllValid(messages[i]) {
      MessageFits(syncContent, snap, worlds, messages, rest, i);
    }
    forall i | 0 <= i < |messages|
      ensures ReadRecords(Serialize(messages[i]), 0, |messages[i]|) == Some(Received(messages[i]))
    {
      SkippedItemsBecomePhantoms(messages[i]);
    }
    ReceivedFromIff(messages);
  }

  // ----- How a run ends -----

  function Readings(worlds: seq<World>): (r: seq<int>)
    ensures |r| == |worlds|
  {
    seq(|worlds|, i requires 0 <= i < |worlds| => worlds[i].now)
  }

  /** A step takes the clock for the start of the run only if there is none yet. */
  lemma StartKept(syncContent: bool, snap: seq<Hash>, worlds: seq<World>)
    requires worlds != [] && Run(syncContent, snap, worlds).status.Running?
    ensures Run(syncContent, snap, worlds[..|worlds| - 1]).status.Running?
    ensures var before := Run(syncContent, snap, worlds[..|worlds| - 1]).status.job.started;
            Run(syncContent, snap, worlds).status.job.started
            == if before == 0 then worlds[|worlds| - 1].now else before
  {
  }

  /** While a run goes on, its start is the first clock reading of all. */
  lemma {:induction false} RunStarted(syncContent: bool, snap: seq<Hash>, worlds: seq<World>, started: int)
    requires Run(syncContent, snap, worlds).status.Running?
    requires started == Run(syncContent, snap, worlds).status.job.started
    ensures IsFirstNonzero(Readings(worlds), started)
    decreases |worlds|
  {
    if worlds != [] {
      var n := |worlds| - 1;
      StartKept(syncContent, snap, worlds);
      var before := Run(syncContent, snap, worlds[..n]).status.job.started;
      RunStarted(syncContent, snap, worlds[..n], before);
      FirstNonzeroNext(Readings(worlds[..n]), worlds[n].now, before, started);
      assert Readings(worlds[..n]) + [worlds[n].now] == Readings(worlds);
    }
  }

  /**
   A running sync ends inactive if and only if the connection is gone, and timed out if and only if it is there but
   fifteen minutes have passed since the run's first clock reading. Without a ping it waits, and sends nothing.
   */
  lemma NextStepEnds(syncContent: bool, snap: seq<Hash>, worlds: seq<World>, w: World) returns (start: int)
    requires Run(syncContent, snap, worlds).status.Running?
    ensures IsFirstNonzero(Readings(worlds + [w]), start)
    ensures var before, after := Run(syncContent, snap, worlds), Run(syncContent, snap, worlds + [w]);
            && (after.status.Inactive? <==> !w.active)
            && (after.status.TimedOut? <==> w.active && w.later - start >= 900)
            && (w.active && w.later - start < 900 && w.ping.None? && before.status.job.snap != [] ==>
                  after == Sync(before.outbox, Running(before.status.job.(started := start))))
  {
    var started := Run(syncContent, snap, worlds).status.job.started;
    start := if started == 0 then w.now else started;
    RunStarted(syncContent, snap, worlds, started);
    FirstNonzeroNext(Readings(worlds), w.now, started, start);
    assert Readings(worlds) + [w.now] == Readings(worlds + [w]);
    assert (worlds + [w])[..|worlds|] == worlds;
  }

  // ----- A run comes to its end -----

  ghost predicate Favourable(worlds: seq<World>) {
    forall i, j :: 0 <= i < |worlds| && 0 <= j < |worlds| ==>
      var w := worlds[i];
      w.active && w.ping.Some? && w.now != 0 && w.later - worlds[j].now < SENDING_TX_MSGS_TIMEOUT_S
  }

  /** As long as the run goes on, every favourable step has sent at least one hash, whatever the cache holds. */
  ghost predicate Advances(snap: seq<Hash>, worlds: seq<World>, status: Status) {
    status.Finished? ||
    (status.Running? && |status.job.snap| + |worlds| <= |snap|
     && (status.job.started == 0 || exists j :: 0 <= j < |worlds| && status.job.started == worlds[j].now))
  }

  lemma FavourableStep(syncContent: bool, job: Job, w: World)
    requires w.active && w.ping.Some? && InTime(job, w)
    ensures var o := Step(syncContent, job, w);
            if o.status.Running?
            then |o.status.job.snap| < |job.snap| && o.status.job.started == StartTime(job, w)
            else o.status.Finished?
    ensures |job.snap| <= 1 ==> Step(syncContent, job, w).status.Finished?
  {
    if job.snap != [] {
      BuildTakesFromEnd(w.lookup, syncContent, job.snap, w.checks);
    }
  }

  lemma {:induction false} FavourableRunAdvances(syncContent: bool, snap: seq<Hash>, worlds: seq<World>)
    requires Favourable(worlds)
    ensures Advances(snap, worlds, Run(syncContent, snap, worlds).status)
    ensures worlds != [] && |worlds| >= |snap| ==> Run(syncContent, snap, worlds).status.Finished?
    decreases |worlds|
  {
    if worlds != [] {
      var n := |worlds| - 1;
      FavourableRunAdvances(syncContent, snap, worlds[..n]);
      var before := Run(syncContent, snap, worlds[..n]).status;
      if before.Running? {
        var job, w := before.job, worlds[n];
        assert InTime(job, w) by {
          assert w.later - w.now < SENDING_TX_MSGS_TIMEOUT_S;
          if job.started != 0 {
            var j :| 0 <= j < n && job.started == worlds[..n][j].now;
            assert w.later - worlds[j].now < SENDING_TX_MSGS_TIMEOUT_S;
          }
        }
        FavourableStep(syncContent, job, w);
      }
    }
  }

  /** A favourable run sends the snapshot in at most as many steps as it has hashes. */
  lemma FavourableRunFinishes(syncContent: bool, snap: seq<Hash>, worlds: seq<World>)
    requires Favourable(worlds) && worlds != [] && |worlds| >= |snap|
    ensures Run(syncContent, snap, worlds).status.Finished?
  {
    FavourableRunAdvances(syncContent, snap, worlds);
  }
}
