/**
 `TxSyncService`: the steps as methods that enqueue messages on the connection and re-register themselves
 with the alarm queue. Each is proved to do what the step function of its sync says, for its network only.
 */
module TxSyncServices {
  import opened Basics
  import opened ByteBuffers
  import TxRecords
  import BufferSync
  import SnapshotSync

  type Network = nat

  /** The alarm that continues a sync, with the arguments it was registered with. */
  datatype Pending =
    | FromBuffer(buf: seq<byte>, bufferJob: BufferSync.Job)
    | FromSnapshot(syncContent: bool, snapshotJob: SnapshotSync.Job)

  datatype Enqueued =
    | BufferTxs(network: Network, message: BufferSync.Message)
    | SnapshotTxs(network: Network, items: seq<TxRecords.TxRecord>)
    | SyncComplete(network: Network)

  function OfBuffer(network: Network, events: seq<BufferSync.Event>): seq<Enqueued> {
    seq(|events|, i requires 0 <= i < |events| =>
      match events[i] case Txs(m) => BufferTxs(network, m) case Complete => SyncComplete(network))
  }

  function OfSnapshot(network: Network, events: seq<SnapshotSync.Event>): seq<Enqueued> {
    seq(|events|, i requires 0 <= i < |events| =>
      match events[i] case Txs(items) => SnapshotTxs(network, items) case Complete => SyncComplete(network))
  }

  class TxSyncService {
    var syncAlarms: map<Network, Pending>
    var outbox: seq<Enqueued>

    constructor ()
      ensures syncAlarms == map[] && outbox == []
    {
      syncAlarms, outbox := map[], [];
    }

    method SendTxServiceSyncComplete(network: Network)
      modifies this`outbox
      ensures outbox == old(outbox) + [SyncComplete(network)]
    {
      outbox := outbox + [SyncComplete(network)];
    }

    /** Reading past the end of a malformed buffer raises; nothing is enqueued and no alarm is left. */
    method SendTxServiceSyncTxsFromBuffer(network: Network, buf: seq<byte>, job: BufferSync.Job, w: BufferSync.World)
        returns (raised: bool)
      modifies this
      ensures var o := BufferSync.Step(buf, job, w);
              && outbox == old(outbox) + OfBuffer(network, o.events)
              && syncAlarms == (if o.status.Running? then old(syncAlarms)[network := FromBuffer(buf, o.status.job)]
                                else old(syncAlarms) - {network})
              && raised == o.status.Crashed?
    {
      raised := false;
      syncAlarms := syncAlarms - {network};
      if !w.connected {
        return;
      }
      if !w.active {
        SendTxServiceSyncComplete(network);
        return;
      }
      var started := if job.started == 0 then w.now else job.started;
      if w.later - started < BufferSync.SENDING_TX_MSGS_TIMEOUT_S {
        var endOffset, msgs, total, done := job.offset, job.msgs, job.total, false;
        if w.ping.Some? {
          var built := BufferSync.CreateTxsServiceMsgFromBuffer(buf, job.offset, w.checks);
          if built.None? {
            return true;
          }
          endOffset, done := built.value.end, built.value.done;
          outbox := outbox + [BufferTxs(network, built.value.message)];
          msgs, total := msgs + 1, total + built.value.message.count;
        }
        if !done {
          syncAlarms := syncAlarms[network := FromBuffer(buf, BufferSync.Job(endOffset, started, msgs, total))];
        } else {
          SendTxServiceSyncComplete(network);
        }
      } else {
        SendTxServiceSyncComplete(network);
      }
    }

    method SendTxServiceSyncTxs(network: Network, syncContent: bool, job: SnapshotSync.Job, w: SnapshotSync.World)
      modifies this
      ensures var o := SnapshotSync.Step(syncContent, job, w);
              && outbox == old(outbox) + OfSnapshot(network, o.events)
              && syncAlarms == (if o.status.Running?
                                then old(syncAlarms)[network := FromSnapshot(syncContent, o.status.job)]
                                else old(syncAlarms) - {network})
    {
      syncAlarms := syncAlarms - {network};
      if !w.active {
        SendTxServiceSyncComplete(network);
        return;
      }
      var started := if job.started == 0 then w.now else job.started;
      if w.later - started < SnapshotSync.SENDING_TX_MSGS_TIMEOUT_S {
        var snap, msgs, total := job.snap, job.msgs, job.total;
        if snap != [] && w.ping.Some? {
          var items, rest := SnapshotSync.CreateTxsServiceMsg(w.lookup, syncContent, snap, w.checks);
          outbox := outbox + [SnapshotTxs(network, items)];
          snap, msgs, total := rest, msgs + 1, total + |items|;
        }
        if snap != [] {
          syncAlarms := syncAlarms[network := FromSnapshot(syncContent, SnapshotSync.Job(snap, started, msgs, total))];
        } else {
          SendTxServiceSyncComplete(network);
        }
      } else {
        SendTxServiceSyncComplete(network);
      }
    }
  }
}
