/**
 Price signals: reading the price and the epoch out of the call data of a Chainlink `transmit`, laid out as the
 Contract ABI Specification says, and the epochs accepted per aggregator.
 */
module Transmissions {

  import opened Basics
  import opened ByteBuffers

  type Bytes = seq<byte>

  const TRANSMIT_FUNC_SIG: Bytes := [0xc9, 0x80, 0x75, 0x39]

  datatype Error = CallDataError | UnknownSignature | PriceTooLow | NoReportContext | StaleReport | NoObservations

  datatype Result<+T> = Ok(value: T) | Err(error: Error)

  datatype Tx = Tx(to: string, input: Bytes, gasPrice: Option<int>, maxFeePerGas: int)

  /** The latest epoch accepted from each aggregator. */
  type Epochs = map<string, nat>

  /** The epochs after a transaction, and the price it reports. */
  datatype Parsed = Parsed(epochs: Epochs, price: Result<nat>)

  // ----- Big-endian numbers -----

  function FromBytes(b: Bytes): nat {
    if b == [] then 0 else 256 * FromBytes(b[..|b| - 1]) + b[|b| - 1]
  }

  function ToBytes(n: nat, width: nat): (b: Bytes)
    ensures |b| == width
  {
    if width == 0 then [] else ToBytes(n / 256, width - 1) + [n % 256]
  }

  /** `front` raised by `unit`, then `behind`. */
  ghost predicate Joins(joined: int, front: int, unit: int, behind: int) {
    joined == front * unit + behind
  }

  lemma JoinsByte(joined: int, front: int, unit: int, behind: int, last: int, more: int, next: int, bigger: int)
    requires Joins(joined, front, unit, behind)
    requires more == 256 * joined + last && next == 256 * behind + last && bigger == 256 * unit
    ensures Joins(more, front, bigger, next)
  {
    assert front * bigger == 256 * (front * unit);
  }

  lemma FromBytesSnoc(b: Bytes, x: byte)
    ensures FromBytes(b + [x]) == 256 * FromBytes(b) + x
  {
    assert (b + [x])[..|b|] == b;
  }

  lemma {:induction false} FromBytesJoins(a: Bytes, b: Bytes)
    ensures Joins(FromBytes(a + b), FromBytes(a), Pow256(|b|), FromBytes(b))
    decreases |b|
  {
    if b == [] {
      assert a + b == a;
    } else {
      var n, front := |b| - 1, b[..|b| - 1];
      assert a + b == a + front + [b[n]] && b == front + [b[n]];
      FromBytesJoins(a, front);
      FromBytesSnoc(a + front, b[n]);
      FromBytesSnoc(front, b[n]);
      JoinsByte(FromBytes(a + front), FromBytes(a), Pow256(n), FromBytes(front), b[n],
                FromBytes(a + b), FromBytes(b), Pow256(|b|));
    }
  }

  /** Most significant byte first: a single byte is its own value, and each byte behind raises what is in front. */
  lemma FromBytesConcat(a: Bytes, b: Bytes)
    ensures FromBytes(a + b) == FromBytes(a) * Pow256(|b|) + FromBytes(b)
    ensures |b| == 1 ==> FromBytes(b) == b[0]
  {
    FromBytesJoins(a, b);
  }

  lemma {:induction false} FromBytesInverts(n: nat, width: nat)
    requires n < Pow256(width)
    ensures FromBytes(ToBytes(n, width)) == n
  {
    if width > 0 {
      FromBytesInverts(n / 256, width - 1);
      assert ToBytes(n, width)[..width - 1] == ToBytes(n / 256, width - 1);
    }
  }

  lemma {:induction false} Pow256Grows(a: nat, b: nat)
    requires a <= b
    ensures 0 < Pow256(a) <= Pow256(b)
    decreases b
  {
    if b == 0 {
    } else if a == b {
      Pow256Grows(a - 1, b - 1);
    } else {
      Pow256Grows(a, b - 1);
    }
  }

  // ----- Parsing -----

  /** The price a transaction pays for gas. */
  function SignalGasPrice(tx: Tx): int {
    if tx.gasPrice.Some? then tx.gasPrice.value else tx.maxFeePerGas
  }

  /** Where the report's content starts in the data after the selector: its offset, past its length word. */
  function ReportStart(data: Bytes): nat {
    FromBytes(Slice(data, 0, 32)) + 32
  }

  /** The last bytes of the report context, all of them when they are fewer. */
  function LastFive(ctx: Bytes): Bytes {
    if |ctx| < 5 then ctx else ctx[|ctx| - 5..]
  }

  function EpochOf(epochs: Epochs, aggregator: string): nat {
    if aggregator in epochs then epochs[aggregator] else 0
  }

  /** The words from `at` on, as unsigned numbers. */
  function Words(data: Bytes, at: nat, count: nat): (ws: seq<nat>)
    ensures |ws| == count
    decreases count
  {
    if count == 0 then [] else [FromBytes(Slice(data, at, at + 32))] + Words(data, at + 32, count - 1)
  }

  function Observations(data: Bytes): seq<nat> {
    var offset := ReportStart(data);
    Words(data, offset + 128, FromBytes(Slice(data, offset + 96, offset + 128)))
  }

  function Middle(ws: seq<nat>): Result<nat> {
    if ws == [] then Err(NoObservations) else Ok(ws[|ws| / 2])
  }

  /** What is checked before the data is looked at. */
  function Refusal(tx: Tx, localGasPrice: int): Option<Error> {
    if |tx.input| <= 4 then Some(CallDataError)
    else if tx.input[..4] != TRANSMIT_FUNC_SIG then Some(UnknownSignature)
    else if 9 * localGasPrice > 10 * SignalGasPrice(tx) then Some(PriceTooLow)
    else None
  }

  /** `tx_filter_and_parsing`. */
  function Parse(epochs: Epochs, tx: Tx, localGasPrice: int): Parsed {
    var refusal := Refusal(tx, localGasPrice);
    if refusal.Some? then Parsed(epochs, Err(refusal.value))
    else
      var data := tx.input[4..];
      var ctx := Slice(data, ReportStart(data), ReportStart(data) + 32);
      if ctx == [] then Parsed(epochs, Err(NoReportContext))
      else
        var epoch := FromBytes(LastFive(ctx));
        if EpochOf(epochs, tx.to) > epoch then Parsed(epochs, Err(StaleReport))
        else Parsed(epochs[tx.to := epoch], Middle(Observations(data)))
  }

  // ----- Encoding -----

  /** A 256-bit word; negative numbers are written in two's complement. */
  function Unsigned(v: int): int {
    if v < 0 then v + Pow256(32) else v
  }

  predicate Int192(v: int) {
    0 <= 2 * v + Pow256(24) < 2 * Pow256(24)
  }

  function Word(n: nat): Bytes {
    ToBytes(n, 32)
  }

  predicate AllInt192(vs: seq<int>) {
    forall i :: 0 <= i < |vs| ==> Int192(vs[i])
  }

  lemma UnsignedFits(v: int)
    requires Int192(v)
    ensures 0 <= Unsigned(v) < Pow256(32)
  {
    Pow256Grows(24, 32);
  }

  function Unsigneds(vs: seq<int>): (ns: seq<nat>)
    requires AllInt192(vs)
    ensures |ns| == |vs| && forall i :: 0 <= i < |vs| ==> ns[i] == Unsigned(vs[i])
  {
    if vs == [] then []
    else
      UnsignedFits(vs[0]);
      [Unsigned(vs[0])] + Unsigneds(vs[1..])
  }

  /** The words of a list of int192. */
  function IntWords(vs: seq<int>): (b: Bytes)
    requires AllInt192(vs)
    ensures |b| == 32 * |vs|
  {
    if vs == [] then []
    else
      UnsignedFits(vs[0]);
      Word(Unsigned(vs[0])) + IntWords(vs[1..])
  }

  /** The encoding of (bytes32 rawReportContext, bytes32 rawObservers, int192[] observations). */
  function Report(ctx: Bytes, observers: Bytes, vs: seq<int>): Bytes
    requires AllInt192(vs)
  {
    ctx + (observers + (Word(96) + (Word(|vs|) + IntWords(vs))))
  }

  function Flat(words: seq<Bytes>): Bytes {
    if words == [] then [] else words[0] + Flat(words[1..])
  }

  /** The encoding of (bytes report, bytes32[] rs, bytes32[] ss, bytes32 vs): four heads, then three tails. */
  function TransmitData(report: Bytes, rs: seq<Bytes>, ss: seq<Bytes>, v: Bytes): Bytes {
    Word(128)
    + (Word(160 + |report|) + Word(192 + |report| + |Flat(rs)|) + v
       + (Word(|report|) + report + (Word(|rs|) + Flat(rs) + Word(|ss|) + Flat(ss))))
  }

  // ----- Parsing inverts encoding -----

  /** The first word points at a report anywhere in the data, whatever else the data holds. */
  ghost predicate PointsAtReport(data: Bytes, at: nat, length: nat, ctx: Bytes, observers: Bytes, vs: seq<int>)
    requires AllInt192(vs)
  {
    && at < Pow256(32) && |vs| < Pow256(32) && |ctx| == 32 && |observers| == 32
    && Holds(data, 0, Word(at))
    && Holds(data, at, Word(length) + Report(ctx, observers, vs))
  }

  lemma SliceHeld(buf: Bytes, offset: nat, part: Bytes, end: nat)
    requires Holds(buf, offset, part) && end == offset + |part|
    ensures Slice(buf, offset, end) == part
  {
  }

  lemma WordRead(buf: Bytes, offset: nat, n: nat, end: nat)
    requires n < Pow256(32) && Holds(buf, offset, Word(n)) && end == offset + 32
    ensures FromBytes(Slice(buf, offset, end)) == n
  {
    SliceHeld(buf, offset, Word(n), end);
    FromBytesInverts(n, 32);
  }

  lemma NextWord(data: Bytes, at: nat, next: nat, first: nat, rest: seq<nat>, count: nat)
    requires FromBytes(Slice(data, at, next)) == first && next == at + 32
    requires Words(data, next, |rest|) == rest && count == |rest| + 1
    ensures Words(data, at, count) == [first] + rest
  {
  }

  /** An array of words is read back, each as an unsigned number. */
  lemma {:induction false} WordsRead(data: Bytes, at: nat, vs: seq<int>, count: nat)
    requires AllInt192(vs) && Holds(data, at, IntWords(vs)) && count == |vs|
    ensures Words(data, at, count) == Unsigneds(vs)
    decreases |vs|
  {
    if vs != [] {
      UnsignedFits(vs[0]);
      HoldsParts(data, at, Word(Unsigned(vs[0])), IntWords(vs[1..]));
      WordRead(data, at, Unsigned(vs[0]), at + 32);
      WordsRead(data, at + 32, vs[1..], |vs[1..]|);
      NextWord(data, at, at + 32, Unsigned(vs[0]), Unsigneds(vs[1..]), count);
    }
  }

  /** The four parts of a report and where they start. */
  lemma ReportParts(data: Bytes, at: nat, ctx: Bytes, observers: Bytes, vs: seq<int>)
    requires AllInt192(vs) && |ctx| == 32 && |observers| == 32
    requires Holds(data, at, Report(ctx, observers, vs))
    ensures Holds(data, at, ctx) && Holds(data, at + 96, Word(|vs|)) && Holds(data, at + 128, IntWords(vs))
  {
    var tail2 := Word(|vs|) + IntWords(vs);
    HoldsParts(data, at, ctx, observers + (Word(96) + tail2));
    HoldsParts(data, at + 32, observers, Word(96) + tail2);
    HoldsParts(data, at + 64, Word(96), tail2);
    HoldsParts(data, at + 96, Word(|vs|), IntWords(vs));
  }

  lemma ContextRead(data: Bytes, start: nat, end: nat, ctx: Bytes, observers: Bytes, vs: seq<int>)
    requires AllInt192(vs) && |ctx| == 32 && |observers| == 32 && Holds(data, start, Report(ctx, observers, vs))
    requires end == start + 32
    ensures Slice(data, start, end) == ctx
  {
    ReportParts(data, start, ctx, observers, vs);
    SliceHeld(data, start, ctx, end);
  }

  lemma ObservationsAre(data: Bytes, start: nat, lengthAt: nat, wordsAt: nat, count: nat)
    requires start == ReportStart(data) && lengthAt == start + 96 && wordsAt == start + 128
    requires FromBytes(Slice(data, lengthAt, wordsAt)) == count
    ensures Observations(data) == Words(data, wordsAt, count)
  {
  }

  lemma ArrayRead(data: Bytes, start: nat, lengthAt: nat, wordsAt: nat, vs: seq<int>, count: nat)
    requires AllInt192(vs) && count == |vs| < Pow256(32)
    requires start == ReportStart(data) && lengthAt == start + 96 && wordsAt == start + 128
    requires Holds(data, lengthAt, Word(count)) && Holds(data, wordsAt, IntWords(vs))
    ensures Observations(data) == Unsigneds(vs)
  {
    WordRead(data, lengthAt, count, wordsAt);
    ObservationsAre(data, start, lengthAt, wordsAt, count);
    WordsRead(data, wordsAt, vs, count);
  }

  lemma StartRead(data: Bytes, at: nat, length: nat, ctx: Bytes, observers: Bytes, vs: seq<int>)
    requires AllInt192(vs) && PointsAtReport(data, at, length, ctx, observers, vs)
    ensures ReportStart(data) == at + 32 && Holds(data, ReportStart(data), Report(ctx, observers, vs))
  {
    WordRead(data, 0, at, 32);
    HoldsParts(data, at, Word(length), Report(ctx, observers, vs));
  }

  lemma ReportRead(data: Bytes, at: nat, length: nat, ctx: Bytes, observers: Bytes, vs: seq<int>)
    requires AllInt192(vs) && PointsAtReport(data, at, length, ctx, observers, vs)
    ensures Slice(data, ReportStart(data), ReportStart(data) + 32) == ctx
    ensures Observations(data) == Unsigneds(vs)
  {
    var start := ReportStart(data);
    StartRead(data, at, length, ctx, observers, vs);
    ContextRead(data, start, start + 32, ctx, observers, vs);
    ReportParts(data, start, ctx, observers, vs);
    ArrayRead(data, start, start + 96, start + 128, vs, |vs|);
  }

  lemma ParseWithReport(epochs: Epochs, tx: Tx, localGasPrice: int, data: Bytes, start: nat, ctx: Bytes, ws: seq<nat>)
    requires |tx.input| > 4 && tx.input[..4] == TRANSMIT_FUNC_SIG && data == tx.input[4..]
    requires start == ReportStart(data) && Slice(data, start, start + 32) == ctx && |ctx| == 32
    requires ws == Observations(data)
    ensures var epoch := FromBytes(ctx[27..]);
            Parse(epochs, tx, localGasPrice)
            == if 9 * localGasPrice > 10 * SignalGasPrice(tx) then Parsed(epochs, Err(PriceTooLow))
               else if EpochOf(epochs, tx.to) > epoch then Parsed(epochs, Err(StaleReport))
               else Parsed(epochs[tx.to := epoch], Middle(ws))
  {
  }

  /**
   Three kinds of call are refused before the report is looked at: one without arguments, one of another function, and
   one that pays less than nine tenths of the local gas price. None of them changes an epoch.
   */
  lemma RefusedIff(epochs: Epochs, tx: Tx, localGasPrice: int)
    ensures var r := Parse(epochs, tx, localGasPrice);
            var foreign := |tx.input| > 4 && tx.input[..4] != [0xc9, 0x80, 0x75, 0x39];
            var paid := if tx.gasPrice.Some? then tx.gasPrice.value else tx.maxFeePerGas;
            && (r.price == Err(CallDataError) <==> |tx.input| <= 4)
            && (r.price == Err(UnknownSignature) <==> foreign)
            && (r.price == Err(PriceTooLow) <==> |tx.input| > 4 && !foreign && 9 * localGasPrice > 10 * paid)
            && (r.epochs != epochs ==> |tx.input| > 4 && !foreign && 9 * localGasPrice <= 10 * paid)
  {
  }

  /** A call that is not refused lacks its report context exactly when its first word points past the data. */
  lemma NoReportContextIff(epochs: Epochs, tx: Tx, localGasPrice: int)
    requires |tx.input| > 4 && tx.input[..4] == [0xc9, 0x80, 0x75, 0x39]
    requires 9 * localGasPrice <= 10 * if tx.gasPrice.Some? then tx.gasPrice.value else tx.maxFeePerGas
    ensures var r := Parse(epochs, tx, localGasPrice);
            var data := tx.input[4..];
            var at := FromBytes(if |data| < 32 then data else data[..32]);
            && (r.price == Err(NoReportContext) <==> at + 32 >= |data|)
            && (r.price == Err(NoReportContext) ==> r.epochs == epochs)
  {
    var data := tx.input[4..];
    assert Slice(data, 0, 32) == if |data| < 32 then data else data[..32];
  }

  /**
   A call that points at a report is priced exactly when it pays enough for gas, is not stale and reports at least
   one observation; the price is the middle one, unless that is negative, and the epoch is the end of the context.
   */
  lemma ParseInvertsEncoding(epochs: Epochs, tx: Tx, localGasPrice: int,
                             at: nat, length: nat, ctx: Bytes, observers: Bytes, vs: seq<int>)
    requires |tx.input| > 4 && tx.input[..4] == [0xc9, 0x80, 0x75, 0x39]
    requires AllInt192(vs) && PointsAtReport(tx.input[4..], at, length, ctx, observers, vs)
    ensures var r := Parse(epochs, tx, localGasPrice);
            var paid := if tx.gasPrice.Some? then tx.gasPrice.value else tx.maxFeePerGas;
            var known := if tx.to in epochs then epochs[tx.to] else 0;
            var epoch := FromBytes(ctx[27..]);
            && r.epochs == (if 9 * localGasPrice <= 10 * paid && known <= epoch then epochs[tx.to := epoch] else epochs)
            && (r.price == Err(PriceTooLow) <==> 9 * localGasPrice > 10 * paid)
            && (r.price == Err(StaleReport) <==> 9 * localGasPrice <= 10 * paid && known > epoch)
            && (r.price == Err(NoObservations) <==> 9 * localGasPrice <= 10 * paid && known <= epoch && vs == [])
            && (r.price.Ok? <==> 9 * localGasPrice <= 10 * paid && known <= epoch && vs != [])
            && (r.price.Ok? ==> r.price.value == Unsigned(vs[|vs| / 2]))
            && (r.price.Ok? ==> (r.price.value == vs[|vs| / 2] <==> vs[|vs| / 2] >= 0))
  {
    var data := tx.input[4..];
    ReportRead(data, at, length, ctx, observers, vs);
    ParseWithReport(epochs, tx, localGasPrice, data, ReportStart(data), ctx, Observations(data));
    Pow256Grows(0, 32);
  }

  lemma HoldsBehind(data: Bytes, at: Bytes, heads: Bytes, first: Bytes, rest: Bytes)
    requires data == at + (heads + (first + rest))
    ensures Holds(data, 0, at) && Holds(data, |at| + |heads|, first)
  {
    assert Holds(data, 0, data);
    HoldsParts(data, 0, at, heads + (first + rest));
    HoldsParts(data, |at|, heads, first + rest);
    HoldsParts(data, |at| + |heads|, first, rest);
  }

  /** A transmit call as a Solidity caller encodes it points at its report. */
  lemma EncoderPointsAtReport(ctx: Bytes, observers: Bytes, vs: seq<int>, rs: seq<Bytes>, ss: seq<Bytes>, v: Bytes)
    requires AllInt192(vs) && |vs| < Pow256(32) && |ctx| == 32 && |observers| == 32 && |v| == 32
    ensures var report := Report(ctx, observers, vs);
            PointsAtReport(TransmitData(report, rs, ss, v), 128, |report|, ctx, observers, vs)
  {
    var report := Report(ctx, observers, vs);
    var heads := Word(160 + |report|) + Word(192 + |report| + |Flat(rs)|) + v;
    HoldsBehind(TransmitData(report, rs, ss, v), Word(128), heads, Word(|report|) + report,
                Word(|rs|) + Flat(rs) + Word(|ss|) + Flat(ss));
    Pow256Grows(1, 32);
    assert Pow256(1) == 256;
  }

  /**
   So parsing inverts the encoder, for any number of observations, if and only if the middle one is not negative; a
   negative one is read as the unsigned number with the same bytes.
   */
  lemma RoundTrip(epochs: Epochs, tx: Tx, localGasPrice: int,
                  ctx: Bytes, observers: Bytes, vs: seq<int>, rs: seq<Bytes>, ss: seq<Bytes>, v: Bytes)
    requires AllInt192(vs) && 0 < |vs| < Pow256(32) && |ctx| == 32 && |observers| == 32 && |v| == 32
    requires tx.input == TRANSMIT_FUNC_SIG + TransmitData(Report(ctx, observers, vs), rs, ss, v)
    requires 9 * localGasPrice <= 10 * SignalGasPrice(tx) && EpochOf(epochs, tx.to) <= FromBytes(ctx[27..])
    ensures var r, middle := Parse(epochs, tx, localGasPrice), vs[|vs| / 2];
            && r.epochs == epochs[tx.to := FromBytes(ctx[27..])] && r.price.Ok?
            && (r.price.value == middle <==> middle >= 0)
            && (middle < 0 ==> r.price.value == Pow256(32) + middle)
  {
    var report := Report(ctx, observers, vs);
    assert tx.input[..4] == TRANSMIT_FUNC_SIG && tx.input[4..] == TransmitData(report, rs, ss, v);
    EncoderPointsAtReport(ctx, observers, vs, rs, ss, v);
    ParseInvertsEncoding(epochs, tx, localGasPrice, 128, |report|, ctx, observers, vs);
  }

  // ----- Epochs over runs -----

  datatype Signal = Signal(tx: Tx, localGasPrice: int)

  function Run(epochs: Epochs, signals: seq<Signal>): Epochs
    decreases |signals|
  {
    if signals == [] then epochs
    else Run(Parse(epochs, signals[0].tx, signals[0].localGasPrice).epochs, signals[1..])
  }

  /** No transaction, well formed or not, lowers an epoch or touches that of another aggregator. */
  lemma ParseKeepsEpochs(epochs: Epochs, tx: Tx, localGasPrice: int, aggregator: string)
    ensures EpochOf(epochs, aggregator) <= EpochOf(Parse(epochs, tx, localGasPrice).epochs, aggregator)
    ensures aggregator != tx.to ==>
              EpochOf(Parse(epochs, tx, localGasPrice).epochs, aggregator) == EpochOf(epochs, aggregator)
  {
  }

  lemma {:induction false} RunKeepsEpochs(epochs: Epochs, signals: seq<Signal>, aggregator: string)
    ensures EpochOf(epochs, aggregator) <= EpochOf(Run(epochs, signals), aggregator)
    decreases |signals|
  {
    if signals != [] {
      var next := Parse(epochs, signals[0].tx, signals[0].localGasPrice).epochs;
      ParseKeepsEpochs(epochs, signals[0].tx, signals[0].localGasPrice, aggregator);
      RunKeepsEpochs(next, signals[1..], aggregator);
    }
  }

  lemma {:induction false} RunSplits(epochs: Epochs, a: seq<Signal>, b: seq<Signal>)
    ensures Run(epochs, a + b) == Run(Run(epochs, a), b)
    decreases |a|
  {
    if a == [] {
      assert a + b == b;
    } else {
      assert (a + b)[1..] == a[1..] + b;
      RunSplits(Parse(epochs, a[0].tx, a[0].localGasPrice).epochs, a[1..], b);
    }
  }

  /** The epoch accepted from an aggregator never decreases between two moments of a run. */
  lemma EpochsNeverDecrease(epochs: Epochs, signals: seq<Signal>, i: nat, j: nat, aggregator: string)
    requires i <= j <= |signals|
    ensures EpochOf(Run(epochs, signals[..i]), aggregator) <= EpochOf(Run(epochs, signals[..j]), aggregator)
  {
    assert signals[..j] == signals[..i] + signals[i..j];
    RunSplits(epochs, signals[..i], signals[i..j]);
    RunKeepsEpochs(Run(epochs, signals[..i]), signals[i..j], aggregator);
  }
}
