/** The parser as the program runs it. */
module PriceSignals {

  import opened ByteBuffers
  import opened Transmissions

  class Signals {
    var signalsEpoch: Epochs

    constructor ()
      ensures signalsEpoch == map[]
    {
      signalsEpoch := map[];
    }

    method TxFilterAndParsing(tx: Tx, gasPrice: int) returns (price: Result<nat>)
      modifies this
      ensures Parsed(signalsEpoch, price) == Parse(old(signalsEpoch), tx, gasPrice)
    {
      if |tx.input| <= 4 {
        return Err(CallDataError);
      }
      if tx.input[..4] != TRANSMIT_FUNC_SIG {
        return Err(UnknownSignature);
      }
      var p := tx.maxFeePerGas;
      if tx.gasPrice.Some? {
        p := tx.gasPrice.value;
      }
      if 9 * gasPrice > 10 * p {
        return Err(PriceTooLow);
      }
      var data := tx.input[4..];
      var offset := FromBytes(Slice(data, 0, 32)) + 32;
      var rawReportCtx := Slice(data, offset, offset + 32);
      if rawReportCtx == [] {
        return Err(NoReportContext);
      }
      var signalEpoch := FromBytes(LastFive(rawReportCtx));
      if EpochOf(signalsEpoch, tx.to) > signalEpoch {
        return Err(StaleReport);
      }
      signalsEpoch := signalsEpoch[tx.to := signalEpoch];
      var arrayArgs := ReadObservations(data, offset);
      if arrayArgs == [] {
        return Err(NoObservations);
      }
      price := Ok(arrayArgs[|arrayArgs| / 2]);
    }
  }

  /** Reads the array length, then one word after the other. */
  method ReadObservations(data: Bytes, offset: nat) returns (arrayArgs: seq<nat>)
    ensures arrayArgs == Words(data, offset + 128, FromBytes(Slice(data, offset + 96, offset + 128)))
  {
    var arrayLength := FromBytes(Slice(data, offset + 32 * 3, offset + 32 * 4));
    var offsetNext := offset + 32 * 4;
    arrayArgs := [];
    for i := 0 to arrayLength
      invariant offsetNext == offset + 128 + 32 * i
      invariant arrayArgs + Words(data, offsetNext, arrayLength - i) == Words(data, offset + 128, arrayLength)
    {
      arrayArgs := arrayArgs + [FromBytes(Slice(data, offsetNext, offsetNext + 32))];
      offsetNext := offsetNext + 32;
    }
  }
}
