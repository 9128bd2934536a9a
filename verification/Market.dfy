/** Order flow shared by the simulators. */
module Market {
  import opened Numbers
  import opened FixedPoint

  datatype FlowSide = BaseToQuote | QuoteToBase

  datatype FlowEvent = FlowEvent(slot: u64, side: FlowSide, amountIn: u64, fairPrice: u128)

  function SaturatingAddI128(x: int, y: int): int {
    Clamp(x + y, -TWO_127, TWO_127 - 1)
  }

  /** The fee of an order, in quote atoms at the fair price. */
  function FeeInQuote(event: FlowEvent, amountInLessFee: u64): Result<u64, MathError> {
    var fee := SaturatingSub(event.amountIn, amountInLessFee);
    match event.side
    case BaseToQuote => MulAmountFloor(event.fairPrice, fee)
    case QuoteToBase => Ok(fee)
  }

  /** How much better than the fair price the taker did, in quote atoms. */
  function TakerEdge(event: FlowEvent, amountOut: u64): Result<int, MathError> {
    match event.side
    case BaseToQuote =>
      var fairOut :- MulAmountFloor(event.fairPrice, event.amountIn);
      Ok(amountOut - fairOut)
    case QuoteToBase =>
      var fairOut :- DivAmountFloor(event.fairPrice, event.amountIn);
      var edge := amountOut - fairOut;
      var size :- MulAmountFloor(event.fairPrice, Abs(edge));
      Ok(if edge >= 0 then size else 0 - size)
  }

  /** A fee is what an order pays in but does not trade: as it is when the order pays quote, at
      the fair price rounded down when it pays base. */
  lemma FeeMeaning(event: FlowEvent, net: u64)
    requires net <= event.amountIn
    ensures match FeeInQuote(event, net)
            case Ok(fee) =>
              if event.side == QuoteToBase then fee + net == event.amountIn
              else fee * Q64 <= event.fairPrice * (event.amountIn - net) < fee * Q64 + Q64
            case Err(error) =>
              && error == Overflow && event.side == BaseToQuote
              && TWO_64 * Q64 <= event.fairPrice * (event.amountIn - net)
  {
    if event.side == BaseToQuote {
      MulAmountMeaning(event.fairPrice, event.amountIn - net);
      hide MulAmountFloor;
    }
  }

  /** The edge of a taker against the fair price. A seller is compared in quote with the fair
      proceeds rounded down; a buyer with the fair base rounded down, the difference taken to
      quote at the fair price, rounded toward zero. It is always less than 2^64 in size. */
  lemma EdgeMeaning(event: FlowEvent, amountOut: u64) returns (fairOut: u64)
    requires TakerEdge(event, amountOut).Ok?
    ensures var edge := TakerEdge(event, amountOut).value;
            && -TWO_64 < edge < TWO_64
            && (if event.side == BaseToQuote then
                  && fairOut * Q64 <= event.fairPrice * event.amountIn < fairOut * Q64 + Q64
                  && edge == amountOut - fairOut
                else
                  && fairOut * event.fairPrice <= event.amountIn * Q64 < fairOut * event.fairPrice + event.fairPrice
                  && (if amountOut >= fairOut then edge >= 0 else edge <= 0)
                  && Abs(edge) * Q64 <= event.fairPrice * Abs(amountOut - fairOut) < Abs(edge) * Q64 + Q64)
  {
    if event.side == BaseToQuote {
      MulAmountMeaning(event.fairPrice, event.amountIn);
      fairOut := MulAmountFloor(event.fairPrice, event.amountIn).value;
    } else {
      DivAmountMeaning(event.fairPrice, event.amountIn);
      fairOut := DivAmountFloor(event.fairPrice, event.amountIn).value;
      MulAmountMeaning(event.fairPrice, Abs(amountOut - fairOut));
    }
    hide MulAmountFloor, DivAmountFloor;
  }
}
