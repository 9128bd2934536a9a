/** The export parser: first-occurrence key search, digit and string scanning, and the checks
    the parsed strategy must pass. */
module ExportParse {
  import opened Numbers
  import opened ReferenceQuote
  import opened ConfigCompiler
  import opened ExportText

  datatype ImportError =
    | MissingField(field: ExportField)
    | InvalidNumber(field: ExportField)
    | InvalidString(field: ExportField)
    | UnsupportedVersion(version: u64)
    | UnsupportedMode
    | UnknownSameSlotOrder
    | Config(error: ConfigError)

  // ---- Searching ----

  /** What follows the first occurrence of a needle. */
  function After(source: string, needle: string): Option<string> {
    if needle <= source then Some(source[|needle|..])
    else if source == "" then None
    else After(source[1..], needle)
  }

  function FieldValue(source: string, field: ExportField): Result<string, ImportError> {
    match After(source, Quoted(KeyText(field)))
    case None => Err(MissingField(field))
    case Some(rest) =>
      match After(rest, ":")
      case None => Err(MissingField(field))
      case Some(value) => Ok(value)
  }

  predicate IsWhitespace(c: char) {
    c == ' ' || c == '\t' || c == '\n' || c as int == 0xc || c == '\r'
  }

  function SkipWhitespace(s: string): string {
    if s != "" && IsWhitespace(s[0]) then SkipWhitespace(s[1..]) else s
  }

  // ---- Numbers ----

  predicate IsDigit(c: char) {
    '0' <= c <= '9'
  }

  function DigitsLen(s: string): (n: nat)
    ensures n <= |s|
    ensures forall i :: 0 <= i < n ==> IsDigit(s[i])
    ensures n < |s| ==> !IsDigit(s[n])
  {
    if s != "" && IsDigit(s[0]) then 1 + DigitsLen(s[1..]) else 0
  }

  function DigitValue(c: char): (d: nat)
    requires IsDigit(c)
    ensures d < 10
  {
    c as int - '0' as int
  }

  predicate AllDigits(s: string) {
    forall i :: 0 <= i < |s| ==> IsDigit(s[i])
  }

  /** The value of a digit string, without any limit on its size. */
  function Value(s: string): nat
    requires AllDigits(s)
  {
    if s == "" then 0 else 10 * Value(s[..|s| - 1]) + DigitValue(s[|s| - 1])
  }

  function DigitsToU64(s: string): Option<u64>
    requires AllDigits(s)
  {
    if Value(s) < TWO_64 then Some(Value(s)) else None
  }

  /** The digit loop checks for overflow at every step; since later digits only make the value
      larger, it fails exactly when the whole value does not fit or a character is no digit. */
  method ParseU64Digits(value: string) returns (r: Option<u64>)
    ensures r == if AllDigits(value) then DigitsToU64(value) else None
  {
    var out: u64 := 0;
    for i := 0 to |value|
      invariant AllDigits(value[..i])
      invariant out == Value(value[..i])
    {
      if value[i] < '0' || value[i] as int - '0' as int > 9 {
        return None;
      }
      var digit := value[i] as int - '0' as int;
      assert value[..i + 1][..i] == value[..i];
      if out * 10 + digit >= TWO_64 {
        if AllDigits(value) {
          ValueOfPrefix(value, i + 1);
        }
        return None;
      }
      out := out * 10 + digit;
    }
    assert value[..|value|] == value;
    return Some(out);
  }

  lemma {:induction false} ValueOfPrefix(s: string, i: nat)
    requires i <= |s| && AllDigits(s)
    ensures Value(s[..i]) <= Value(s)
    decreases |s| - i
  {
    if i < |s| {
      assert s[..i + 1][..i] == s[..i];
      ValueOfPrefix(s, i + 1);
    } else {
      assert s[..i] == s;
    }
  }

  predicate EndsNumber(c: char) {
    c == ',' || c == '}' || c == ']' || IsWhitespace(c)
  }

  function NumberAt(value: string, field: ExportField): Result<u64, ImportError> {
    var s := SkipWhitespace(value);
    var n := DigitsLen(s);
    if n == 0 then Err(InvalidNumber(field))
    else if n < |s| && !EndsNumber(s[n]) then Err(InvalidNumber(field))
    else
      match DigitsToU64(s[..n])
      case None => Err(InvalidNumber(field))
      case Some(number) => Ok(number)
  }

  function U64Field(source: string, field: ExportField): Result<u64, ImportError> {
    var value :- FieldValue(source, field);
    NumberAt(value, field)
  }

  function U16Field(source: string, field: ExportField): Result<u16, ImportError> {
    var value :- U64Field(source, field);
    if value >= TWO_16 then Err(InvalidNumber(field)) else Ok(value)
  }

  // ---- Strings ----

  /** The length of the text before the first quote that is not escaped. */
  function ClosingQuote(s: string, escaped: bool): Option<nat> {
    if s == "" then None
    else if !escaped && s[0] == '\"' then Some(0)
    else
      match ClosingQuote(s[1..], !escaped && s[0] == '\\')
      case None => None
      case Some(n) => Some(n + 1)
  }

  method FindClosingQuote(rest: string) returns (r: Option<nat>)
    ensures r == ClosingQuote(rest, false)
  {
    var escaped := false;
    for index := 0 to |rest|
      invariant ClosingQuote(rest, false)
             == match ClosingQuote(rest[index..], escaped)
                case None => None
                case Some(n) => Some(index + n)
    {
      assert rest[index..][1..] == rest[index + 1..];
      if escaped {
        escaped := false;
      } else if rest[index] == '\\' {
        escaped := true;
      } else if rest[index] == '\"' {
        return Some(index);
      }
    }
    return None;
  }

  lemma {:induction false} ClosingQuoteInside(s: string, escaped: bool)
    ensures ClosingQuote(s, escaped).Some? ==> ClosingQuote(s, escaped).value < |s|
  {
    if s != "" {
      ClosingQuoteInside(s[1..], !escaped && s[0] == '\\');
    }
  }

  function StringAt(value: string, field: ExportField): Result<string, ImportError> {
    var s := SkipWhitespace(value);
    if s == "" || s[0] != '\"' then Err(InvalidString(field))
    else
      ClosingQuoteInside(s[1..], false);
      match ClosingQuote(s[1..], false)
      case None => Err(InvalidString(field))
      case Some(n) => Ok(s[1..][..n])
  }

  function StringField(source: string, field: ExportField): Result<string, ImportError> {
    var value :- FieldValue(source, field);
    StringAt(value, field)
  }

  // ---- The parser ----

  function ParamsField(source: string): Result<Params, ImportError> {
    var fee :- U16Field(source, FeeBps);
    var halfSpread :- U16Field(source, BaseHalfSpreadBps);
    var agingStart :- U64Field(source, AgingStartSlots);
    var protectedStart :- U64Field(source, ProtectedStartSlots);
    var expire :- U64Field(source, ExpireSlots);
    var surchargePerSlot :- U16Field(source, AgingSurchargeBpsPerSlot);
    var maxSurcharge :- U16Field(source, MaxAgingSurchargeBps);
    var maxTrade :- U64Field(source, MaxTradeBaseAtoms);
    var protectedMaxTrade :- U64Field(source, ProtectedMaxTradeBaseAtoms);
    var skewPer10k :- U16Field(source, InventorySkewBpsPer10kImbalance);
    var maxSkew :- U16Field(source, MaxInventorySkewBps);
    var hardBand :- U16Field(source, HardInventoryBandBps);
    Ok(Params(fee, halfSpread, agingStart, protectedStart, expire, surchargePerSlot, maxSurcharge, maxTrade,
              protectedMaxTrade, skewPer10k, maxSkew, hardBand))
  }

  function OrderField(source: string): Result<SameSlotOrder, ImportError> {
    var order :- StringField(source, SameSlotOrderField);
    if order == Spelling(OrderWord(UpdateBeforeSwap)) then Ok(UpdateBeforeSwap)
    else if order == Spelling(OrderWord(SwapBeforeUpdate)) then Ok(SwapBeforeUpdate)
    else Err(UnknownSameSlotOrder)
  }

  function EnvelopeField(source: string): Result<Envelope, ImportError> {
    var order :- OrderField(source);
    var maxPeriod :- U64Field(source, MaxMakerUpdatePeriodSlots);
    var maxLatency :- U64Field(source, MaxLandingLatencySlots);
    var minSuccess :- U16Field(source, MinUpdateSuccessProbabilityBps);
    Ok(Envelope(maxPeriod, maxLatency, minSuccess, order))
  }

  function Checked(r: Result<(), ConfigError>): Result<(), ImportError> {
    match r
    case Err(error) => Err(Config(error))
    case Ok(_) => Ok(())
  }

  function HeaderField(source: string): Result<(), ImportError> {
    var version :- U64Field(source, Version);
    if version != 1 then Err(UnsupportedVersion(version))
    else
      var mode :- StringField(source, Mode);
      if mode != Spelling(ReferenceQuoteWord) then Err(UnsupportedMode) else Ok(())
  }

  function ParseExport(source: string): Result<Strategy, ImportError> {
    var _ :- HeaderField(source);
    var params :- ParamsField(source);
    var _ :- Checked(ValidateParams(params));
    var envelope :- EnvelopeField(source);
    var _ :- Checked(ValidateEnvelope(envelope, params.expire));
    Ok(Strategy(params, envelope))
  }
}
