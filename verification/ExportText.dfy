/** The calibration export: the words and lines of its text, decimal numbers, escaped strings,
    and the writer that appends them. */
module ExportText {
  import opened ReferenceQuote
  import opened ConfigCompiler

  /** The fields the parser looks up. */
  datatype ExportField =
    | Version | Mode
    | FeeBps | BaseHalfSpreadBps | AgingStartSlots | ProtectedStartSlots | ExpireSlots | AgingSurchargeBpsPerSlot
    | MaxAgingSurchargeBps | MaxTradeBaseAtoms | ProtectedMaxTradeBaseAtoms | InventorySkewBpsPer10kImbalance
    | MaxInventorySkewBps | HardInventoryBandBps
    | MaxMakerUpdatePeriodSlots | MaxLandingLatencySlots | MinUpdateSuccessProbabilityBps | SameSlotOrderField

  /** Every quoted word of the export, up to the score, other than the candidate name. */
  datatype Word =
    | KeyOf(field: ExportField)
    | ReferenceQuoteWord | CandidateNameWord | WarningWord | WarningText | ParamsWord | EnvelopeWord
    | OrderWord(order: SameSlotOrder)

  function KeyText(field: ExportField): string {
    match field
    case Version => "version"
    case Mode => "mode"
    case FeeBps => "fee_bps"
    case BaseHalfSpreadBps => "base_half_spread_bps"
    case AgingStartSlots => "aging_start_slots"
    case ProtectedStartSlots => "protected_start_slots"
    case ExpireSlots => "expire_slots"
    case AgingSurchargeBpsPerSlot => "aging_surcharge_bps_per_slot"
    case MaxAgingSurchargeBps => "max_aging_surcharge_bps"
    case MaxTradeBaseAtoms => "max_trade_base_atoms"
    case ProtectedMaxTradeBaseAtoms => "protected_max_trade_base_atoms"
    case InventorySkewBpsPer10kImbalance => "inventory_skew_bps_per_10k_imbalance"
    case MaxInventorySkewBps => "max_inventory_skew_bps"
    case HardInventoryBandBps => "hard_inventory_band_bps"
    case MaxMakerUpdatePeriodSlots => "max_maker_update_period_slots"
    case MaxLandingLatencySlots => "max_landing_latency_slots"
    case MinUpdateSuccessProbabilityBps => "min_update_success_probability_bps"
    case SameSlotOrderField => "same_slot_order"
  }

  function Spelling(word: Word): string {
    match word
    case KeyOf(field) => KeyText(field)
    case ReferenceQuoteWord => "ReferenceQuote"
    case CandidateNameWord => "candidate_name"
    case WarningWord => "warning"
    case WarningText => "generated calibration output; " + "not market replay or maker edge"
    case ParamsWord => "params"
    case EnvelopeWord => "quote_update_envelope"
    case OrderWord(UpdateBeforeSwap) => "update_before_swap"
    case OrderWord(SwapBeforeUpdate) => "swap_before_update"
  }

  function Quoted(s: string): string {
    "\"" + s + "\""
  }

  // ---- Decimal numbers ----

  function Digit(d: nat): char
    requires d < 10
  {
    ('0' as int + d) as char
  }

  function Decimal(value: nat): (s: string)
    ensures s != ""
  {
    if value < 10 then [Digit(value)] else Decimal(value / 10) + [Digit(value % 10)]
  }

  // ---- Escaped strings ----

  predicate IsControl(c: char) {
    c as int < 0x20 || 0x7f <= c as int < 0xa0
  }

  function HexDigit(d: nat): char
    requires d < 16
  {
    if d < 10 then Digit(d) else ('a' as int + (d - 10)) as char
  }

  function Hex4(value: nat): string
    requires value < 0x1_0000
  {
    [HexDigit(value / 0x1000), HexDigit(value / 0x100 % 0x10), HexDigit(value / 0x10 % 0x10), HexDigit(value % 0x10)]
  }

  function EscapeChar(c: char): string {
    if c == '\"' then "\\\""
    else if c == '\\' then "\\\\"
    else if c == '\n' then "\\n"
    else if c == '\r' then "\\r"
    else if c == '\t' then "\\t"
    else if IsControl(c) then "\\u" + Hex4(c as int)
    else [c]
  }

  function Escape(s: string): string {
    if s == "" then "" else EscapeChar(s[0]) + Escape(s[1..])
  }

  lemma EscapeUnfolds(s: string)
    requires s != ""
    ensures Escape(s) == EscapeChar(s[0]) + Escape(s[1..])
  {
    hide EscapeChar;
  }

  lemma ConcatAssociates(a: string, b: string, c: string)
    ensures a + b + c == a + (b + c)
  {
  }

  lemma {:induction false} EscapeConcat(a: string, b: string)
    ensures Escape(a + b) == Escape(a) + Escape(b)
  {
    if a == "" {
      assert a + b == b;
    } else {
      EscapeUnfolds(a + b);
      EscapeUnfolds(a);
      hide Escape, EscapeChar;
      assert (a + b)[1..] == a[1..] + b;
      EscapeConcat(a[1..], b);
      ConcatAssociates(EscapeChar(a[0]), Escape(a[1..]), Escape(b));
    }
  }

  method WriteJsonString(out: string, value: string) returns (r: string)
    ensures r == out + Quoted(Escape(value))
  {
    hide EscapeChar;
    r := out + ['\"'];
    for i := 0 to |value|
      invariant r == out + "\"" + Escape(value[..i])
    {
      EscapeConcat(value[..i], [value[i]]);
      assert value[..i + 1] == value[..i] + [value[i]];
      assert Escape([value[i]]) == EscapeChar(value[i]);
      r := r + EscapeChar(value[i]);
    }
    assert value[..|value|] == value;
    r := r + ['\"'];
  }

  // ---- Lines ----

  /** A quoted word, what is written before it on its line, and what follows up to the next word. */
  datatype Item = Item(indent: string, word: Word, gap: string)

  function ItemText(item: Item): string {
    item.indent + Quoted(Spelling(item.word)) + item.gap
  }

  function Text(items: seq<Item>): string {
    if items == [] then "" else Text(items[..|items| - 1]) + ItemText(items[|items| - 1])
  }

  function NumberItem(field: ExportField, value: nat, comma: bool): Item {
    Item("    ", KeyOf(field), ": " + Decimal(value) + if comma then ",\n" else "\n")
  }

  function HeadItems(): seq<Item> {
    [Item("  ", KeyOf(Version), ": 1,\n"), Item("  ", KeyOf(Mode), ": "), Item("", ReferenceQuoteWord, ",\n"),
     Item("  ", CandidateNameWord, ": ")]
  }

  function WarningItems(): seq<Item> {
    [Item("  ", WarningWord, ": "), Item("", WarningText, ",\n"), Item("  ", ParamsWord, ": {\n")]
  }

  function ParamItems(p: Params): seq<Item> {
    [NumberItem(FeeBps, p.feeBps, true), NumberItem(BaseHalfSpreadBps, p.baseHalfSpreadBps, true),
     NumberItem(AgingStartSlots, p.agingStart, true), NumberItem(ProtectedStartSlots, p.protectedStart, true),
     NumberItem(ExpireSlots, p.expire, true), NumberItem(AgingSurchargeBpsPerSlot, p.surchargePerSlot, true),
     NumberItem(MaxAgingSurchargeBps, p.maxSurcharge, true), NumberItem(MaxTradeBaseAtoms, p.maxTrade, true),
     NumberItem(ProtectedMaxTradeBaseAtoms, p.protectedMaxTrade, true),
     NumberItem(InventorySkewBpsPer10kImbalance, p.skewPer10k, true), NumberItem(MaxInventorySkewBps, p.maxSkew, true),
     NumberItem(HardInventoryBandBps, p.hardBandBps, false)]
  }

  function EnvelopeItems(e: Envelope): seq<Item> {
    [Item("  },\n  ", EnvelopeWord, ": {\n"),
     NumberItem(MaxMakerUpdatePeriodSlots, e.maxPeriod, true), NumberItem(MaxLandingLatencySlots, e.maxLatency, true),
     NumberItem(MinUpdateSuccessProbabilityBps, e.minSuccessBps, true),
     Item("    ", KeyOf(SameSlotOrderField), ": "), Item("", OrderWord(e.order), "\n")]
  }

  function Body(strategy: Strategy): seq<Item> {
    WarningItems() + ParamItems(strategy.params) + EnvelopeItems(strategy.envelope)
  }

  /** The export of a strategy under a candidate name. `tail` stands for everything after the
      envelope: the score, the evaluation and the scenarios. */
  function Export(strategy: Strategy, name: string, tail: string): string {
    "{\n" + Text(HeadItems()) + Quoted(Escape(name)) + ",\n" + Text(Body(strategy)) + "  },\n" + tail
  }

  lemma TextAppend(items: seq<Item>, item: Item)
    ensures Text(items + [item]) == Text(items) + ItemText(item)
  {
    assert (items + [item])[..|items|] == items;
  }

  // ---- The writer ----

  /** Appends one item to a text that already holds `done` after `start`. */
  method Write(out: string, item: Item, ghost start: string, ghost done: seq<Item>) returns (r: string)
    requires out == start + Text(done)
    ensures r == start + Text(done + [item])
  {
    TextAppend(done, item);
    r := out + item.indent + Quoted(Spelling(item.word)) + item.gap;
  }

  method WriteHead(out: string) returns (r: string)
    ensures r == out + Text(HeadItems())
  {
    hide Text;
    ghost var d: seq<Item> := [];
    EmptyText();
    r := out;
    r := Write(r, Item("  ", KeyOf(Version), ": 1,\n"), out, d); d := d + [Item("  ", KeyOf(Version), ": 1,\n")];
    r := Write(r, Item("  ", KeyOf(Mode), ": "), out, d); d := d + [Item("  ", KeyOf(Mode), ": ")];
    r := Write(r, Item("", ReferenceQuoteWord, ",\n"), out, d); d := d + [Item("", ReferenceQuoteWord, ",\n")];
    r := Write(r, Item("  ", CandidateNameWord, ": "), out, d); d := d + [Item("  ", CandidateNameWord, ": ")];
    assert d == HeadItems();
  }

  lemma EmptyText()
    ensures Text([]) == ""
  {
  }

  method WriteWarning(out: string, ghost start: string, ghost done: seq<Item>) returns (r: string)
    requires out == start + Text(done)
    ensures r == start + Text(done + WarningItems())
  {
    hide Text;
    ghost var d := done;
    r := Write(out, Item("  ", WarningWord, ": "), start, d); d := d + [Item("  ", WarningWord, ": ")];
    r := Write(r, Item("", WarningText, ",\n"), start, d); d := d + [Item("", WarningText, ",\n")];
    r := Write(r, Item("  ", ParamsWord, ": {\n"), start, d); d := d + [Item("  ", ParamsWord, ": {\n")];
    assert d == done + WarningItems();
  }

  method WriteNumber(out: string, field: ExportField, value: nat, comma: bool, ghost start: string,
                     ghost done: seq<Item>)
    returns (r: string)
    requires out == start + Text(done)
    ensures r == start + Text(done + [NumberItem(field, value, comma)])
  {
    r := Write(out, NumberItem(field, value, comma), start, done);
  }

  method WriteParams(out: string, p: Params, ghost start: string, ghost done: seq<Item>) returns (r: string)
    requires out == start + Text(done)
    ensures r == start + Text(done + ParamItems(p))
  {
    hide Text, NumberItem;
    ghost var d := done;
    r := WriteNumber(out, FeeBps, p.feeBps, true, start, d);
    d := d + [NumberItem(FeeBps, p.feeBps, true)];
    r := WriteNumber(r, BaseHalfSpreadBps, p.baseHalfSpreadBps, true, start, d);
    d := d + [NumberItem(BaseHalfSpreadBps, p.baseHalfSpreadBps, true)];
    r := WriteNumber(r, AgingStartSlots, p.agingStart, true, start, d);
    d := d + [NumberItem(AgingStartSlots, p.agingStart, true)];
    r := WriteNumber(r, ProtectedStartSlots, p.protectedStart, true, start, d);
    d := d + [NumberItem(ProtectedStartSlots, p.protectedStart, true)];
    r := WriteNumber(r, ExpireSlots, p.expire, true, start, d);
    d := d + [NumberItem(ExpireSlots, p.expire, true)];
    r := WriteNumber(r, AgingSurchargeBpsPerSlot, p.surchargePerSlot, true, start, d);
    d := d + [NumberItem(AgingSurchargeBpsPerSlot, p.surchargePerSlot, true)];
    r := WriteNumber(r, MaxAgingSurchargeBps, p.maxSurcharge, true, start, d);
    d := d + [NumberItem(MaxAgingSurchargeBps, p.maxSurcharge, true)];
    r := WriteNumber(r, MaxTradeBaseAtoms, p.maxTrade, true, start, d);
    d := d + [NumberItem(MaxTradeBaseAtoms, p.maxTrade, true)];
    r := WriteNumber(r, ProtectedMaxTradeBaseAtoms, p.protectedMaxTrade, true, start, d);
    d := d + [NumberItem(ProtectedMaxTradeBaseAtoms, p.protectedMaxTrade, true)];
    r := WriteNumber(r, InventorySkewBpsPer10kImbalance, p.skewPer10k, true, start, d);
    d := d + [NumberItem(InventorySkewBpsPer10kImbalance, p.skewPer10k, true)];
    r := WriteNumber(r, MaxInventorySkewBps, p.maxSkew, true, start, d);
    d := d + [NumberItem(MaxInventorySkewBps, p.maxSkew, true)];
    r := WriteNumber(r, HardInventoryBandBps, p.hardBandBps, false, start, d);
    d := d + [NumberItem(HardInventoryBandBps, p.hardBandBps, false)];
    assert d == done + ParamItems(p);
  }

  method WriteEnvelope(out: string, e: Envelope, ghost start: string, ghost done: seq<Item>) returns (r: string)
    requires out == start + Text(done)
    ensures r == start + Text(done + EnvelopeItems(e))
  {
    hide Text, NumberItem;
    ghost var d := done;
    r := Write(out, Item("  },\n  ", EnvelopeWord, ": {\n"), start, d);
    d := d + [Item("  },\n  ", EnvelopeWord, ": {\n")];
    r := WriteNumber(r, MaxMakerUpdatePeriodSlots, e.maxPeriod, true, start, d);
    d := d + [NumberItem(MaxMakerUpdatePeriodSlots, e.maxPeriod, true)];
    r := WriteNumber(r, MaxLandingLatencySlots, e.maxLatency, true, start, d);
    d := d + [NumberItem(MaxLandingLatencySlots, e.maxLatency, true)];
    r := WriteNumber(r, MinUpdateSuccessProbabilityBps, e.minSuccessBps, true, start, d);
    d := d + [NumberItem(MinUpdateSuccessProbabilityBps, e.minSuccessBps, true)];
    r := Write(r, Item("    ", KeyOf(SameSlotOrderField), ": "), start, d);
    d := d + [Item("    ", KeyOf(SameSlotOrderField), ": ")];
    r := Write(r, Item("", OrderWord(e.order), "\n"), start, d);
    d := d + [Item("", OrderWord(e.order), "\n")];
    assert d == done + EnvelopeItems(e);
  }

  method ExportConfig(strategy: Strategy, name: string, tail: string) returns (out: string)
    ensures out == Export(strategy, name, tail)
  {
    hide Text, HeadItems, WarningItems, ParamItems, EnvelopeItems, Escape;
    out := WriteHead("{\n");
    out := WriteJsonString(out, name);
    out := out + ",\n";
    ghost var start := out;
    EmptyText();
    out := WriteWarning(out, start, []);
    out := WriteParams(out, strategy.params, start, [] + WarningItems());
    out := WriteEnvelope(out, strategy.envelope, start, [] + WarningItems() + ParamItems(strategy.params));
    assert [] + WarningItems() + ParamItems(strategy.params) + EnvelopeItems(strategy.envelope) == Body(strategy);
    out := out + "  },\n" + tail;
  }
}
