/** What the export parser accepts and what it reads, over every text: the first place a key stands,
    numbers with their terminator, strings up to their first unescaped quote, and the checks on
    the strategy they make up. */
module ExportGrammar {
  import opened Numbers
  import opened ReferenceQuote
  import opened ConfigCompiler
  import opened ExportText
  import opened ExportParse

  // ---- Searching ----

  /** The search finds the first place where the needle stands, and fails when it stands nowhere. */
  lemma {:induction false} AfterIsFirst(source: string, needle: string) returns (at: nat)
    ensures at <= |source| && forall i :: 0 <= i < at ==> !(needle <= source[i..])
    ensures match After(source, needle)
            case None => at == |source| && !(needle <= source[at..])
            case Some(rest) => needle <= source[at..] && rest == source[at + |needle|..]
  {
    assert source[0..] == source;
    if needle <= source || source == "" {
      at := 0;
    } else {
      var later := AfterIsFirst(source[1..], needle);
      at := later + 1;
      forall i | 0 <= i <= |source| - 1
        ensures source[1..][i..] == source[i + 1..]
      {
      }
      forall i | 0 <= i < at
        ensures !(needle <= source[i..])
      {
        if i > 0 {
          assert source[1..][i - 1..] == source[i..];
        }
      }
    }
  }

  // ---- Numbers ----

  const BLANKS: set<char> := {' ', '\t', '\n', 0xc as char, '\r'}

  const TERMINATORS: set<char> := {',', '}', ']'} + BLANKS

  lemma {:induction false} SkipsBlanks(s: string) returns (w: nat)
    ensures w <= |s| && SkipWhitespace(s) == s[w..]
    ensures (forall i :: 0 <= i < w ==> s[i] in BLANKS) && (w < |s| ==> s[w] !in BLANKS)
  {
    if s != "" && IsWhitespace(s[0]) {
      var later := SkipsBlanks(s[1..]);
      w := later + 1;
      assert s[1..][later..] == s[w..];
      assert forall i :: 0 < i < w ==> s[i] == s[1..][i - 1];
    } else {
      w := 0;
      assert s[0..] == s;
    }
  }

  /** Exactly which texts hold a number, and which: blanks, then at least one digit, then the end of
      the text or a terminator, the value of all the digits within 64 bits. */
  lemma NumberAtExactly(value: string, field: ExportField) returns (w: nat, n: nat)
    ensures w + n <= |value|
    ensures forall i :: 0 <= i < w ==> value[i] in BLANKS
    ensures forall i :: w <= i < w + n ==> '0' <= value[i] <= '9'
    ensures n == 0 && w < |value| ==> value[w] !in BLANKS
    ensures w + n < |value| ==> !('0' <= value[w + n] <= '9')
    ensures AllDigits(value[w..w + n])
    ensures NumberAt(value, field)
         == if n > 0 && (w + n < |value| ==> value[w + n] in TERMINATORS) && Value(value[w..w + n]) < TWO_64 then
              Ok(Value(value[w..w + n]))
            else Err(InvalidNumber(field))
  {
    w := SkipsBlanks(value);
    var s := SkipWhitespace(value);
    n := DigitsLen(s);
    hide SkipWhitespace, DigitsLen;
    assert forall i :: 0 <= i < |s| ==> s[i] == value[w + i];
    assert s[..n] == value[w..w + n];
    forall i | w <= i < w + n
      ensures '0' <= value[i] <= '9'
    {
      assert IsDigit(s[i - w]);
    }
    if n < |s| {
      assert s[n] == value[w + n] && !IsDigit(s[n]);
    }
  }

  // ---- Strings ----

  /** How many backslashes stand right before a place. */
  function Backslashes(s: string, i: nat): nat
    requires i <= |s|
  {
    if i > 0 && s[i - 1] == '\\' then 1 + Backslashes(s, i - 1) else 0
  }

  /** A character is escaped by an odd number of backslashes before it. */
  predicate Escaped(s: string, i: nat)
    requires i <= |s|
  {
    Backslashes(s, i) % 2 == 1
  }

  /** No quote from one place up to another can end a string. */
  predicate NoEnd(s: string, from: nat, to: nat)
    requires from <= to <= |s|
  {
    forall i :: from <= i < to && s[i] == '\"' ==> Escaped(s, i)
  }

  lemma {:induction false} ClosingQuoteFrom(s: string, k: nat)
    requires k <= |s|
    ensures match ClosingQuote(s[k..], Escaped(s, k))
            case None => NoEnd(s, k, |s|)
            case Some(n) => k + n < |s| && s[k + n] == '\"' && !Escaped(s, k + n) && NoEnd(s, k, k + n)
    decreases |s| - k
  {
    if k < |s| {
      assert s[k..][0] == s[k] && s[k..][1..] == s[k + 1..];
      assert Escaped(s, k + 1) == (!Escaped(s, k) && s[k] == '\\');
      ClosingQuoteFrom(s, k + 1);
    }
  }

  /** Exactly which texts hold a string, and which: blanks, a quote, and everything up to the next
      quote with an even number of backslashes before it, escapes left as they are. */
  lemma StringAtExactly(value: string, field: ExportField) returns (w: nat)
    ensures w <= |value| && (forall i :: 0 <= i < w ==> value[i] in BLANKS) && (w < |value| ==> value[w] !in BLANKS)
    ensures match StringAt(value, field)
            case Ok(text) =>
              && w < |value| && value[w] == '\"'
              && var rest := value[w + 1..];
                 && |text| < |rest| && text == rest[..|text|]
                 && rest[|text|] == '\"' && !Escaped(rest, |text|) && NoEnd(rest, 0, |text|)
            case Err(error) =>
              && error == InvalidString(field)
              && (w < |value| && value[w] == '\"' ==> NoEnd(value[w + 1..], 0, |value| - w - 1))
  {
    w := SkipsBlanks(value);
    hide SkipWhitespace, Escaped, NoEnd;
    if w < |value| && value[w] == '\"' {
      var rest := value[w + 1..];
      assert value[w..][1..] == rest && rest[0..] == rest;
      NotEscapedAtStart(rest);
      ClosingQuoteFrom(rest, 0);
      hide ClosingQuote;
    }
  }

  lemma NotEscapedAtStart(s: string)
    ensures !Escaped(s, 0)
  {
  }

  // ---- Strategies ----

  /** The twelve parameters stand in the text, each as a number of its width. */
  predicate ParamsStand(source: string, p: Params) {
    && U16Field(source, FeeBps) == Ok(p.feeBps) && U16Field(source, BaseHalfSpreadBps) == Ok(p.baseHalfSpreadBps)
    && U64Field(source, AgingStartSlots) == Ok(p.agingStart)
    && U64Field(source, ProtectedStartSlots) == Ok(p.protectedStart)
    && U64Field(source, ExpireSlots) == Ok(p.expire)
    && U16Field(source, AgingSurchargeBpsPerSlot) == Ok(p.surchargePerSlot)
    && U16Field(source, MaxAgingSurchargeBps) == Ok(p.maxSurcharge)
    && U64Field(source, MaxTradeBaseAtoms) == Ok(p.maxTrade)
    && U64Field(source, ProtectedMaxTradeBaseAtoms) == Ok(p.protectedMaxTrade)
    && U16Field(source, InventorySkewBpsPer10kImbalance) == Ok(p.skewPer10k)
    && U16Field(source, MaxInventorySkewBps) == Ok(p.maxSkew)
    && U16Field(source, HardInventoryBandBps) == Ok(p.hardBandBps)
  }

  predicate EnvelopeStands(source: string, e: Envelope) {
    && U64Field(source, MaxMakerUpdatePeriodSlots) == Ok(e.maxPeriod)
    && U64Field(source, MaxLandingLatencySlots) == Ok(e.maxLatency)
    && U16Field(source, MinUpdateSuccessProbabilityBps) == Ok(e.minSuccessBps)
    && StringField(source, SameSlotOrderField)
       == Ok(if e.order == UpdateBeforeSwap then "update_before_swap" else "swap_before_update")
  }

  /** Exactly which texts parse, and to which strategy: version 1, the reference-quote mode, every
      field in its place, and values the compiler accepts. */
  lemma ParsesExactly(source: string, strategy: Strategy)
    ensures ParseExport(source) == Ok(strategy)
            <==> && U64Field(source, Version) == Ok(1) && StringField(source, Mode) == Ok("ReferenceQuote")
                 && ParamsStand(source, strategy.params) && EnvelopeStands(source, strategy.envelope)
                 && ValidateParams(strategy.params).Ok?
                 && ValidateEnvelope(strategy.envelope, strategy.params.expire).Ok?
  {
    OrderWordsDiffer();
    hide U16Field, U64Field, StringField, ValidateParams, ValidateEnvelope;
    ParamsParse(source, strategy.params);
    EnvelopeParses(source, strategy.envelope);
    hide ParamsStand, EnvelopeStands, ParamsField, EnvelopeField;
  }

  lemma OrderWordsDiffer()
    ensures "update_before_swap" != "swap_before_update"
  {
    assert "update_before_swap"[0] != "swap_before_update"[0];
  }

  lemma ParamsParse(source: string, p: Params)
    ensures ParamsField(source) == Ok(p) <==> ParamsStand(source, p)
  {
    hide U16Field, U64Field;
  }

  lemma EnvelopeParses(source: string, e: Envelope)
    ensures EnvelopeField(source) == Ok(e) <==> EnvelopeStands(source, e)
  {
    OrderWordsDiffer();
    hide U16Field, U64Field, StringField;
  }
}
