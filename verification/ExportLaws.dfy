/** The export round trip: exactly which candidate names let the parser give back the strategy
    that was written. */
module ExportLaws {
  import opened Numbers
  import opened ReferenceQuote
  import opened ConfigCompiler
  import opened ExportText
  import opened ExportParse

  // ---- Words ----

  predicate IsKeyChar(c: char) {
    'a' <= c <= 'z' || '0' <= c <= '9' || c == '_'
  }

  predicate KeyLike(s: string) {
    s != "" && 'a' <= s[0] <= 'z' && forall i :: 0 <= i < |s| ==> IsKeyChar(s[i])
  }

  lemma ShortKeys()
    ensures KeyLike("version") && KeyLike("mode") && KeyLike("fee_bps") && KeyLike("base_half_spread_bps")
    ensures KeyLike("aging_start_slots") && KeyLike("protected_start_slots") && KeyLike("expire_slots")
    ensures KeyLike("same_slot_order") && KeyLike("max_trade_base_atoms")
  {
  }

  lemma LongKeys()
    ensures KeyLike("aging_surcharge_bps_per_slot") && KeyLike("max_aging_surcharge_bps")
    ensures KeyLike("max_inventory_skew_bps") && KeyLike("hard_inventory_band_bps")
  {
  }

  lemma LongerKeys()
    ensures KeyLike("protected_max_trade_base_atoms")
    ensures KeyLike("max_maker_update_period_slots") && KeyLike("max_landing_latency_slots")
  {
  }

  lemma LongestKeys()
    ensures KeyLike("inventory_skew_bps_per_10k_imbalance") && KeyLike("min_update_success_probability_bps")
  {
  }

  lemma KeysAreKeyLike(field: ExportField)
    ensures KeyLike(KeyText(field))
  {
    ShortKeys();
    LongKeys();
    LongerKeys();
    LongestKeys();
    hide KeyLike;
  }

  /** No quote and no backslash. */
  predicate Plain(s: string) {
    forall i :: 0 <= i < |s| ==> s[i] != '\"' && s[i] != '\\'
  }

  lemma OtherWordsArePlain()
    ensures Plain("ReferenceQuote") && Plain("candidate_name") && Plain("warning") && Plain("params")
    ensures Plain("generated calibration output; ") && Plain("not market replay or maker edge")
    ensures Plain("quote_update_envelope") && Plain("update_before_swap") && Plain("swap_before_update")
  {
  }

  lemma PlainConcat(a: string, b: string)
    requires Plain(a) && Plain(b)
    ensures Plain(a + b)
  {
  }

  lemma WordsArePlain(word: Word)
    ensures Plain(Spelling(word))
  {
    OtherWordsArePlain();
    if word.KeyOf? {
      hide KeyText;
      KeysAreKeyLike(word.field);
    } else {
      PlainConcat("generated calibration output; ", "not market replay or maker edge");
      hide Plain;
    }
  }

  /** Length and first letter tell all words apart. */
  function Shape(word: Word): (int, char) {
    match word
    case KeyOf(Version) => (7, 'v')
    case KeyOf(Mode) => (4, 'm')
    case KeyOf(FeeBps) => (7, 'f')
    case KeyOf(BaseHalfSpreadBps) => (20, 'b')
    case KeyOf(AgingStartSlots) => (17, 'a')
    case KeyOf(ProtectedStartSlots) => (21, 'p')
    case KeyOf(ExpireSlots) => (12, 'e')
    case KeyOf(AgingSurchargeBpsPerSlot) => (28, 'a')
    case KeyOf(MaxAgingSurchargeBps) => (23, 'm')
    case KeyOf(MaxTradeBaseAtoms) => (20, 'm')
    case KeyOf(ProtectedMaxTradeBaseAtoms) => (30, 'p')
    case KeyOf(InventorySkewBpsPer10kImbalance) => (36, 'i')
    case KeyOf(MaxInventorySkewBps) => (22, 'm')
    case KeyOf(HardInventoryBandBps) => (23, 'h')
    case KeyOf(MaxMakerUpdatePeriodSlots) => (29, 'm')
    case KeyOf(MaxLandingLatencySlots) => (25, 'm')
    case KeyOf(MinUpdateSuccessProbabilityBps) => (34, 'm')
    case KeyOf(SameSlotOrderField) => (15, 's')
    case ReferenceQuoteWord => (14, 'R')
    case CandidateNameWord => (14, 'c')
    case WarningWord => (7, 'w')
    case WarningText => (61, 'g')
    case ParamsWord => (6, 'p')
    case EnvelopeWord => (21, 'q')
    case OrderWord(UpdateBeforeSwap) => (18, 'u')
    case OrderWord(SwapBeforeUpdate) => (18, 's')
  }

  lemma ShapeOfKey(field: ExportField)
    ensures KeyText(field) != "" && Shape(KeyOf(field)) == (|KeyText(field)|, KeyText(field)[0])
  {
  }

  lemma ShapeOfSpelling(word: Word)
    ensures Spelling(word) != "" && Shape(word) == (|Spelling(word)|, Spelling(word)[0])
  {
    if word.KeyOf? {
      ShapeOfKey(word.field);
      hide KeyText, Shape;
    }
  }

  lemma WordsDiffer(v: Word, w: Word)
    requires v != w
    ensures Spelling(v) != Spelling(w)
  {
    ShapeOfSpelling(v);
    ShapeOfSpelling(w);
    hide Spelling;
  }

  // ---- Searching past text ----

  predicate QuoteFree(s: string) {
    forall i :: 0 <= i < |s| ==> s[i] != '\"'
  }

  lemma {:induction false} SkipPlain(p: string, s: string, key: string)
    requires QuoteFree(p)
    ensures After(p + s, Quoted(key)) == After(s, Quoted(key))
  {
    if p == "" {
      assert p + s == s;
    } else {
      assert Quoted(key)[0] == '\"' && (p + s)[0] == p[0];
      assert (p + s)[1..] == p[1..] + s;
      SkipPlain(p[1..], s, key);
    }
  }

  /** A needle matches at a quote exactly when the quoted word there is the key. */
  lemma MatchAtQuote(w: string, s: string, key: string)
    requires QuoteFree(w) && QuoteFree(key)
    ensures Quoted(key) <= Quoted(w) + s <==> w == key
  {
    var t, needle := Quoted(w) + s, Quoted(key);
    if |key| < |w| {
      assert t[1 + |key|] == w[|key|] && needle[1 + |key|] == '\"';
    } else if |w| < |key| {
      assert needle[1 + |w|] == key[|w|] && t[1 + |w|] == '\"';
    } else {
      assert t[1..1 + |w|] == w && needle[1..1 + |w|] == key && t[..|needle|] == Quoted(w);
    }
  }

  lemma Hit(s: string, key: string)
    ensures After(Quoted(key) + s, Quoted(key)) == Some(s)
  {
    assert (Quoted(key) + s)[|Quoted(key)|..] == s;
  }

  /** A different word is skipped up to its closing quote. */
  lemma MissWord(w: string, s: string, key: string)
    requires QuoteFree(w) && QuoteFree(key) && w != key
    ensures After(Quoted(w) + s, Quoted(key)) == After("\"" + s, Quoted(key))
  {
    MatchAtQuote(w, s, key);
    assert (Quoted(w) + s)[1..] == w + ("\"" + s);
    AfterStep(Quoted(w) + s, Quoted(key));
    SkipPlain(w, "\"" + s, key);
  }

  lemma AfterStep(s: string, needle: string)
    requires s != "" && !(needle <= s)
    ensures After(s, needle) == After(s[1..], needle)
  {
  }

  /** A closing quote followed by anything but a letter starts no match. */
  lemma SkipClosingQuote(gap: string, s: string, key: string)
    requires QuoteFree(gap) && gap != "" && KeyLike(key) && !('a' <= gap[0] <= 'z')
    ensures After("\"" + (gap + s), Quoted(key)) == After(s, Quoted(key))
  {
    var t := "\"" + (gap + s);
    assert t[1] == gap[0] && Quoted(key)[1] == key[0];
    assert t[1..] == gap + s;
    AfterStep(t, Quoted(key));
    SkipPlain(gap, s, key);
  }

  // ---- Searching past items ----

  predicate WellFormed(item: Item) {
    QuoteFree(item.indent) && QuoteFree(item.gap) && item.gap != "" && !('a' <= item.gap[0] <= 'z')
  }

  lemma SkipItem(item: Item, s: string, field: ExportField)
    requires WellFormed(item) && item.word != KeyOf(field)
    ensures After(ItemText(item) + s, Quoted(KeyText(field))) == After(s, Quoted(KeyText(field)))
  {
    var key, w := KeyText(field), Spelling(item.word);
    KeysAreKeyLike(field);
    WordsArePlain(item.word);
    WordsDiffer(item.word, KeyOf(field));
    assert key == Spelling(KeyOf(field));
    hide KeyText, Spelling, After, ItemText, Quoted;
    SplitItem(item, s);
    SkipPlain(item.indent, Quoted(w) + (item.gap + s), key);
    MissWord(w, item.gap + s, key);
    SkipClosingQuote(item.gap, s, key);
  }

  lemma {:induction false} SkipItems(items: seq<Item>, s: string, field: ExportField)
    requires forall k :: 0 <= k < |items| ==> WellFormed(items[k]) && items[k].word != KeyOf(field)
    ensures After(Text(items) + s, Quoted(KeyText(field))) == After(s, Quoted(KeyText(field)))
  {
    hide After, WellFormed, ItemText;
    if items == [] {
      assert Text(items) + s == s;
    } else {
      var init, last := items[..|items| - 1], items[|items| - 1];
      assert Text(items) + s == Text(init) + (ItemText(last) + s);
      SkipItems(init, ItemText(last) + s, field);
      SkipItem(last, s, field);
    }
  }

  lemma {:induction false} TextConcat(a: seq<Item>, b: seq<Item>)
    ensures Text(a + b) == Text(a) + Text(b)
  {
    hide Text, ItemText;
    if b == [] {
      EmptyText();
      assert a + b == a;
    } else {
      var init, last := b[..|b| - 1], b[|b| - 1];
      TextConcat(a, init);
      assert b == init + [last] && a + b == (a + init) + [last];
      TextAppend(init, last);
      TextAppend(a + init, last);
      ConcatAssociates(Text(a), Text(init), ItemText(last));
    }
  }

  lemma SplitSequence<T>(s: seq<T>, i: nat)
    requires i < |s|
    ensures s == s[..i] + [s[i]] + s[i + 1..]
  {
  }

  lemma SplitText(items: seq<Item>, i: nat)
    requires i < |items|
    ensures Text(items) == Text(items[..i]) + (ItemText(items[i]) + Text(items[i + 1..]))
  {
    hide Text, ItemText;
    var before, item, rest := items[..i], items[i], items[i + 1..];
    SplitSequence(items, i);
    TextAppend(before, item);
    TextConcat(before + [item], rest);
    ConcatAssociates(Text(before), ItemText(item), Text(rest));
  }

  lemma SplitItem(item: Item, rest: string)
    ensures ItemText(item) + rest == item.indent + (Quoted(Spelling(item.word)) + (item.gap + rest))
  {
    hide Quoted, Spelling;
    ConcatAssociates(item.indent + Quoted(Spelling(item.word)), item.gap, rest);
    ConcatAssociates(item.indent, Quoted(Spelling(item.word)), item.gap + rest);
  }

  /** The first item with a key's word is what the search finds. */
  lemma FindItem(items: seq<Item>, i: nat, s: string, field: ExportField)
    requires i < |items| && items[i].word == KeyOf(field)
    requires forall k :: 0 <= k <= i ==> WellFormed(items[k])
    requires forall k :: 0 <= k < i ==> items[k].word != KeyOf(field)
    ensures After(Text(items) + s, Quoted(KeyText(field))) == Some(items[i].gap + (Text(items[i + 1..]) + s))
  {
    var item := items[i];
    assert WellFormed(item);
    SplitText(items, i);
    hide After, Text, KeyText, Quoted, ItemText;
    var key, rest := KeyText(field), Text(items[i + 1..]) + s;
    ConcatAssociates(Text(items[..i]), ItemText(item) + Text(items[i + 1..]), s);
    ConcatAssociates(ItemText(item), Text(items[i + 1..]), s);
    SkipItems(items[..i], ItemText(item) + rest, field);
    SplitItem(item, rest);
    SkipPlain(item.indent, Quoted(key) + (item.gap + rest), key);
    Hit(item.gap + rest, key);
  }

  // ---- Searching past the candidate name ----

  function FirstQuote(s: string): (n: nat)
    ensures n <= |s|
    ensures QuoteFree(s[..n]) && (n < |s| ==> s[n] == '\"')
  {
    if s == "" || s[0] == '\"' then 0
    else
      assert forall n :: 0 <= n <= |s| - 1 ==> s[..n + 1] == [s[0]] + s[1..][..n];
      1 + FirstQuote(s[1..])
  }

  /** What comes after the last double quote of a name: all of it when it has none. */
  function LastPart(name: string): string {
    var n := FirstQuote(name);
    if n == |name| then name else LastPart(name[n + 1..])
  }

  lemma EscapedCharacter(c: char)
    requires c != '\"'
    ensures EscapeChar(c) != "" && QuoteFree(EscapeChar(c))
    ensures EscapeChar(c) == [c] || EscapeChar(c)[0] == '\\'
    ensures IsKeyChar(c) ==> EscapeChar(c) == [c]
    ensures c == '\\' ==> EscapeChar(c)[0] == '\\'
  {
    if IsControl(c) {
      var h := Hex4(c as int);
      hide IsControl;
      assert forall d: nat :: d < 16 ==> HexDigit(d) != '\"';
    }
  }

  lemma {:induction false} EscapeHasNoQuote(s: string)
    requires QuoteFree(s)
    ensures QuoteFree(Escape(s))
  {
    hide EscapeChar;
    if s != "" {
      EscapedCharacter(s[0]);
      EscapeHasNoQuote(s[1..]);
    }
  }

  /** Only a key itself is written as that key. */
  lemma {:induction false} EscapesToKey(name: string, key: string)
    requires QuoteFree(name) && forall i :: 0 <= i < |key| ==> IsKeyChar(key[i])
    ensures Escape(name) == key <==> name == key
  {
    hide EscapeChar;
    if name != "" {
      EscapeUnfolds(name);
      EscapedCharacter(name[0]);
      if key == "" {
        assert |Escape(name)| > 0;
      } else {
        EscapesToKey(name[1..], key[1..]);
        hide Escape;
        var first, rest := EscapeChar(name[0]), Escape(name[1..]);
        if Escape(name) == key {
          assert first[0] == key[0];
          assert first == [name[0]] && rest == key[1..];
          assert name == [name[0]] + name[1..] && key == [key[0]] + key[1..];
        }
        if name == key {
          assert first == [key[0]] && rest == key[1..];
          assert first + rest == key;
        }
      }
    }
  }

  /** Past a name, the search either stops right behind it, when its last part is the key, or
      goes on from its closing quote. */
  lemma {:induction false} SearchName(name: string, s: string, key: string)
    requires KeyLike(key)
    ensures After(Quoted(Escape(name)) + s, Quoted(key))
         == if LastPart(name) == key then Some(s) else After("\"" + s, Quoted(key))
    decreases |name|
  {
    hide Escape, After, LastPart, FirstQuote;
    var n := FirstQuote(name);
    var part := name[..n];
    EscapeHasNoQuote(part);
    LastPartSteps(name);
    if n == |name| {
      assert part == name;
      EscapesToKey(name, key);
      SearchWord(Escape(name), s, key);
    } else {
      var after, w := name[n + 1..], Escape(part) + "\\";
      SearchName(after, s, key);
      EscapeAtQuote(name, n);
      EscapedQuote(Escape(part), Escape(after), s);
      EndsInBackslash(w, key);
      SearchWord(w, Escape(after) + "\"" + s, key);
    }
  }

  lemma EndsInBackslash(w: string, key: string)
    requires w != "" && w[|w| - 1] == '\\' && KeyLike(key)
    ensures w != key
  {
  }

  lemma EscapedQuote(a: string, b: string, s: string)
    ensures Quoted(a + "\\\"" + b) + s == Quoted(a + "\\") + (b + "\"" + s)
    ensures "\"" + (b + "\"" + s) == Quoted(b) + s
  {
  }

  lemma LastPartSteps(name: string)
    ensures var n := FirstQuote(name); LastPart(name) == if n == |name| then name else LastPart(name[n + 1..])
  {
    hide FirstQuote;
  }

  lemma EscapeAtQuote(name: string, n: nat)
    requires n < |name| && name[n] == '\"'
    ensures Escape(name) == Escape(name[..n]) + "\\\"" + Escape(name[n + 1..])
  {
    var before, quote, after := name[..n], [name[n]], name[n + 1..];
    assert Escape(quote) == "\\\"";
    SplitSequence(name, n);
    hide Escape;
    ConcatAssociates(before, quote, after);
    EscapeConcat(before, quote + after);
    EscapeConcat(quote, after);
    ConcatAssociates(Escape(before), Escape(quote), Escape(after));
  }

  /** A word that has no quote inside, possibly with backslashes. */
  lemma SearchWord(w: string, s: string, key: string)
    requires QuoteFree(w) && KeyLike(key)
    ensures After(Quoted(w) + s, Quoted(key)) == if w == key then Some(s) else After("\"" + s, Quoted(key))
  {
    if w == key {
      Hit(s, key);
    } else {
      MissWord(w, s, key);
    }
  }

  // ---- Reading numbers and strings back ----

  lemma {:induction false} DecimalReadsBack(value: nat)
    ensures AllDigits(Decimal(value)) && Value(Decimal(value)) == value
  {
    if value >= 10 {
      DecimalReadsBack(value / 10);
      var s := Decimal(value);
      assert s[..|s| - 1] == Decimal(value / 10) && s[|s| - 1] == Digit(value % 10);
    } else {
      assert Decimal(value)[..0] == "";
    }
  }

  lemma {:induction false} DigitsEnd(digits: string, rest: string)
    requires AllDigits(digits) && (rest == "" || !IsDigit(rest[0]))
    ensures DigitsLen(digits + rest) == |digits|
  {
    if digits == "" {
      assert digits + rest == rest;
    } else {
      assert (digits + rest)[1..] == digits[1..] + rest;
      DigitsEnd(digits[1..], rest);
    }
  }

  /** A written 64-bit number reads back, whatever follows its line. */
  lemma NumberReadsBack(value: u64, end: char, rest: string, field: ExportField)
    requires EndsNumber(end)
    ensures NumberAt(" " + Decimal(value) + [end] + rest, field) == Ok(value)
  {
    hide Decimal, Value, EndsNumber;
    DecimalReadsBack(value);
    var digits := Decimal(value);
    var line := digits + ([end] + rest);
    assert " " + digits + [end] + rest == " " + line && (" " + line)[1..] == line;
    assert IsDigit(digits[0]) && line[0] == digits[0];
    NoDigitEnds(end);
    DigitsEnd(digits, [end] + rest);
    assert SkipWhitespace(" " + line) == line;
    assert line[|digits|] == end && line[..|digits|] == digits;
  }

  lemma NoDigitEnds(end: char)
    requires EndsNumber(end)
    ensures !IsDigit(end)
  {
  }

  lemma {:induction false} ClosingQuoteFound(w: string, rest: string)
    requires Plain(w)
    ensures ClosingQuote(w + "\"" + rest, false) == Some(|w|)
  {
    var s := w + "\"" + rest;
    if w != "" {
      ClosingQuoteFound(w[1..], rest);
      assert s[1..] == w[1..] + "\"" + rest;
    }
  }

  lemma StringReadsBack(word: Word, rest: string, field: ExportField)
    ensures StringAt(" " + Quoted(Spelling(word)) + rest, field) == Ok(Spelling(word))
    ensures NumberAt(" " + Quoted(Spelling(word)) + rest, field) == Err(InvalidNumber(field))
  {
    WordsArePlain(word);
    var w := Spelling(word);
    hide Spelling;
    var t := Quoted(w) + rest;
    assert " " + Quoted(w) + rest == " " + t && (" " + t)[1..] == t;
    assert t[1..] == w + "\"" + rest;
    ClosingQuoteFound(w, rest);
    assert SkipWhitespace(" " + t) == t;
    assert t[1..][..|w|] == w;
  }

  lemma {:induction false} SkipToColon(p: string, rest: string)
    requires forall i :: 0 <= i < |p| ==> p[i] != ':'
    ensures After(p + ":" + rest, ":") == Some(rest)
  {
    var s := p + ":" + rest;
    if p == "" {
      assert s[1..] == rest;
    } else {
      assert s[0] == p[0] && s[1..] == p[1..] + ":" + rest;
      SkipToColon(p[1..], rest);
    }
  }

  // ---- The fields of an export ----

  /** The place of every word in the body of an export. */
  function Rank(word: Word): nat {
    match word
    case WarningWord => 0
    case WarningText => 1
    case ParamsWord => 2
    case KeyOf(FeeBps) => 3
    case KeyOf(BaseHalfSpreadBps) => 4
    case KeyOf(AgingStartSlots) => 5
    case KeyOf(ProtectedStartSlots) => 6
    case KeyOf(ExpireSlots) => 7
    case KeyOf(AgingSurchargeBpsPerSlot) => 8
    case KeyOf(MaxAgingSurchargeBps) => 9
    case KeyOf(MaxTradeBaseAtoms) => 10
    case KeyOf(ProtectedMaxTradeBaseAtoms) => 11
    case KeyOf(InventorySkewBpsPer10kImbalance) => 12
    case KeyOf(MaxInventorySkewBps) => 13
    case KeyOf(HardInventoryBandBps) => 14
    case EnvelopeWord => 15
    case KeyOf(MaxMakerUpdatePeriodSlots) => 16
    case KeyOf(MaxLandingLatencySlots) => 17
    case KeyOf(MinUpdateSuccessProbabilityBps) => 18
    case KeyOf(SameSlotOrderField) => 19
    case OrderWord(_) => 20
    case _ => 21
  }

  lemma NumberItemWellFormed(field: ExportField, value: nat, comma: bool)
    ensures WellFormed(NumberItem(field, value, comma))
  {
    DecimalReadsBack(value);
    hide Decimal, Value;
    var gap := NumberItem(field, value, comma).gap;
    assert gap == ": " + Decimal(value) + if comma then ",\n" else "\n";
  }

  lemma WarningItemsInOrder()
    ensures var w := WarningItems(); |w| == 3 && forall k :: 0 <= k < 3 ==> WellFormed(w[k]) && Rank(w[k].word) == k
  {
  }

  lemma ParamItemsInOrder(p: Params)
    ensures var w := ParamItems(p);
            |w| == 12 && forall k :: 0 <= k < 12 ==> WellFormed(w[k]) && Rank(w[k].word) == k + 3
  {
    hide WellFormed, Decimal;
    var w := ParamItems(p);
    forall k | 0 <= k < 12
      ensures WellFormed(w[k]) && Rank(w[k].word) == k + 3
    {
      ParamItemAt(p, k);
    }
  }

  lemma ParamItemAt(p: Params, k: nat)
    requires k < 12
    ensures WellFormed(ParamItems(p)[k]) && Rank(ParamItems(p)[k].word) == k + 3
  {
    hide WellFormed, Decimal;
    var w := ParamItems(p);
    var field := w[k].word.field;
    assert exists value: nat, comma :: w[k] == NumberItem(field, value, comma);
    var value: nat, comma :| w[k] == NumberItem(field, value, comma);
    NumberItemWellFormed(field, value, comma);
  }

  lemma EnvelopeItemsInOrder(e: Envelope)
    ensures var w := EnvelopeItems(e);
            |w| == 6 && forall k :: 0 <= k < 6 ==> WellFormed(w[k]) && Rank(w[k].word) == k + 15
  {
    NumberItemWellFormed(MaxMakerUpdatePeriodSlots, e.maxPeriod, true);
    NumberItemWellFormed(MaxLandingLatencySlots, e.maxLatency, true);
    NumberItemWellFormed(MinUpdateSuccessProbabilityBps, e.minSuccessBps, true);
    hide NumberItem;
    assert WellFormed(Item("  },\n  ", EnvelopeWord, ": {\n"))
        && WellFormed(Item("    ", KeyOf(SameSlotOrderField), ": "))
        && WellFormed(Item("", OrderWord(e.order), "\n"));
    hide WellFormed;
    assert Rank(NumberItem(MaxMakerUpdatePeriodSlots, e.maxPeriod, true).word) == 16;
  }

  lemma HeadItemsWellFormed()
    ensures forall k :: 0 <= k < |HeadItems()| ==> WellFormed(HeadItems()[k])
  {
  }

  lemma BodyInOrder(strategy: Strategy)
    ensures var b := Body(strategy); |b| == 21 && forall k :: 0 <= k < 21 ==> WellFormed(b[k]) && Rank(b[k].word) == k
  {
    WarningItemsInOrder();
    ParamItemsInOrder(strategy.params);
    EnvelopeItemsInOrder(strategy.envelope);
    hide WarningItems, ParamItems, EnvelopeItems, WellFormed, Rank;
  }

  lemma RankIsOwn(v: Word, w: Word)
    requires v.KeyOf? && Rank(v) < 20 && Rank(v) == Rank(w)
    ensures v == w
  {
  }

  /** The fields the parser looks for behind the candidate name. */
  predicate Searched(field: ExportField) {
    field != Version && field != Mode
  }

  /** The candidate name hides a field when the search for its key stops inside the name. */
  predicate Hides(name: string, field: ExportField) {
    Searched(field) && LastPart(name) == KeyText(field)
  }

  lemma ExportShape(strategy: Strategy, name: string, tail: string)
    ensures Export(strategy, name, tail)
         == "{\n" + (Text(HeadItems()) + (Quoted(Escape(name)) + (",\n" + (Text(Body(strategy)) + ("  },\n" + tail)))))
  {
    hide Text, HeadItems, Quoted, Escape, Body;
    Reassociate("{\n", Text(HeadItems()), Quoted(Escape(name)), ",\n", Text(Body(strategy)), "  },\n", tail);
  }

  lemma Reassociate(a: string, b: string, c: string, d: string, e: string, f: string, g: string)
    ensures a + b + c + d + e + f + g == a + (b + (c + (d + (e + (f + g)))))
  {
  }

  /** Where the search for a field behind the name stops. */
  lemma FieldFound(strategy: Strategy, name: string, tail: string, field: ExportField)
    requires Searched(field)
    ensures var b, i, end := Body(strategy), Rank(KeyOf(field)), "  },\n" + tail;
            && i < |b| && b[i].word == KeyOf(field)
            && After(Export(strategy, name, tail), Quoted(KeyText(field)))
               == Some(if Hides(name, field) then ",\n" + (Text(b) + end) else b[i].gap + (Text(b[i + 1..]) + end))
  {
    var b, i, end, key := Body(strategy), Rank(KeyOf(field)), "  },\n" + tail, KeyText(field);
    BodyInOrder(strategy);
    RankIsOwn(KeyOf(field), b[i].word);
    HeadItemsWellFormed();
    HeadHasOnly(field);
    KeysAreKeyLike(field);
    ExportShape(strategy, name, tail);
    assert forall k :: 0 <= k < i ==> b[k].word != KeyOf(field);
    hide After, Text, Body, Quoted, Escape, LastPart, KeyText, WellFormed, KeyLike, HeadItems, Rank, Export;
    var afterName := ",\n" + (Text(b) + end);
    var fromName := Quoted(Escape(name)) + afterName;
    SkipPlain("{\n", Text(HeadItems()) + fromName, key);
    SkipItems(HeadItems(), fromName, field);
    SearchName(name, afterName, key);
    SkipClosingQuote(",\n", Text(b) + end, key);
    FindItem(b, i, end, field);
  }

  lemma HeadHasOnly(field: ExportField)
    requires Searched(field)
    ensures forall k :: 0 <= k < |HeadItems()| ==> HeadItems()[k].word != KeyOf(field)
  {
  }

  /** Behind a name that hides a field, the next value is the warning. */
  lemma NextValueIsWarning(strategy: Strategy, end: string)
    ensures After(",\n" + (Text(Body(strategy)) + end), ":")
         == Some(" " + Quoted(Spelling(WarningText)) + (",\n" + (Text(Body(strategy)[2..]) + end)))
  {
    hide Body, Text, After, ItemText, Spelling, Quoted;
    var b, text := Body(strategy), Quoted(Spelling(WarningText));
    WarningStarts(strategy);
    SplitText(b, 0);
    SplitText(b[1..], 0);
    assert b[..0] == [] && b[1..][..0] == [] && b[0 + 1..] == b[1..] && b[1..][0 + 1..] == b[2..];
    EmptyText();
    var rest := ",\n" + (Text(b[2..]) + end);
    WarningLine(Text(b), Text(b[2..]), text, end);
    SkipToColon(",\n  \"warning\"", " " + text + rest);
  }

  lemma WarningStarts(strategy: Strategy)
    ensures var b := Body(strategy);
            && |b| >= 2 && ItemText(b[0]) == "  " + Quoted("warning") + ": "
            && ItemText(b[1]) == Quoted(Spelling(WarningText)) + ",\n"
  {
    var b := Body(strategy);
    assert b[0] == Item("  ", WarningWord, ": ") && b[1] == Item("", WarningText, ",\n");
    hide Body;
    var text := Spelling(WarningText);
    assert Spelling(WarningWord) == "warning";
    hide Spelling;
    assert "" + Quoted(text) == Quoted(text);
  }

  lemma WarningLine(body: string, tail: string, text: string, end: string)
    requires body == "" + ("  " + Quoted("warning") + ": " + ("" + (text + ",\n" + tail)))
    ensures ",\n" + (body + end) == ",\n  \"warning\"" + ":" + (" " + text + (",\n" + (tail + end)))
  {
  }

  /** A field is read from behind the first colon after its key. */
  lemma ReadBehindColon(source: string, field: ExportField, found: string, value: string)
    requires After(source, Quoted(KeyText(field))) == Some(found) && After(found, ":") == Some(value)
    ensures U64Field(source, field) == NumberAt(value, field) && StringField(source, field) == StringAt(value, field)
  {
    hide After, NumberAt, StringAt, KeyText, Quoted;
  }

  lemma NumberGap(digits: string, comma: bool, rest: string)
    ensures ": " + digits + (if comma then ",\n" else "\n") + rest
         == "" + ":" + (" " + digits + [if comma then ',' else '\n'] + ((if comma then "\n" else "") + rest))
  {
  }

  /** Behind a name that hides a field, the parser reads the warning in its place. */
  lemma HiddenFieldReads(strategy: Strategy, name: string, tail: string, field: ExportField)
    requires Hides(name, field)
    ensures U64Field(Export(strategy, name, tail), field) == Err(InvalidNumber(field))
    ensures StringField(Export(strategy, name, tail), field) == Ok(Spelling(WarningText))
  {
    var b, end, source := Body(strategy), "  },\n" + tail, Export(strategy, name, tail);
    FieldFound(strategy, name, tail, field);
    hide Body, Export, Rank, KeyText, Text, LastPart, NumberAt, StringAt, Quoted, Spelling, After, U64Field,
         StringField;
    NextValueIsWarning(strategy, end);
    BodyLength(strategy);
    var rest := ",\n" + (Text(b[2..]) + end);
    ReadBehindColon(source, field, ",\n" + (Text(b) + end), " " + Quoted(Spelling(WarningText)) + rest);
    StringReadsBack(WarningText, rest, field);
  }

  lemma BodyLength(strategy: Strategy)
    ensures |Body(strategy)| == 21
  {
    BodyInOrder(strategy);
  }

  /** A number field gives back its value, unless the name hides it. */
  lemma NumberFieldReads(strategy: Strategy, name: string, tail: string, field: ExportField, value: u64, comma: bool)
    requires Searched(field) && Rank(KeyOf(field)) < |Body(strategy)|
    requires Body(strategy)[Rank(KeyOf(field))] == NumberItem(field, value, comma)
    ensures U64Field(Export(strategy, name, tail), field)
         == if Hides(name, field) then Err(InvalidNumber(field)) else Ok(value)
  {
    if Hides(name, field) {
      hide Export, U64Field, StringField, Hides;
      HiddenFieldReads(strategy, name, tail, field);
    } else {
      var b, i, end, source := Body(strategy), Rank(KeyOf(field)), "  },\n" + tail, Export(strategy, name, tail);
      FieldFound(strategy, name, tail, field);
      hide Body, Export, Rank, KeyText, Text, LastPart, NumberAt, Decimal, Quoted, Spelling, After, U64Field,
           StringField, Hides;
      var rest := Text(b[i + 1..]) + end;
      NumberGap(Decimal(value), comma, rest);
      var last := if comma then ',' else '\n';
      var line := " " + Decimal(value) + [last] + ((if comma then "\n" else "") + rest);
      SkipToColon("", line);
      ReadBehindColon(source, field, b[i].gap + rest, line);
      NumberReadsBack(value, last, (if comma then "\n" else "") + rest, field);
    }
  }

  lemma OrderStringReads(strategy: Strategy, name: string, tail: string)
    requires !Hides(name, SameSlotOrderField)
    ensures StringField(Export(strategy, name, tail), SameSlotOrderField)
         == Ok(Spelling(OrderWord(strategy.envelope.order)))
  {
    var field, order, end := SameSlotOrderField, OrderWord(strategy.envelope.order), "  },\n" + tail;
    var b, i, source := Body(strategy), Rank(KeyOf(field)), Export(strategy, name, tail);
    FieldFound(strategy, name, tail, field);
    OrderItemPlaces(strategy);
    hide Body, Export, KeyText, LastPart, StringAt, NumberAt, Spelling, Text, Quoted, After, U64Field, StringField,
         ItemText, Hides;
    LastItemText(b, i + 1);
    hide Rank;
    var line := " " + Quoted(Spelling(order)) + ("\n" + end);
    OrderGap(order, end);
    SkipToColon("", line);
    ReadBehindColon(source, field, b[i].gap + (Text(b[i + 1..]) + end), line);
    StringReadsBack(order, "\n" + end, field);
  }

  lemma OrderFromWord(source: string, word: Word)
    requires word == WarningText || word.OrderWord?
    requires StringField(source, SameSlotOrderField) == Ok(Spelling(word))
    ensures OrderField(source) == if word == WarningText then Err(UnknownSameSlotOrder) else Ok(word.order)
  {
    hide Spelling, StringField;
    WordsDiffer(WarningText, OrderWord(UpdateBeforeSwap));
    WordsDiffer(WarningText, OrderWord(SwapBeforeUpdate));
    WordsDiffer(OrderWord(UpdateBeforeSwap), OrderWord(SwapBeforeUpdate));
    match word
    case OrderWord(UpdateBeforeSwap) =>
    case OrderWord(SwapBeforeUpdate) =>
    case _ =>
  }

  /** The same-slot order reads back, unless the name hides it. */
  lemma OrderFieldReads(strategy: Strategy, name: string, tail: string)
    ensures OrderField(Export(strategy, name, tail))
         == if Hides(name, SameSlotOrderField) then Err(UnknownSameSlotOrder) else Ok(strategy.envelope.order)
  {
    hide StringField, Spelling, Export, Hides, OrderField, U64Field;
    if Hides(name, SameSlotOrderField) {
      HiddenFieldReads(strategy, name, tail, SameSlotOrderField);
      OrderFromWord(Export(strategy, name, tail), WarningText);
    } else {
      OrderStringReads(strategy, name, tail);
      OrderFromWord(Export(strategy, name, tail), OrderWord(strategy.envelope.order));
    }
  }

  lemma OrderItemPlaces(strategy: Strategy)
    ensures var b, e := Body(strategy), strategy.envelope;
            && |b| == 21 && b[19].gap == ": " && b[20] == Item("", OrderWord(e.order), "\n")
            && b[16] == NumberItem(MaxMakerUpdatePeriodSlots, e.maxPeriod, true)
            && b[17] == NumberItem(MaxLandingLatencySlots, e.maxLatency, true)
            && b[18] == NumberItem(MinUpdateSuccessProbabilityBps, e.minSuccessBps, true)
  {
    hide NumberItem;
    var b, w := Body(strategy), EnvelopeItems(strategy.envelope);
    assert |WarningItems()| == 3 && |ParamItems(strategy.params)| == 12 && |w| == 6;
    assert forall k :: 15 <= k < 21 ==> b[k] == w[k - 15];
  }

  lemma OrderGap(order: Word, end: string)
    ensures ": " + (ItemText(Item("", order, "\n")) + end) == "" + ":" + (" " + Quoted(Spelling(order)) + ("\n" + end))
  {
    hide Spelling;
  }

  lemma LastItemText(items: seq<Item>, i: nat)
    requires i + 1 == |items|
    ensures Text(items[i..]) == ItemText(items[i])
  {
    hide Text, ItemText;
    assert items[i..] == [] + [items[i]];
    TextAppend([], items[i]);
    EmptyText();
  }

  /** The version is written before the name and always reads back. */
  lemma VersionReads(strategy: Strategy, name: string, tail: string)
    ensures U64Field(Export(strategy, name, tail), Version) == Ok(1)
  {
    var source, h := Export(strategy, name, tail), HeadItems();
    HeaderFound(strategy, name, tail, Version);
    assert h[0].gap == ": 1,\n" && Decimal(1) == "1";
    var rest := Text(h[1..]) + (Quoted(Escape(name)) + (",\n" + (Text(Body(strategy)) + ("  },\n" + tail))));
    hide Export, Text, After, HeadItems, KeyText, Quoted, Escape, Body, U64Field, StringField;
    NumberGap("1", true, rest);
    var line := " " + "1" + [','] + ("\n" + rest);
    assert ": " + "1" + ",\n" == ": 1,\n";
    SkipToColon("", line);
    ReadBehindColon(source, Version, h[0].gap + rest, line);
    NumberReadsBack(1, ',', "\n" + rest, Version);
  }

  lemma ModeReads(strategy: Strategy, name: string, tail: string)
    ensures StringField(Export(strategy, name, tail), Mode) == Ok(Spelling(ReferenceQuoteWord))
  {
    var source, h := Export(strategy, name, tail), HeadItems();
    HeaderFound(strategy, name, tail, Mode);
    assert |h| == 4 && h[1].gap == ": " && h[2] == Item("", ReferenceQuoteWord, ",\n");
    assert h[2..][0] == h[2] && h[2..][..0] == [] && |h[2..]| == 2;
    hide HeadItems, Export, Text;
    SplitText(h[2..], 0);
    EmptyText();
    var more := Quoted(Escape(name)) + (",\n" + (Text(Body(strategy)) + ("  },\n" + tail)));
    var after := Text(h[2..][1..]);
    hide After, KeyText, Spelling, StringAt, Quoted, Escape, Body, U64Field, StringField, ItemText;
    var line := " " + Quoted(Spelling(ReferenceQuoteWord)) + (",\n" + (after + more));
    ModeGap(after, more);
    SkipToColon("", line);
    ReadBehindColon(source, Mode, ": " + (Text(h[2..]) + more), line);
    StringReadsBack(ReferenceQuoteWord, ",\n" + (after + more), Mode);
  }

  lemma ModeGap(after: string, more: string)
    ensures var item := Item("", ReferenceQuoteWord, ",\n");
            ": " + ("" + (ItemText(item) + after) + more)
            == "" + ":" + (" " + Quoted(Spelling(ReferenceQuoteWord)) + (",\n" + (after + more)))
  {
    hide Spelling;
  }

  lemma HeaderReads(strategy: Strategy, name: string, tail: string)
    ensures HeaderField(Export(strategy, name, tail)) == Ok(())
  {
    VersionReads(strategy, name, tail);
    ModeReads(strategy, name, tail);
    hide Export, U64Field, StringField;
  }

  lemma HeaderFound(strategy: Strategy, name: string, tail: string, field: ExportField)
    requires !Searched(field)
    ensures var i := if field == Version then 0 else 1;
            var end := Quoted(Escape(name)) + (",\n" + (Text(Body(strategy)) + ("  },\n" + tail)));
            After(Export(strategy, name, tail), Quoted(KeyText(field)))
            == Some(HeadItems()[i].gap + (Text(HeadItems()[i + 1..]) + end))
  {
    var i := if field == Version then 0 else 1;
    var end := Quoted(Escape(name)) + (",\n" + (Text(Body(strategy)) + ("  },\n" + tail)));
    HeadItemsWellFormed();
    ExportShape(strategy, name, tail);
    assert HeadItems()[i].word == KeyOf(field) && forall k :: 0 <= k < i ==> HeadItems()[k].word != KeyOf(field);
    assert |HeadItems()| == 4;
    hide After, Text, HeadItems, KeyText, WellFormed, Quoted, Escape, Body, Export;
    SkipPlain("{\n", Text(HeadItems()) + end, KeyText(field));
    FindItem(HeadItems(), i, end, field);
  }

  // ---- The round trip ----

  predicate Reads(source: string, name: string, field: ExportField, value: u64) {
    U64Field(source, field) == if Hides(name, field) then Err(InvalidNumber(field)) else Ok(value)
  }

  predicate ParamsRead(s: string, name: string, p: Params) {
    && Reads(s, name, FeeBps, p.feeBps) && Reads(s, name, BaseHalfSpreadBps, p.baseHalfSpreadBps)
    && Reads(s, name, AgingStartSlots, p.agingStart) && Reads(s, name, ProtectedStartSlots, p.protectedStart)
    && Reads(s, name, ExpireSlots, p.expire) && Reads(s, name, AgingSurchargeBpsPerSlot, p.surchargePerSlot)
    && Reads(s, name, MaxAgingSurchargeBps, p.maxSurcharge) && Reads(s, name, MaxTradeBaseAtoms, p.maxTrade)
    && Reads(s, name, ProtectedMaxTradeBaseAtoms, p.protectedMaxTrade)
    && Reads(s, name, InventorySkewBpsPer10kImbalance, p.skewPer10k)
    && Reads(s, name, MaxInventorySkewBps, p.maxSkew) && Reads(s, name, HardInventoryBandBps, p.hardBandBps)
  }

  lemma ParamFieldsRead(strategy: Strategy, name: string, tail: string)
    ensures ParamsRead(Export(strategy, name, tail), name, strategy.params)
  {
    var b, p := Body(strategy), strategy.params;
    ParamItemPlaces(strategy);
    ParamRanks();
    hide Export, U64Field, Hides, Body, NumberItem, Rank;
    NumberFieldReads(strategy, name, tail, FeeBps, p.feeBps, true);
    NumberFieldReads(strategy, name, tail, BaseHalfSpreadBps, p.baseHalfSpreadBps, true);
    NumberFieldReads(strategy, name, tail, AgingStartSlots, p.agingStart, true);
    NumberFieldReads(strategy, name, tail, ProtectedStartSlots, p.protectedStart, true);
    NumberFieldReads(strategy, name, tail, ExpireSlots, p.expire, true);
    NumberFieldReads(strategy, name, tail, AgingSurchargeBpsPerSlot, p.surchargePerSlot, true);
    NumberFieldReads(strategy, name, tail, MaxAgingSurchargeBps, p.maxSurcharge, true);
    NumberFieldReads(strategy, name, tail, MaxTradeBaseAtoms, p.maxTrade, true);
    NumberFieldReads(strategy, name, tail, ProtectedMaxTradeBaseAtoms, p.protectedMaxTrade, true);
    NumberFieldReads(strategy, name, tail, InventorySkewBpsPer10kImbalance, p.skewPer10k, true);
    NumberFieldReads(strategy, name, tail, MaxInventorySkewBps, p.maxSkew, true);
    NumberFieldReads(strategy, name, tail, HardInventoryBandBps, p.hardBandBps, false);
  }

  lemma ParamRanks()
    ensures Rank(KeyOf(FeeBps)) == 3 && Rank(KeyOf(BaseHalfSpreadBps)) == 4 && Rank(KeyOf(AgingStartSlots)) == 5
    ensures Rank(KeyOf(ProtectedStartSlots)) == 6 && Rank(KeyOf(ExpireSlots)) == 7
    ensures Rank(KeyOf(AgingSurchargeBpsPerSlot)) == 8 && Rank(KeyOf(MaxAgingSurchargeBps)) == 9
    ensures Rank(KeyOf(MaxTradeBaseAtoms)) == 10 && Rank(KeyOf(ProtectedMaxTradeBaseAtoms)) == 11
    ensures Rank(KeyOf(InventorySkewBpsPer10kImbalance)) == 12 && Rank(KeyOf(MaxInventorySkewBps)) == 13
    ensures Rank(KeyOf(HardInventoryBandBps)) == 14
  {
  }

  lemma ParamItemPlaces(strategy: Strategy)
    ensures var b, p := Body(strategy), strategy.params;
            && |b| == 21
            && b[3] == NumberItem(FeeBps, p.feeBps, true)
            && b[4] == NumberItem(BaseHalfSpreadBps, p.baseHalfSpreadBps, true)
            && b[5] == NumberItem(AgingStartSlots, p.agingStart, true)
            && b[6] == NumberItem(ProtectedStartSlots, p.protectedStart, true)
            && b[7] == NumberItem(ExpireSlots, p.expire, true)
            && b[8] == NumberItem(AgingSurchargeBpsPerSlot, p.surchargePerSlot, true)
            && b[9] == NumberItem(MaxAgingSurchargeBps, p.maxSurcharge, true)
            && b[10] == NumberItem(MaxTradeBaseAtoms, p.maxTrade, true)
            && b[11] == NumberItem(ProtectedMaxTradeBaseAtoms, p.protectedMaxTrade, true)
            && b[12] == NumberItem(InventorySkewBpsPer10kImbalance, p.skewPer10k, true)
            && b[13] == NumberItem(MaxInventorySkewBps, p.maxSkew, true)
            && b[14] == NumberItem(HardInventoryBandBps, p.hardBandBps, false)
  {
    hide NumberItem;
    var b, w := Body(strategy), ParamItems(strategy.params);
    assert |WarningItems()| == 3 && |EnvelopeItems(strategy.envelope)| == 6 && |w| == 12;
    assert forall k :: 3 <= k < 15 ==> b[k] == w[k - 3];
  }

  predicate EnvelopeReads(s: string, name: string, e: Envelope) {
    && Reads(s, name, MaxMakerUpdatePeriodSlots, e.maxPeriod) && Reads(s, name, MaxLandingLatencySlots, e.maxLatency)
    && Reads(s, name, MinUpdateSuccessProbabilityBps, e.minSuccessBps)
    && OrderField(s) == if Hides(name, SameSlotOrderField) then Err(UnknownSameSlotOrder) else Ok(e.order)
  }

  lemma EnvelopeFieldsRead(strategy: Strategy, name: string, tail: string)
    ensures EnvelopeReads(Export(strategy, name, tail), name, strategy.envelope)
  {
    var b, e := Body(strategy), strategy.envelope;
    OrderItemPlaces(strategy);
    hide Export, U64Field, Hides, Body, NumberItem, OrderField;
    NumberFieldReads(strategy, name, tail, MaxMakerUpdatePeriodSlots, e.maxPeriod, true);
    NumberFieldReads(strategy, name, tail, MaxLandingLatencySlots, e.maxLatency, true);
    NumberFieldReads(strategy, name, tail, MinUpdateSuccessProbabilityBps, e.minSuccessBps, true);
    OrderFieldReads(strategy, name, tail);
  }

  /** The parameters parse to what was written, or stop at the field the name hides. */
  lemma ParamsParse(source: string, name: string, p: Params)
    requires ParamsRead(source, name, p)
    ensures (forall field :: Hides(name, field) ==> Rank(KeyOf(field)) >= 15) ==> ParamsField(source) == Ok(p)
  {
    hide U64Field, Hides;
  }

  lemma ParamsStopAt(source: string, name: string, p: Params, field: ExportField)
    requires ParamsRead(source, name, p) && Hides(name, field) && Rank(KeyOf(field)) < 15 && Searched(field)
    requires forall other :: Hides(name, other) ==> other == field
    ensures ParamsField(source) == Err(InvalidNumber(field))
  {
    hide U64Field, Hides;
  }

  lemma EnvelopeParses(source: string, name: string, e: Envelope)
    requires EnvelopeReads(source, name, e) && forall field :: !Hides(name, field)
    ensures EnvelopeField(source) == Ok(e)
  {
    hide U64Field, Hides, OrderField;
  }

  lemma EnvelopeStopsAt(source: string, name: string, e: Envelope, field: ExportField)
    requires EnvelopeReads(source, name, e) && Hides(name, field) && Rank(KeyOf(field)) >= 15 && Searched(field)
    requires forall other :: Hides(name, other) ==> other == field
    ensures EnvelopeField(source)
         == Err(if field == SameSlotOrderField then UnknownSameSlotOrder else InvalidNumber(field))
  {
    hide U64Field, Hides, OrderField;
  }

  /** A name that hides no field leaves the whole strategy readable. */
  lemma CleanNameReadsBack(strategy: Strategy, name: string, tail: string)
    requires ValidateParams(strategy.params).Ok? && ValidateEnvelope(strategy.envelope, strategy.params.expire).Ok?
    requires forall field :: !Hides(name, field)
    ensures ParseExport(Export(strategy, name, tail)) == Ok(strategy)
  {
    HeaderReads(strategy, name, tail);
    ParamFieldsRead(strategy, name, tail);
    EnvelopeFieldsRead(strategy, name, tail);
    hide Export, Hides, ParamsRead, EnvelopeReads, ParamsField, EnvelopeField, HeaderField, ValidateParams,
         ValidateEnvelope;
    ParamsParse(Export(strategy, name, tail), name, strategy.params);
    EnvelopeParses(Export(strategy, name, tail), name, strategy.envelope);
  }

  lemma HidesOnlyOne(name: string, field: ExportField, other: ExportField)
    requires Hides(name, field) && Hides(name, other)
    ensures field == other && Searched(field)
  {
    if field != other {
      WordsDiffer(KeyOf(field), KeyOf(other));
    }
  }

  /** A name that hides a field makes the parser reject the export at that field. */
  lemma HidingNameIsRejected(strategy: Strategy, name: string, tail: string, field: ExportField)
    requires ValidateParams(strategy.params).Ok? && Hides(name, field)
    ensures ParseExport(Export(strategy, name, tail))
         == Err(if field == SameSlotOrderField then UnknownSameSlotOrder else InvalidNumber(field))
  {
    hide Export, Hides, ParamsRead, EnvelopeReads, ParamsField, EnvelopeField, HeaderField, ValidateParams,
         ValidateEnvelope, Rank, KeyText;
    HeaderReads(strategy, name, tail);
    ParamFieldsRead(strategy, name, tail);
    EnvelopeFieldsRead(strategy, name, tail);
    HidesOnlyOne(name, field, field);
    forall other | Hides(name, other)
      ensures other == field
    {
      HidesOnlyOne(name, field, other);
    }
    var source := Export(strategy, name, tail);
    if Rank(KeyOf(field)) < 15 {
      ParamsStopAt(source, name, strategy.params, field);
      OrderIsLate();
    } else {
      ParamsParse(source, name, strategy.params);
      EnvelopeStopsAt(source, name, strategy.envelope, field);
    }
  }

  lemma OrderIsLate()
    ensures Rank(KeyOf(SameSlotOrderField)) == 19
  {
  }

  /** Parsing an export gives back the strategy if and only if the part of the candidate name
      behind its last double quote is not one of the keys looked up after it. */
  lemma RoundTripsExactly(strategy: Strategy, name: string, tail: string)
    requires ValidateParams(strategy.params).Ok? && ValidateEnvelope(strategy.envelope, strategy.params.expire).Ok?
    ensures ParseExport(Export(strategy, name, tail)) == Ok(strategy)
       <==> forall field :: Searched(field) ==> LastPart(name) != KeyText(field)
  {
    hide ParseExport, Export, KeyText, LastPart, ValidateParams, ValidateEnvelope;
    if field :| Hides(name, field) {
      HidingNameIsRejected(strategy, name, tail, field);
    } else {
      forall field | Searched(field)
        ensures LastPart(name) != KeyText(field)
      {
        assert !Hides(name, field);
      }
      CleanNameReadsBack(strategy, name, tail);
    }
  }

  /** So every name without a double quote that is not itself such a key round-trips. */
  lemma QuoteFreeNameReadsBack(strategy: Strategy, name: string, tail: string)
    requires ValidateParams(strategy.params).Ok? && ValidateEnvelope(strategy.envelope, strategy.params.expire).Ok?
    requires QuoteFree(name) && forall field :: Searched(field) ==> name != KeyText(field)
    ensures ParseExport(Export(strategy, name, tail)) == Ok(strategy)
  {
    assert LastPart(name) == name;
    hide ParseExport, Export, KeyText, LastPart, ValidateParams, ValidateEnvelope;
    RoundTripsExactly(strategy, name, tail);
  }
}
