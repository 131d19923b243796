/** The validator every submitted trade passes, and every stored one again when it is shown:
    the view class inherits from the input class. */
module Schemas {
  import opened Wrappers
  import opened Decimals
  import opened Calculations
  import opened StoredHeaders
  import opened Ledger
  import opened TradeRequests
  import opened TradeHistory

  /** A submission with its decimals read; None is a missing or empty field. Of the two reasons the schema
      looks at the length only, 0 for a missing or blank one. */
  datatype RawTrade = RawTrade(status: Status, entryAt: int, exitAt: Option<int>, entryReason: nat, exitReason: nat,
                               entryPrice: Option<real>, exitPrice: Option<real>, size: Option<real>,
                               fees: Option<real>, side: Side, basis: Basis, inCny: bool,
                               risk: Option<real>, fx: Option<real>)

  /** validate_trade: the checks in the order the source makes them. */
  function ValidateTrade(raw: RawTrade): Try<Header> {
    if raw.entryReason == 0 || raw.entryReason > MAX_TEXT || raw.exitReason > MAX_TEXT then Raised else
    if raw.entryPrice.None? || raw.entryPrice.value <= 0.0 then Raised else
    if raw.size.None? || raw.size.value <= 0.0 then Raised else
    if raw.fees.None? || raw.fees.value < 0.0 then Raised else
    if raw.risk.Some? && raw.risk.value <= 0.0 then Raised else
    if !raw.inCny && (raw.fx.None? || raw.fx.value <= 0.0) then Raised else
    if raw.exitPrice.Some? && raw.exitPrice.value <= 0.0 then Raised else
    if raw.status.Closed? && (raw.exitAt.None? || raw.exitPrice.None? || raw.exitReason == 0) then Raised else
    if raw.exitAt.Some? && raw.exitAt.value < raw.entryAt then Raised else
    var terms := Terms(raw.side, raw.basis, raw.risk, if raw.inCny then 1.0 else raw.fx.value);
    Ok(Header(raw.status, raw.entryAt, if raw.status.Open? then None else raw.exitAt, raw.entryPrice.value,
              if raw.status.Open? then None else raw.exitPrice, raw.size.value, raw.fees.value,
              raw.entryReason, if raw.status.Open? then 0 else raw.exitReason, terms))
  }

  /** What the schema asks of a raw trade. */
  predicate MayPass(raw: RawTrade) {
    && 1 <= raw.entryReason <= 10000 && raw.exitReason <= 10000
    && raw.entryPrice.Some? && raw.entryPrice.value > 0.0
    && raw.size.Some? && raw.size.value > 0.0
    && raw.fees.Some? && raw.fees.value >= 0.0
    && (raw.risk.Some? ==> raw.risk.value > 0.0)
    && (raw.exitPrice.Some? ==> raw.exitPrice.value > 0.0)
    && (raw.inCny || (raw.fx.Some? && raw.fx.value > 0.0))
    && (raw.exitAt.Some? ==> raw.entryAt <= raw.exitAt.value)
    && (raw.status == Closed ==> raw.exitAt.Some? && raw.exitPrice.Some? && raw.exitReason > 0)
  }

  /** Exactly those pass, and keep what was submitted, but that a trade settled in CNY has the rate one whatever rate
      came with it, and an open trade loses its three exit fields. */
  lemma ValidationKeeps(raw: RawTrade)
    ensures ValidateTrade(raw).Ok? <==> MayPass(raw)
    ensures MayPass(raw) ==>
      var h := ValidateTrade(raw).value;
      && h.terms.fx == (if raw.inCny then 1.0 else raw.fx.value)
      && h.status == raw.status && h.entryAt == raw.entryAt && h.entryReason == raw.entryReason
      && h.entryPrice == raw.entryPrice.value && h.size == raw.size.value && h.fees == raw.fees.value
      && h.terms.side == raw.side && h.terms.basis == raw.basis && h.terms.risk == raw.risk
      && (if raw.status == Open then h.exitAt == None && h.exitPrice == None && h.exitReason == 0
          else h.exitAt == raw.exitAt && h.exitPrice == raw.exitPrice && h.exitReason == raw.exitReason)
  {
  }

  /** A submitted fill with its decimals read. */
  datatype RawFill = RawFill(action: Action, at: int, price: Option<real>, quantity: Option<real>, fee: Option<real>, reason: nat)

  /** The input model of a fill, whose validator rewrites its amounts. */
  class FillForm {
    const action: Action
    const at: int
    const reason: nat
    var price: Option<real>
    var quantity: Option<real>
    var fee: Option<real>

    constructor (raw: RawFill)
      ensures Fields() == raw
    {
      action, at, reason := raw.action, raw.at, raw.reason;
      price, quantity, fee := raw.price, raw.quantity, raw.fee;
    }

    ghost function Fields(): RawFill
      reads this
    {
      RawFill(action, at, price, quantity, fee, reason)
    }

    /** validate_execution: accepts exactly the fills the ledger calls valid, as they were submitted. */
    method Validate() returns (r: Try<Fill>)
      ensures r.Ok? ==> ValidFill(r.value)
      ensures r.Ok? ==>
        Fields() == RawFill(r.value.action, r.value.at, Some(r.value.price), Some(r.value.quantity), Some(r.value.fee), r.value.reason)
      ensures r.Raised? ==>
        forall f: Fill :: Fields() == RawFill(f.action, f.at, Some(f.price), Some(f.quantity), Some(f.fee), f.reason) ==> !ValidFill(f)
    {
      if reason == 0 || reason > MAX_TEXT {
        return Raised;
      }
      if price.None? || price.value <= 0.0 || quantity.None? || quantity.value <= 0.0 || fee.None? || fee.value < 0.0 {
        return Raised;
      }
      r := Ok(Fill(action, at, price.value, quantity.value, fee.value, reason));
    }
  }

  /** The input model itself, whose validator rewrites its fields. */
  class TradeForm {
    const status: Status
    const entryAt: int
    const entryReason: nat
    const side: Side
    const basis: Basis
    const inCny: bool
    var exitAt: Option<int>
    var exitReason: nat
    var entryPrice: Option<real>
    var exitPrice: Option<real>
    var size: Option<real>
    var fees: Option<real>
    var risk: Option<real>
    var fx: Option<real>

    constructor (raw: RawTrade)
      ensures Fields() == raw
    {
      status, entryAt, entryReason, side, basis, inCny := raw.status, raw.entryAt, raw.entryReason, raw.side, raw.basis, raw.inCny;
      exitAt, exitReason, entryPrice, exitPrice := raw.exitAt, raw.exitReason, raw.entryPrice, raw.exitPrice;
      size, fees, risk, fx := raw.size, raw.fees, raw.risk, raw.fx;
    }

    ghost function Fields(): RawTrade
      reads this
    {
      RawTrade(status, entryAt, exitAt, entryReason, exitReason, entryPrice, exitPrice, size, fees, side, basis, inCny, risk, fx)
    }

    static predicate InRange(number: Option<real>, optional: bool, zero: bool) {
      if number.None? then optional else if zero then number.value >= 0.0 else number.value > 0.0
    }

    /** Accepts exactly what ValidateTrade accepts, and then holds the fields of the accepted header:
        read off again, they are the very same header. */
    method Validate() returns (ok: bool)
      modifies this
      ensures ok <==> ValidateTrade(old(Fields())).Ok?
      ensures ok ==> ValidateTrade(Fields()) == ValidateTrade(old(Fields()))
      ensures ok ==> var h := ValidateTrade(old(Fields())).value;
        && exitAt == h.exitAt && exitPrice == h.exitPrice && exitReason == h.exitReason
        && entryPrice == Some(h.entryPrice) && size == Some(h.size) && fees == Some(h.fees)
        && risk == h.terms.risk && fx == Some(h.terms.fx)
      ensures ok ==> fx == if inCny then Some(1.0) else old(fx)
    {
      if entryReason == 0 || entryReason > MAX_TEXT || exitReason > MAX_TEXT {
        return false;
      }
      if !InRange(entryPrice, false, false) || !InRange(size, false, false) || !InRange(fees, false, true)
        || !InRange(risk, true, false) {
        return false;
      }
      if inCny {
        fx := Some(1.0);
      } else if !InRange(fx, false, false) {
        return false;
      }
      if !InRange(exitPrice, true, false) {
        return false;
      }
      if status.Closed? && (exitAt.None? || exitPrice.None? || exitReason == 0) {
        return false;
      }
      if exitAt.Some? && exitAt.value < entryAt {
        return false;
      }
      if status.Open? {
        exitAt, exitPrice, exitReason := None, None, 0;
      }
      ok := true;
    }
  }

  /** The fields of a stored trade as the view hands them back to the validator. */
  function Shown(h: Header, inCny: bool): RawTrade {
    RawTrade(h.status, h.entryAt, h.exitAt, h.entryReason, h.exitReason, Some(h.entryPrice), h.exitPrice, Some(h.size),
             Some(h.fees), h.terms.side, h.terms.basis, inCny, h.terms.risk, Some(h.terms.fx))
  }

  /** Acceptance establishes exactly what the ledger asks of a header, and validating again changes nothing. */
  lemma ValidationIsIdempotent(raw: RawTrade)
    requires ValidateTrade(raw).Ok?
    ensures ValidHeader(ValidateTrade(raw).value)
    ensures ValidateTrade(Shown(ValidateTrade(raw).value, raw.inCny)) == ValidateTrade(raw)
  {
  }

  /** A stored header can be shown unchanged exactly when it is one the validator could have accepted. */
  lemma ShownIffValid(h: Header, inCny: bool)
    requires inCny ==> h.terms.fx == 1.0
    ensures ValidateTrade(Shown(h, inCny)) == Ok(h) <==> ValidHeader(h)
  {
  }

  // ---- which ledger states can be shown ----

  /** A positive amount with ten decimals is at least one unit of the tenth. */
  lemma PositiveTen(x: real)
    requires Ten(x) && x > 0.0
    ensures x >= 0.0000000001
  {
    assert (x * SCALE).Floor >= 1;
  }

  lemma {:induction false} NotionalsAreHeavy(fills: seq<Fill>)
    requires forall f <- fills :: ValidFill(f) && TenFill(f)
    ensures DigestOf(fills).entryNotional >= 0.0000000001 * DigestOf(fills).entryQuantity
    ensures DigestOf(fills).exitNotional >= 0.0000000001 * DigestOf(fills).exitQuantity
    ensures DigestOf(fills).fees >= 0.0
  {
    if fills != [] {
      assert fills[0] in fills;
      NotionalsAreHeavy(fills[1..]);
      HeavyPlus(fills[0], DigestOf(fills[1..]));
    }
  }

  lemma HeavyPlus(f: Fill, d: Digest)
    requires ValidFill(f) && TenFill(f)
    requires d.entryNotional >= 0.0000000001 * d.entryQuantity && d.exitNotional >= 0.0000000001 * d.exitQuantity && d.fees >= 0.0
    ensures Plus(One(f), d).entryNotional >= 0.0000000001 * Plus(One(f), d).entryQuantity
    ensures Plus(One(f), d).exitNotional >= 0.0000000001 * Plus(One(f), d).exitQuantity
    ensures Plus(One(f), d).fees >= 0.0
  {
    PositiveTen(f.price);
    ScaledUp(f.price, 0.0000000001, f.quantity);
  }

  lemma StoredAverageIsPositive(notional: real, quantity: real)
    requires quantity > 0.0 && notional >= 0.0000000001 * quantity
    ensures Clean(notional / quantity) > 0.0
  {
    RatioAtLeast(notional, quantity, 0.0000000001);
    CleanMonotone(0.0000000001, notional / quantity);
    RoundHalfUpUnique(0.0000000001 * SCALE, 1);
  }

  lemma RatioAtLeast(x: real, q: real, low: real)
    requires q > 0.0 && x >= low * q
    ensures x / q >= low
  {
    var r := x / q;
    assert r * q == x;
    if r < low {
      StrictlyScaled(r, low, q);
    }
  }

  lemma {:induction false} QuantitiesAreTen(fills: seq<Fill>)
    requires forall f <- fills :: TenFill(f)
    ensures Ten(DigestOf(fills).entryQuantity) && Ten(DigestOf(fills).fees)
  {
    if fills != [] {
      hide Ten;
      assert fills[0] in fills;
      QuantitiesAreTen(fills[1..]);
      ZeroIsTen();
      TenAdds(fills[0].quantity, DigestOf(fills[1..]).entryQuantity);
      TenAdds(0.0, DigestOf(fills[1..]).entryQuantity);
      TenAdds(fills[0].fee, DigestOf(fills[1..]).fees);
    }
  }

  lemma ZeroIsTen()
    ensures Ten(0.0)
  {
  }

  /** Joined reasons short enough to be shown. */
  predicate ReasonsFit(fills: seq<Fill>) {
    JoinedReason(Only(fills, Entry)) <= MAX_TEXT && JoinedReason(Only(fills, Exit)) <= MAX_TEXT
  }

  /** The per-fill endpoints check totals, but neither times nor the joined reasons. A faithful trade with fills
      can be shown exactly when nothing was sold or the last sale is not before the first purchase, and the
      reasons joined are no longer than a submitted reason may be; otherwise the request that led there was
      committed and every later view of the trade fails. */
  lemma FaithfulTradeShownIff(s: State, inCny: bool)
    requires WellStored(s) && Faithful(s) && s.rows != []
    requires s.figures.header.terms.fx > 0.0 && (inCny ==> s.figures.header.terms.fx == 1.0)
    requires s.figures.header.terms.risk.Some? ==> s.figures.header.terms.risk.value > 0.0
    ensures var h, d := s.figures.header, DigestOf(Fills(s.rows));
      ValidateTrade(Shown(h, inCny)) == Ok(h) <==>
      d.entryAt.Some? && (d.exitAt.Some? ==> d.entryAt.value <= d.exitAt.value) && ReasonsFit(Fills(s.rows))
  {
    ShownSummary(Fills(s.rows), s.figures.header.terms, inCny);
  }

  lemma ShownSummary(fills: seq<Fill>, terms: Terms, inCny: bool)
    requires forall f <- fills :: ValidFill(f) && TenFill(f)
    requires Tradable(DigestOf(fills)) && TenTerms(terms)
    requires terms.fx > 0.0 && (inCny ==> terms.fx == 1.0) && (terms.risk.Some? ==> terms.risk.value > 0.0)
    ensures var h, d := StoreHeader(Summary(DigestOf(fills), terms)), DigestOf(fills);
      ValidateTrade(Shown(h, inCny)) == Ok(h) <==> (d.exitAt.Some? ==> d.entryAt.value <= d.exitAt.value) && ReasonsFit(fills)
  {
    var d := DigestOf(fills);
    hide Clean, RoundHalfUp, Ten;
    NotionalsAreHeavy(fills);
    QuantitiesAreTen(fills);
    CleanFixesExactlyTen(d.entryQuantity);
    StoredAverageIsPositive(d.entryNotional, d.entryQuantity);
    if d.exitQuantity > 0.0 {
      StoredAverageIsPositive(d.exitNotional, d.exitQuantity);
    }
    StoringTerms(terms);
    ReasonLengths(fills);
    StoredFees(d.fees);
    ShownIffValid(StoreHeader(Summary(d, terms)), inCny);
    hide DigestOf, JoinedReason, Only;
  }

  lemma StoredFees(fees: real)
    ensures fees >= 0.0 ==> Clean(fees) >= 0.0
  {
  }

  lemma ReasonLengths(fills: seq<Fill>)
    requires forall f <- fills :: ValidFill(f)
    ensures var d := DigestOf(fills);
      && Joined(d.entryText) == JoinedReason(Only(fills, Entry)) && Joined(d.exitText) == JoinedReason(Only(fills, Exit))
      && (d.entryAt.Some? ==> Joined(d.entryText) >= 1) && (d.exitAt.Some? ==> Joined(d.exitText) >= 1)
      && (d.exitAt.None? ==> Joined(d.exitText) == 0)
  {
    DigestFields(fills);
    ValidFillsAreTradable(fills);
  }

  /** No amount that has to be positive is rounded to zero by its column. */
  predicate Survives(h: Header) {
    && h.entryPrice >= HALF_UNIT && h.size >= HALF_UNIT && (h.exitPrice.Some? ==> h.exitPrice.value >= HALF_UNIT)
    && h.terms.fx >= HALF_UNIT && (h.terms.risk.Some? ==> h.terms.risk.value >= HALF_UNIT)
  }

  /** A trade just created with a fill list, of amounts of any number of decimals, can be shown exactly when the
      joined reasons fit and no amount vanishes: its times are in order. With ten decimals none does. */
  lemma CreatedTradeShownIff(input: TradeInput, inCny: bool)
    requires ValidInput(input) && Create(input).Ok? && ExecutionModels(input).value != []
    requires inCny ==> Create(input).value.figures.header.terms.fx == 1.0
    ensures var h := Create(input).value.figures.header;
      ValidateTrade(Shown(h, inCny)) == Ok(h) <==>
      ReasonsFit(ExecutionModels(input).value) && Survives(TradeValues(input).value.header)
    ensures TenInput(input) ==> Survives(TradeValues(input).value.header)
  {
    var rows := ExecutionModels(input).value;
    hide ValidateTrade, Shown, ReasonsFit, ExecutionModels, TradeValues, Tradable, Clean, DigestOf, Survives, Summary, StoreHeader;
    TradeValuesSummarises(input);
    ModelsAreValid(input);
    AcceptedRows(input, rows);
    SortedEnds(rows);
    var d := DigestOf(rows);
    SummaryStoredIff(rows, input.header.terms);
    ShownIffValid(StoreHeader(Summary(d, input.header.terms)), inCny);
    if TenInput(input) {
      CreatedFills(input, rows);
      TenAmountsSurvive(rows, input.header.terms);
    }
  }

  lemma CleanIsPositiveIff(x: real)
    ensures Clean(x) > 0.0 <==> x >= HALF_UNIT
  {
    if x >= HALF_UNIT {
      CleanMonotone(HALF_UNIT, x);
      HalfUnitRoundsUp();
    } else if x >= 0.0 {
      BelowHalf(x);
    }
  }

  lemma HalfUnitRoundsUp()
    ensures Clean(HALF_UNIT) == 0.0000000001
  {
    assert HALF_UNIT * SCALE == 0.5;
  }

  lemma BelowHalf(x: real)
    requires 0.0 <= x < HALF_UNIT
    ensures Clean(x) == 0.0
  {
    RoundHalfUpUnique(x * SCALE, 0);
  }

  /** The stored summary of accepted fills is a header the validator accepts exactly in that case. */
  lemma SummaryStoredIff(rows: seq<Fill>, terms: Terms)
    requires forall f <- rows :: ValidFill(f)
    requires var d := DigestOf(rows); Tradable(d) && (d.exitAt.Some? ==> d.entryAt.value <= d.exitAt.value)
    ensures ValidHeader(StoreHeader(Summary(DigestOf(rows), terms))) <==>
      ReasonsFit(rows) && Survives(Summary(DigestOf(rows), terms))
  {
    hide Clean, DigestOf, Only, JoinedReason;
    var d := DigestOf(rows);
    ReasonLengths(rows);
    FeesAreNotNegative(rows);
    StoredFees(d.fees);
    CleanIsPositiveIff(d.entryNotional / d.entryQuantity);
    CleanIsPositiveIff(d.entryQuantity);
    CleanIsPositiveIff(terms.fx);
    if d.exitQuantity > 0.0 { CleanIsPositiveIff(d.exitNotional / d.exitQuantity); }
    if terms.risk.Some? { CleanIsPositiveIff(terms.risk.value); }
  }

  lemma {:induction false} FeesAreNotNegative(fills: seq<Fill>)
    requires forall f <- fills :: ValidFill(f)
    ensures DigestOf(fills).fees >= 0.0
  {
    if fills != [] {
      assert ValidFill(fills[0]) by { assert fills[0] in fills; }
      FeesAreNotNegative(fills[1..]);
    }
  }

  lemma TenAmountsSurvive(fills: seq<Fill>, terms: Terms)
    requires forall f <- fills :: ValidFill(f) && TenFill(f)
    requires Tradable(DigestOf(fills)) && TenTerms(terms) && terms.fx > 0.0 && (terms.risk.Some? ==> terms.risk.value > 0.0)
    ensures Survives(Summary(DigestOf(fills), terms))
  {
    hide Clean, Ten, DigestOf;
    var d := DigestOf(fills);
    NotionalsAreHeavy(fills);
    QuantitiesAreTen(fills);
    StoredAverageIsPositive(d.entryNotional, d.entryQuantity);
    CleanIsPositiveIff(d.entryNotional / d.entryQuantity);
    if d.exitQuantity > 0.0 {
      StoredAverageIsPositive(d.exitNotional, d.exitQuantity);
      CleanIsPositiveIff(d.exitNotional / d.exitQuantity);
    }
    PositiveTen(d.entryQuantity);
    PositiveTen(terms.fx);
    if terms.risk.Some? { PositiveTen(terms.risk.value); }
  }

  lemma CreatedFills(input: TradeInput, rows: seq<Fill>)
    requires ValidInput(input) && TenInput(input) && ExecutionModels(input) == Ok(rows) && rows != []
    ensures InTimeOrder(rows) && rows[0].action.Entry? && forall f <- rows :: ValidFill(f) && TenFill(f)
  {
    AcceptedRows(input, rows);
    AcceptedFillsAreTen(input);
  }

  /** Both entries of an ordinary list are within the limit, their joined reasons are not: accepted, stored, never shown. */
  lemma LongReasonsAreAccepted(input: TradeInput, a: Fill, b: Fill)
    requires a == Fill(Entry, 0, 1.0, 1.0, 0.0, 6000) && b == Fill(Entry, 1, 1.0, 1.0, 0.0, 6000)
    requires ValidInput(input) && TenInput(input) && input.executions == Some([a, b]) && input.header.status.Open?
    ensures Create(input).Ok?
    ensures ValidateTrade(Shown(Create(input).value.figures.header, false)) != Ok(Create(input).value.figures.header)
  {
    TwoEntries(input, a, b);
    hide ValidateTrade, Shown, ExecutionModels, TradeValues, Clean;
    TradeValuesSummarises(input);
    CreatedTradeShownIff(input, false);
    assert [a, b][1..] == [b] && [b][1..] == [];
    assert Only([b], Entry) == [b];
    assert Only([a, b], Entry) == [a, b];
    assert JoinedReason([b]) == 6000 && JoinedReason([a, b]) == 12001;
  }

  /** Two entries in time order are accepted as they are. */
  lemma TwoEntries(input: TradeInput, a: Fill, b: Fill)
    requires input.executions == Some([a, b]) && input.header.status.Open?
    requires a.action.Entry? && b.action.Entry? && a.at <= b.at && a.quantity > 0.0 && b.quantity > 0.0
    ensures ExecutionModels(input) == Ok([a, b])
  {
    var rows := [a, b];
    assert rows[1..] == [b] && [b][1..] == [];
    assert SortByTime([b]) == [b];
    assert SortByTime(rows) == rows;
    PositionsOfTwo(a, b);
  }

  lemma PositionsOfTwo(a: Fill, b: Fill)
    ensures Position([a]) == Signed(a) && Position([a, b]) == Signed(a) + Signed(b)
    ensures NeverShort([a, b]) <==> Signed(a) >= 0.0 && Signed(a) + Signed(b) >= 0.0
  {
    var rows := [a, b];
    assert rows[..1] == [a] && rows[..0] == [] && rows[..2] == rows && [a][..0] == [];
    assert Position([]) == 0.0 && Position([a]) == Signed(a) && Position(rows) == Signed(a) + Signed(b);
    if Signed(a) >= 0.0 && Signed(a) + Signed(b) >= 0.0 {
      forall k | 0 <= k <= 2 ensures Position(rows[..k]) >= 0.0 {
        assert k == 0 || k == 1 || k == 2;
      }
    }
    if NeverShort(rows) {
      assert Position(rows[..1]) >= 0.0 && Position(rows[..2]) >= 0.0;
    }
  }

  /** With one purchase and one sale, moving the purchase to any later
      time is accepted, and the trade can be shown afterwards exactly when the sale is not earlier. */
  lemma MovedEntryIsAccepted(s: State, bought: Fill, sold: Fill, at: int)
    requires WellStored(s) && Faithful(s) && !s.deleted
    requires s.rows == [Row(0, bought), Row(1, sold)] && bought.action.Entry? && sold.action.Exit?
    requires s.figures.header.terms.fx > 0.0
    requires s.figures.header.terms.risk.Some? ==> s.figures.header.terms.risk.value > 0.0
    ensures var (after, reply) := Apply(s, UpdateExecution(0, bought.(at := at)));
      && reply == Done && after.rows == [Row(0, bought.(at := at)), Row(1, sold)]
      && (ValidateTrade(Shown(after.figures.header, false)) == Ok(after.figures.header) <==> at <= sold.at)
  {
    hide Clean, RoundHalfUp, ValidateTrade, Refresh, Summary, Settle, Ten;
    var moved := bought.(at := at);
    assert ValidFill(s.rows[0].fill) && ValidFill(s.rows[1].fill) && TenFill(s.rows[0].fill) && TenFill(s.rows[1].fill);
    var rows := s.rows[0 := Row(0, moved)];
    assert rows == [Row(0, moved), Row(1, sold)] && Find(s.rows, 0) == 0;
    DigestOfPair(s.rows, bought, sold);
    DigestOfPair(rows, moved, sold);
    PairFits(rows, moved, sold);
    StoreKeepsTen(moved, s.figures.header.terms);
    PositiveProduct(moved.price, moved.quantity);
    MovedEdit(s, rows, moved, sold);
  }

  lemma DigestOfPair(rows: seq<Row>, a: Fill, b: Fill)
    requires |rows| == 2 && rows[0].fill == a && rows[1].fill == b
    ensures DigestOf(Fills(rows)) == Plus(One(a), One(b))
  {
    assert Fills(rows) == [a] + [b];
    DigestSplit([a], [b]);
    assert [a][1..] == [] && [b][1..] == [];
    assert DigestOf([a]) == One(a) && DigestOf([b]) == One(b);
  }

  lemma PairFits(rows: seq<Row>, a: Fill, b: Fill)
    requires |rows| == 2 && rows[0].fill == a && rows[1].fill == b && a.action.Entry? && b.action.Exit?
    requires a.reason <= MAX_TEXT && b.reason <= MAX_TEXT
    ensures ReasonsFit(Fills(rows))
  {
    assert Fills(rows) == [a, b] && [a, b][1..] == [b] && [b][1..] == [];
    OnlyOfOne(b, Entry);
    OnlyOfOne(b, Exit);
    assert Only([a, b], Entry) == [a] && Only([a, b], Exit) == [b];
  }

  lemma OnlyOfOne(f: Fill, action: Action)
    ensures Only([f], action) == if f.action == action then [f] else []
  {
    assert [f][1..] == [];
  }

  lemma MovedEdit(s: State, rows: seq<Row>, moved: Fill, sold: Fill)
    requires WellStored(s.(rows := rows)) && !s.deleted && |rows| == 2 && Tradable(DigestOf(Fills(rows)))
    requires ReasonsFit(Fills(rows)) && DigestOf(Fills(rows)) == Plus(One(moved), One(sold)) && moved.action.Entry? && sold.action.Exit?
    requires s.figures.header.terms.fx > 0.0
    requires s.figures.header.terms.risk.Some? ==> s.figures.header.terms.risk.value > 0.0
    ensures var (after, reply) := Edit(s, rows, rows, s.nextId);
      && reply == Done && after.rows == rows
      && (ValidateTrade(Shown(after.figures.header, false)) == Ok(after.figures.header) <==> moved.at <= sold.at)
  {
    RowsStayValid(s.(rows := rows));
    RefreshSummarises(Fills(rows), s.figures);
    EditHeals(s, rows, s.nextId);
    StoreKeepsTen(moved, s.figures.header.terms);
    hide Clean, RoundHalfUp, ValidateTrade;
    FaithfulTradeShownIff(Edit(s, rows, rows, s.nextId).0, false);
  }

  /** And that state is where creating a trade from the two fills leads. */
  lemma MovedEntryIsReachable(input: TradeInput, bought: Fill, sold: Fill, at: int)
    requires ValidInput(input) && TenInput(input) && input.executions == Some([bought, sold])
    requires bought.action.Entry? && sold.action.Exit? && bought.at <= sold.at < at
    requires if input.header.status.Closed? then sold.quantity == bought.quantity else sold.quantity <= bought.quantity
    ensures Create(input).Ok?
    ensures var (after, reply) := Apply(Create(input).value, UpdateExecution(0, bought.(at := at)));
      reply == Done && ValidateTrade(Shown(after.figures.header, false)) != Ok(after.figures.header)
  {
    CreatedPair(input, bought, sold);
    hide ValidateTrade, Shown, Apply, Create, WellStored, Faithful, ValidInput, TenInput;
    MovedEntryIsAccepted(Create(input).value, bought, sold, at);
  }

  lemma CreatedPair(input: TradeInput, bought: Fill, sold: Fill)
    requires ValidInput(input) && TenInput(input) && input.executions == Some([bought, sold])
    requires bought.action.Entry? && sold.action.Exit? && bought.at <= sold.at
    requires if input.header.status.Closed? then sold.quantity == bought.quantity else sold.quantity <= bought.quantity
    ensures Create(input).Ok?
    ensures var s := Create(input).value;
      && WellStored(s) && Faithful(s) && !s.deleted && s.version == 1
      && s.rows == [Row(0, bought), Row(1, sold)] && s.figures.header.terms == input.header.terms
      && s.figures.header.terms.fx > 0.0
      && (s.figures.header.terms.risk.Some? ==> s.figures.header.terms.risk.value > 0.0)
  {
    var models := [bought, sold];
    assert bought in input.executions.value && sold in input.executions.value;
    TwoFills(input, bought, sold);
    StoringTerms(input.header.terms);
    hide TradeValues, ExecutionModels, Faithful, Clean, Ten;
    TradeValuesSummarises(input);
    SubmittedListIsFaithful(input, 1, false, 0);
    NewRowsKeepFills(models, 0);
    assert NewRows(models, 0) == [Row(0, bought), Row(1, sold)] by {
      assert Fills(NewRows(models, 0))[0] == bought && Fills(NewRows(models, 0))[1] == sold;
    }
  }

  lemma TwoFills(input: TradeInput, bought: Fill, sold: Fill)
    requires input.executions == Some([bought, sold]) && bought.quantity > 0.0
    requires bought.action.Entry? && sold.action.Exit? && bought.at <= sold.at
    requires if input.header.status.Closed? then sold.quantity == bought.quantity else sold.quantity <= bought.quantity
    ensures ExecutionModels(input) == Ok([bought, sold])
  {
    var rows := [bought, sold];
    assert rows[1..] == [sold] && [sold][1..] == [];
    assert SortByTime([sold]) == [sold];
    assert SortByTime(rows) == rows;
    PositionsOfTwo(bought, sold);
  }
}
