/** Where the ledger theorem stops: header updates that leave the fills alone, and amounts the columns round. */
module HeaderEdits {
  import opened Wrappers
  import opened Decimals
  import opened Calculations
  import opened StoredHeaders
  import opened Ledger
  import opened TradeRequests
  import opened TradeHistory
  import opened Schemas

  /** Does a submitted header repeat the stored columns, up to the rounding of the columns? */
  predicate Repeats(submitted: Header, stored: Header) {
    StoreHeader(submitted) == stored.(terms := StoreTerms(submitted.terms))
  }

  /** When updating the header alone, over existing fills, keeps it faithful: never on a partially closed trade;
      on an open one exactly when the stored columns are submitted again; on a closed one the header
      calculator must also find what the fills are worth. */
  lemma HeaderOnlyUpdate(s: State, input: TradeInput)
    requires WellStored(s) && Faithful(s) && s.rows != []
    requires input.executions.None? && Apply(s, UpdateTrade(input)).1 == Done
    ensures var h, terms := s.figures.header, StoreTerms(input.header.terms);
      Faithful(Apply(s, UpdateTrade(input)).0) <==>
        && !h.status.PartiallyClosed? && Repeats(input.header, h)
        && (h.status.Closed? ==> CalculateTrade(input.header) == CalculateExecutions(Fills(s.rows), terms))
  {
    var d, terms := DigestOf(Fills(s.rows)), StoreTerms(input.header.terms);
    UpdatedHeader(s, input);
    SettleOk(d, terms);
    CalculateExecutionsIsSettle(Fills(s.rows), terms);
    StoringTerms(input.header.terms);
    StoredSummary(d, s.figures.header.terms, terms);
    SettledByStatus(d, input.header, terms, s.figures.header);
    hide Apply, CalculateTrade, Settle, CalculateExecutions, Summary, StoreHeader, Clean, Tradable;
  }

  lemma UpdatedHeader(s: State, input: TradeInput)
    requires input.executions.None? && Apply(s, UpdateTrade(input)).1 == Done
    ensures CalculateTrade(input.header).Ok?
    ensures var after := Apply(s, UpdateTrade(input)).0;
      after.rows == s.rows && after.figures == Store(Figures(input.header, CalculateTrade(input.header).value))
  {
  }

  lemma StoredSummary(d: Digest, before: Terms, after: Terms)
    requires Tradable(d) && TenTerms(after)
    ensures StoreHeader(Summary(d, after)) == StoreHeader(Summary(d, before)).(terms := after)
  {
    StoringTerms(after);
  }

  /** A header of one status settles as the digest does when the position is open, and never when it is partial. */
  lemma SettledByStatus(d: Digest, submitted: Header, terms: Terms, stored: Header)
    requires Tradable(d) && stored.status == Summary(d, terms).status
    ensures submitted.status == stored.status && stored.status.Open? ==> CalculateTrade(submitted) == Settle(d, terms)
    ensures submitted.status == stored.status && stored.status.PartiallyClosed? ==> CalculateTrade(submitted) != Settle(d, terms)
  {
    SettleOk(d, terms);
  }

  /** When the averages of a closed trade have ten decimals, it is enough that the header calculator finds in
      the submitted columns what it finds in the stored ones. */
  lemma HeaderOnlyUpdateOfExactTrade(s: State, input: TradeInput)
    requires WellStored(s) && Faithful(s) && s.rows != []
    requires TenHeader(Summary(DigestOf(Fills(s.rows)), s.figures.header.terms))
    requires input.executions.None? && Apply(s, UpdateTrade(input)).1 == Done
    ensures var h := s.figures.header;
      Faithful(Apply(s, UpdateTrade(input)).0) <==>
        && !h.status.PartiallyClosed? && Repeats(input.header, h)
        && (h.status.Closed? ==>
              CalculateTrade(input.header) == CalculateTrade(h.(terms := StoreTerms(input.header.terms))))
  {
    var d, terms := DigestOf(Fills(s.rows)), StoreTerms(input.header.terms);
    HeaderOnlyUpdate(s, input);
    StoringTerms(input.header.terms);
    StoringHeader(Summary(d, s.figures.header.terms));
    StoredSummary(d, s.figures.header.terms, terms);
    CalculateExecutionsIsSettle(Fills(s.rows), terms);
    HeaderIsFaithful(d, terms);
    assert Summary(d, terms) == Summary(d, s.figures.header.terms).(terms := terms);
    hide Apply, CalculateTrade, Settle, CalculateExecutions, StoreHeader, Clean;
  }

  /** A closed trade of the ledger has what recomputing it from its stored header needs. */
  lemma ClosedIsStorable(fills: seq<Fill>)
    requires forall f <- fills :: ValidFill(f) && TenFill(f)
    requires Tradable(DigestOf(fills)) && DigestOf(fills).exitQuantity == DigestOf(fills).entryQuantity
    ensures Storable(DigestOf(fills)) && Ten(DigestOf(fills).fees)
  {
    hide Ten, Clean;
    var d := DigestOf(fills);
    NotionalsAreHeavy(fills);
    QuantitiesAreTen(fills);
    StoredAverageIsPositive(d.entryNotional, d.entryQuantity);
  }

  /** Submitting the stored header of a closed trade again, with any terms. The results are within the drift of
      those of the fills. The trade is unfaithful afterwards when the rounding errors of the two average prices
      shift its gross result by more than a unit; with terms of ten decimals it stays faithful exactly when the
      shift moves none of its results, as when the errors cancel. */
  lemma ResubmittedHeader(s: State, input: TradeInput)
    requires WellStored(s) && Faithful(s) && s.rows != [] && s.figures.header.status.Closed?
    requires input.executions.None? && Apply(s, UpdateTrade(input)).1 == Done
    requires input.header == s.figures.header.(terms := input.header.terms) && input.header.terms.fx > 0.0
    ensures var d, terms, after := DigestOf(Fills(s.rows)), input.header.terms, Apply(s, UpdateTrade(input)).0;
      && Storable(d) && Settle(d, terms).Ok?
      && Close(after.figures.result, Settle(d, terms).value, DriftOf(d, terms), terms)
      && (!Near(ShiftOf(d, terms), 0.0, UNIT) ==> !Faithful(after))
      && (TenTerms(terms) ==> (Faithful(after) <==> Unmoved(FromFills(d, terms), ShiftOf(d, terms), d.fees, terms)))
      && (TenTerms(terms) && ErrorsCancel(d.entryNotional / d.entryQuantity, d.exitNotional / d.entryQuantity, terms.basis) ==>
            Faithful(after))
  {
    var d, terms := DigestOf(Fills(s.rows)), input.header.terms;
    RowsAreTen(s);
    ClosedDigest(s);
    hide *;
    ClosedIsStorable(Fills(s.rows));
    ResubmittedIsKept(s, terms);
    StoredHeaderDrift(d, terms);
    StoredHeaderIsFaithful(d, terms);
    StoredHeaderIsFaithfulIff(d, terms);
    if !Near(ShiftOf(d, terms), 0.0, UNIT) {
      StoredSides(terms);
      ShiftIsSeen(d, terms, StoreTerms(terms));
    }
    StoringTerms(terms);
    CalculateExecutionsIsSettle(Fills(s.rows), StoreTerms(terms));
    UpdatedHeader(s, input);
    UpdatedResult(s, input);
    HeaderOnlyUpdate(s, input);
  }

  lemma ClosedDigest(s: State)
    requires WellStored(s) && Faithful(s) && s.rows != [] && s.figures.header.status.Closed?
    ensures var d := DigestOf(Fills(s.rows)); Tradable(d) && d.exitQuantity == d.entryQuantity
  {
  }

  lemma ResubmittedIsKept(s: State, terms: Terms)
    requires WellStored(s) && Faithful(s) && s.rows != [] && Storable(DigestOf(Fills(s.rows)))
    ensures s.figures.header.(terms := terms) == Kept(DigestOf(Fills(s.rows)), terms)
    ensures Repeats(s.figures.header.(terms := terms), s.figures.header)
  {
    var d := DigestOf(Fills(s.rows));
    KeptOfAny(d, terms, s.figures.header.terms);
    RepeatsItself(s.figures.header, Summary(d, s.figures.header.terms), terms);
  }

  lemma StoredSides(terms: Terms)
    ensures StoreTerms(terms).side == terms.side && StoreTerms(terms).basis == terms.basis
  {
  }

  lemma UpdatedResult(s: State, input: TradeInput)
    requires input.executions.None? && Apply(s, UpdateTrade(input)).1 == Done && CalculateTrade(input.header).Ok?
    ensures Apply(s, UpdateTrade(input)).0.figures.result == CalculateTrade(input.header).value
  {
  }

  lemma RowsAreTen(s: State)
    requires WellStored(s)
    ensures forall f <- Fills(s.rows) :: ValidFill(f) && TenFill(f)
  {
  }

  lemma RepeatsItself(stored: Header, exact: Header, terms: Terms)
    requires stored == StoreHeader(exact)
    ensures Repeats(stored.(terms := terms), stored)
  {
    StoringHeader(exact);
    StoringHeader(stored.(terms := terms));
  }

  // ---- such trades are reached ----

  /** Two fills that leave a position open, submitted on creation, followed by any valid header update of version 1. */
  lemma PartialTradeGoesStale(input: TradeInput, bought: Fill, sold: Fill, update: TradeInput)
    requires ValidInput(input) && TenInput(input) && input.executions == Some([bought, sold]) && !input.header.status.Closed?
    requires bought.action.Entry? && sold.action.Exit? && bought.at <= sold.at && sold.quantity < bought.quantity
    requires ValidInput(update) && update.executions.None? && update.version == Some(1)
    ensures Create(input).Ok? && WellStored(Create(input).value) && Faithful(Create(input).value)
    ensures Create(input).value.figures.header.status.PartiallyClosed?
    ensures Apply(Create(input).value, UpdateTrade(update)).1 == Done
    ensures !Faithful(Apply(Create(input).value, UpdateTrade(update)).0)
  {
    hide *;
    CreatedPair(input, bought, sold);
    var s := Create(input).value;
    PairIsPartial(s, bought, sold);
    ValidHeaderIsAccepted(s, update);
    HeaderOnlyUpdate(s, update);
  }

  lemma PairIsPartial(s: State, bought: Fill, sold: Fill)
    requires WellStored(s) && Faithful(s) && s.rows == [Row(0, bought), Row(1, sold)]
    requires bought.action.Entry? && sold.action.Exit? && sold.quantity < bought.quantity
    ensures s.rows != [] && s.figures.header.status.PartiallyClosed?
  {
    assert ValidFill(s.rows[1].fill);
    hide ValidFill, TenFill, TenTerms, Ten, Clean, Settle;
    DigestOfPair(s.rows, bought, sold);
  }

  lemma ValidHeaderIsAccepted(s: State, update: TradeInput)
    requires ValidInput(update) && update.executions.None? && update.version == Some(s.version) && !s.deleted
    ensures Apply(s, UpdateTrade(update)).1 == Done
  {
  }

  /** One such history, in figures. */
  lemma StaleTradeExists()
    ensures exists input, update ::
      && ValidInput(input) && TenInput(input) && ValidInput(update) && TenInput(update) && Create(input).Ok?
      && Faithful(Create(input).value) && Apply(Create(input).value, UpdateTrade(update)).1 == Done
      && !Faithful(Apply(Create(input).value, UpdateTrade(update)).0)
  {
    var header := Header(Open, 0, None, 1.0, None, 2.0, 0.0, 1, 0, Terms(Long, Quantity, None, 1.0));
    var bought, sold := Fill(Entry, 0, 1.0, 2.0, 0.0, 1), Fill(Exit, 1, 1.0, 1.0, 0.0, 1);
    var input, update := TradeInput(header, Some([bought, sold]), None), TradeInput(header, None, Some(1));
    assert ValidInput(input) && ValidInput(update);
    OnesAreTen();
    hide *;
    TenByHand(input, bought, sold);
    TenByHand(update, bought, sold);
    PartialTradeGoesStale(input, bought, sold, update);
    assert !Faithful(Apply(Create(input).value, UpdateTrade(update)).0);
  }

  lemma OnesAreTen()
    ensures Ten(0.0) && Ten(1.0) && Ten(2.0)
  {
    CleanFixesExactlyTen(1.0);
  }

  lemma TenByHand(input: TradeInput, bought: Fill, sold: Fill)
    requires input.executions.None? || input.executions == Some([bought, sold])
    requires Ten(bought.price) && Ten(bought.quantity) && Ten(bought.fee) && Ten(sold.price) && Ten(sold.quantity) && Ten(sold.fee)
    requires Ten(input.header.terms.fx) && input.header.terms.risk.None?
    ensures TenInput(input)
  {
    hide Ten;
  }

  /** A closed trade goes stale too: 1 @ 1 and 2 @ 2 in, 3 @ 2 out, and then its own stored header submitted again. */
  lemma ClosedTradeGoesStale(input: TradeInput, a: Fill, b: Fill, c: Fill)
    requires a == Fill(Entry, 0, 1.0, 1.0, 0.0, 1) && b == Fill(Entry, 0, 2.0, 2.0, 0.0, 1) && c == Fill(Exit, 60000000, 2.0, 3.0, 0.0, 1)
    requires ValidInput(input) && TenInput(input) && input.executions == Some([a, b, c])
    requires input.header.terms == Terms(Long, Quantity, None, 1.0)
    ensures Create(input).Ok? && Faithful(Create(input).value) && Create(input).value.figures.header.status.Closed?
    ensures var s := Create(input).value;
      var (after, reply) := Apply(s, UpdateTrade(TradeInput(s.figures.header, None, Some(1))));
      reply == Done && !Faithful(after)
  {
    var d := Digest(Some(0), Some(60000000), 3.0, 3.0, 5.0, 6.0, 0.0, 4, 2);
    hide *;
    ThreeFills(input, a, b, c);
    CreatedList(input, [a, b, c]);
    ThirdsDigest(a, b, c, d);
    ThirdsDiffer(d, input.header.terms);
    var s := Create(input).value;
    ThirdsHeader(s, d, input.header.terms, [a, b, c]);
    var update := TradeInput(s.figures.header, None, Some(1));
    CalculableIsAccepted(s, update);
    CalculateExecutionsIsSettle(Fills(s.rows), input.header.terms);
    StoringTerms(input.header.terms);
    HeaderOnlyUpdate(s, update);
  }

  lemma ThreeFills(input: TradeInput, a: Fill, b: Fill, c: Fill)
    requires input.executions == Some([a, b, c]) && a.at <= b.at <= c.at
    requires a.action.Entry? && b.action.Entry? && c.action.Exit?
    requires 0.0 < a.quantity && 0.0 < b.quantity && c.quantity == a.quantity + b.quantity
    ensures ExecutionModels(input) == Ok([a, b, c])
  {
    SortOfThree(a, b, c);
    PositionsOfThree(a, b, c);
    hide SortByTime, Position, NeverShort;
  }

  lemma SortOfThree(a: Fill, b: Fill, c: Fill)
    requires a.at <= b.at <= c.at
    ensures SortByTime([a, b, c]) == [a, b, c]
  {
    assert [a, b, c][1..] == [b, c] && [b, c][1..] == [c] && [c][1..] == [];
    assert SortByTime([c]) == [c];
    assert SortByTime([b, c]) == [b, c];
  }

  lemma PositionsOfThree(a: Fill, b: Fill, c: Fill)
    requires a.action.Entry? && b.action.Entry? && c.action.Exit?
    requires 0.0 < a.quantity && 0.0 < b.quantity && c.quantity == a.quantity + b.quantity
    ensures NeverShort([a, b, c]) && Position([a, b, c]) == 0.0
  {
    var rows := [a, b, c];
    NextPosition(rows, 0);
    NextPosition(rows, 1);
    NextPosition(rows, 2);
    assert Position(rows[..0]) == 0.0;
    assert rows[..3] == rows;
    hide Position;
    forall k | 0 <= k <= |rows| ensures Position(rows[..k]) >= 0.0 {
      assert k == 0 || k == 1 || k == 2 || k == 3;
    }
  }

  lemma CreatedList(input: TradeInput, models: seq<Fill>)
    requires ValidInput(input) && TenInput(input) && ExecutionModels(input) == Ok(models) && models != []
    ensures Create(input).Ok?
    ensures var s := Create(input).value;
      && WellStored(s) && Faithful(s) && !s.deleted && s.version == 1 && s.rows != []
      && Fills(s.rows) == models && s.figures.header.terms == input.header.terms
  {
    hide TradeValues, ExecutionModels, Faithful, Clean, Ten, ValidInput;
    AcceptedFillsAreTen(input);
    TradeValuesSummarises(input);
    WrittenTerms(input);
    StoringTerms(input.header.terms);
    SubmittedListIsFaithful(input, 1, false, 0);
    NewRowsKeepFills(models, 0);
  }

  lemma ThirdsHeader(s: State, d: Digest, terms: Terms, fills: seq<Fill>)
    requires Faithful(s) && s.rows != [] && Fills(s.rows) == fills && DigestOf(fills) == d && s.figures.header.terms == terms
    requires Tradable(d) && d.exitQuantity == d.entryQuantity && TenTerms(terms)
    ensures s.figures.header == StoreHeader(Summary(d, terms)) && s.figures.header.status.Closed?
  {
  }

  lemma CalculableIsAccepted(s: State, update: TradeInput)
    requires update.executions.None? && update.version == Some(s.version) && !s.deleted && CalculateTrade(update.header).Ok?
    ensures Apply(s, UpdateTrade(update)).1 == Done
  {
  }

  // ---- more than ten decimals ----

  /** Amounts with more than ten decimals defeat the theorem: two fees of 4e-11 add up to a stored
      1e-10 in the header, but to nothing in the fills. */
  lemma ElevenDecimalsAreUnfaithful(a: Fill, b: Fill, input: TradeInput)
    requires a == Fill(Entry, 0, 1.0, 1.0, 0.00000000004, 1) && b == a
    requires ValidInput(input) && input.executions == Some([a, b]) && input.header.status.Open?
    ensures Create(input).Ok? && !Faithful(Create(input).value)
  {
    TwoEntries(input, a, b);
    TradeValuesSummarises(input);
    FeesOfTwo(a, b);
    var s := Create(input).value;
    assert Fills(s.rows) == [StoreFill(a), StoreFill(b)];
    FeesOfTwo(StoreFill(a), StoreFill(b));
    RoundHalfUpUnique(a.fee * SCALE, 0);
    RoundHalfUpUnique(2.0 * a.fee * SCALE, 1);
    RoundHalfUpUnique(0.0, 0);
  }

  lemma FeesOfTwo(a: Fill, b: Fill)
    ensures DigestOf([a, b]).fees == a.fee + b.fee
  {
    assert [a, b][1..] == [b] && [b][1..] == [];
    assert DigestOf([b]).fees == b.fee;
  }
}
