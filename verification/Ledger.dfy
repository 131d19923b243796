/** A trade row, its table of fills, and every request that edits either.
    The specification is the pure part; the class below carries it out step by step. */
module Ledger {
  import opened Wrappers
  import opened Decimals
  import opened Calculations
  import opened StoredHeaders

  /** What the request schema lets through, with the decimals already read. */
  datatype TradeInput = TradeInput(header: Header, executions: Option<seq<Fill>>, version: Option<int>)

  const MAX_TEXT := 10000

  predicate ValidFill(f: Fill) {
    f.price > 0.0 && f.quantity > 0.0 && f.fee >= 0.0 && 1 <= f.reason <= MAX_TEXT
  }

  predicate TenFill(f: Fill) {
    Ten(f.price) && Ten(f.quantity) && Ten(f.fee)
  }

  predicate ValidHeader(h: Header) {
    && h.entryPrice > 0.0 && h.size > 0.0 && h.fees >= 0.0 && h.terms.fx > 0.0
    && (h.terms.risk.Some? ==> h.terms.risk.value > 0.0)
    && (h.exitPrice.Some? ==> h.exitPrice.value > 0.0)
    && (h.exitAt.Some? ==> h.entryAt <= h.exitAt.value)
    && 1 <= h.entryReason <= MAX_TEXT && h.exitReason <= MAX_TEXT
    && (h.status.Closed? ==> h.exitAt.Some? && h.exitPrice.Some? && h.exitReason > 0)
    && (h.status.Open? ==> h.exitAt.None? && h.exitPrice.None? && h.exitReason == 0)
  }

  predicate ValidInput(input: TradeInput) {
    ValidHeader(input.header) && (input.executions.Some? ==> forall f <- input.executions.value :: ValidFill(f))
  }

  predicate TenInput(input: TradeInput) {
    TenTerms(input.header.terms) && (input.executions.Some? ==> forall f <- input.executions.value :: TenFill(f))
  }

  // ---- execution_models ----

  function Signed(f: Fill): real {
    if f.action.Entry? then f.quantity else -f.quantity
  }

  /** The position after the fills in the order given. */
  function Position(fills: seq<Fill>): real {
    if fills == [] then 0.0 else Position(fills[..|fills| - 1]) + Signed(fills[|fills| - 1])
  }

  predicate NeverShort(fills: seq<Fill>) {
    forall k | 0 <= k <= |fills| :: Position(fills[..k]) >= 0.0
  }

  predicate InTimeOrder(fills: seq<Fill>) {
    forall i, j | 0 <= i < j < |fills| :: fills[i].at <= fills[j].at
  }

  function Insert(f: Fill, fills: seq<Fill>): seq<Fill> {
    if fills == [] || f.at <= fills[0].at then [f] + fills else [fills[0]] + Insert(f, fills[1..])
  }

  /** The stable sort by execution time. */
  function SortByTime(fills: seq<Fill>): seq<Fill> {
    if fills == [] then [] else Insert(fills[0], SortByTime(fills[1..]))
  }

  lemma {:induction false} InsertPermutes(f: Fill, fills: seq<Fill>)
    ensures multiset(Insert(f, fills)) == multiset{f} + multiset(fills)
    ensures |Insert(f, fills)| == |fills| + 1
  {
    if fills != [] && f.at > fills[0].at {
      InsertPermutes(f, fills[1..]);
      assert fills == [fills[0]] + fills[1..];
    }
  }

  lemma {:induction false} InsertSorts(f: Fill, fills: seq<Fill>)
    requires InTimeOrder(fills)
    ensures InTimeOrder(Insert(f, fills))
    ensures Insert(f, fills) != [] && Insert(f, fills)[0].at == if fills == [] then f.at else Min(f.at, fills[0].at)
  {
    if fills != [] && f.at > fills[0].at {
      InsertSorts(f, fills[1..]);
      assert fills[0].at <= Insert(f, fills[1..])[0].at;
    }
  }

  lemma {:induction false} SortByTimeSorts(fills: seq<Fill>)
    ensures InTimeOrder(SortByTime(fills)) && multiset(SortByTime(fills)) == multiset(fills)
    ensures |SortByTime(fills)| == |fills|
  {
    if fills != [] {
      SortByTimeSorts(fills[1..]);
      InsertSorts(fills[0], SortByTime(fills[1..]));
      InsertPermutes(fills[0], SortByTime(fills[1..]));
      assert fills == [fills[0]] + fills[1..];
    }
  }

  /** The fills of a submission, or a refusal. */
  function ExecutionModels(input: TradeInput): Try<seq<Fill>> {
    if input.executions.None? || input.executions.value == [] then Ok([]) else
    var rows := SortByTime(input.executions.value);
    if NeverShort(rows) && (input.header.status.Closed? ==> Position(rows) == 0.0) then Ok(rows) else Raised
  }

  method BuildExecutions(input: TradeInput) returns (r: Try<seq<Fill>>)
    ensures r == ExecutionModels(input)
  {
    if input.executions.None? || input.executions.value == [] {
      return Ok([]);
    }
    hide *;
    var rows: seq<Fill>, position := [], 0.0;
    var sorted := SortByTime(input.executions.value);
    ScanStarts(sorted);
    for i := 0 to |sorted|
      invariant Scanned(sorted, i, rows, position)
    {
      var item := sorted[i];
      ScanStep(input, sorted, i, rows, position);
      position := position + if item.action.Entry? then item.quantity else -item.quantity;
      rows := rows + [item];
      if position < 0.0 {
        return Raised;
      }
    }
    ScanEnds(input, sorted, rows, position);
    if position > 0.0 && input.header.status.Closed? {
      return Raised;
    }
    r := Ok(rows);
  }

  /** The first i fills have been taken, and the position was never negative. */
  ghost predicate Scanned(sorted: seq<Fill>, i: nat, rows: seq<Fill>, position: real)
    requires i <= |sorted|
  {
    rows == sorted[..i] && position == Position(rows) && forall k | 0 <= k <= i :: Position(sorted[..k]) >= 0.0
  }

  lemma ScanStarts(sorted: seq<Fill>)
    ensures Scanned(sorted, 0, [], 0.0)
  {
    assert sorted[..0] == [] && Position([]) == 0.0;
  }

  lemma ScanStep(input: TradeInput, sorted: seq<Fill>, i: nat, rows: seq<Fill>, position: real)
    requires input.executions.Some? && input.executions.value != [] && sorted == SortByTime(input.executions.value)
    requires i < |sorted| && Scanned(sorted, i, rows, position)
    ensures var item := sorted[i];
      var next := position + if item.action.Entry? then item.quantity else -item.quantity;
      if next < 0.0 then ExecutionModels(input).Raised? else Scanned(sorted, i + 1, rows + [item], next)
  {
    NextPosition(sorted, i);
    if Position(sorted[..i + 1]) < 0.0 {
      ShortIsRefused(input, i + 1);
    }
  }

  lemma ScanEnds(input: TradeInput, sorted: seq<Fill>, rows: seq<Fill>, position: real)
    requires input.executions.Some? && input.executions.value != [] && sorted == SortByTime(input.executions.value)
    requires Scanned(sorted, |sorted|, rows, position)
    ensures ExecutionModels(input) == if input.header.status.Closed? && position > 0.0 then Raised else Ok(rows)
  {
    assert rows == sorted;
    AcceptedByLoop(input, sorted);
  }

  lemma NextPosition(fills: seq<Fill>, i: nat)
    requires i < |fills|
    ensures fills[..i + 1] == fills[..i] + [fills[i]]
    ensures Position(fills[..i + 1]) == Position(fills[..i]) + if fills[i].action.Entry? then fills[i].quantity else -fills[i].quantity
  {
    assert fills[..i + 1][..i] == fills[..i];
  }

  lemma ShortIsRefused(input: TradeInput, k: nat)
    requires input.executions.Some? && input.executions.value != []
    requires k <= |SortByTime(input.executions.value)| && Position(SortByTime(input.executions.value)[..k]) < 0.0
    ensures ExecutionModels(input).Raised?
  {
  }

  lemma AcceptedByLoop(input: TradeInput, sorted: seq<Fill>)
    requires input.executions.Some? && input.executions.value != [] && sorted == SortByTime(input.executions.value)
    requires NeverShort(sorted)
    ensures Position(sorted) >= 0.0
    ensures ExecutionModels(input) == if input.header.status.Closed? && Position(sorted) > 0.0 then Raised else Ok(sorted)
  {
    assert sorted[..|sorted|] == sorted;
  }

  // ---- trade_values ----

  datatype Figures = Figures(header: Header, result: Calculation)

  /** The header columns of a submission as they are about to be written. */
  function TradeValues(input: TradeInput): Try<Figures> {
    var models := ExecutionModels(input);
    if models.Raised? then Raised else
    var rows := models.value;
    if rows == [] then
      var calculation := CalculateTrade(input.header);
      if calculation.Raised? then Raised else Ok(Figures(input.header, calculation.value))
    else
      var entries, exits := Only(rows, Entry), Only(rows, Exit);
      var entryQuantity, exitQuantity := SumQuantity(entries), SumQuantity(exits);
      if entryQuantity <= 0.0 || exitQuantity > entryQuantity then Raised else
      var calculation := CalculateExecutions(rows, input.header.terms);
      if calculation.Raised? || entries == [] then Raised else
      Ok(Figures(
        Header(if exitQuantity != 0.0 then (if exitQuantity == entryQuantity then Closed else PartiallyClosed) else Open,
               Earliest(entries), if exits == [] then None else Some(Latest(exits)),
               SumNotional(entries) / entryQuantity,
               if exitQuantity != 0.0 then Some(SumNotional(exits) / exitQuantity) else None,
               entryQuantity, SumFees(rows), JoinedReason(entries), JoinedReason(exits), input.header.terms),
        calculation.value))
  }

  // ---- refresh_trade_from_executions ----

  /** The second aggregation: what re-reading the fills makes of the header. */
  function Refresh(rows: seq<Fill>, trade: Figures): Try<Figures> {
    if rows == [] then Ok(trade) else
    var entries, exits := Only(rows, Entry), Only(rows, Exit);
    var entryQuantity, exitQuantity := SumQuantity(entries), SumQuantity(exits);
    if entries == [] || entryQuantity <= 0.0 || exitQuantity > entryQuantity then Raised else
    var calculation := CalculateExecutions(rows, trade.header.terms);
    if calculation.Raised? then Raised else
    Ok(Figures(
      trade.header.(entryAt := Earliest(entries),
                    entryPrice := SumNotional(entries) / entryQuantity,
                    entryReason := JoinedReason(entries), exitReason := JoinedReason(exits),
                    size := entryQuantity,
                    exitAt := if exits == [] then None else Some(Latest(exits)),
                    exitPrice := if exitQuantity != 0.0 then Some(SumNotional(exits) / exitQuantity) else None,
                    fees := SumFees(rows),
                    status := if exitQuantity == entryQuantity then Closed
                              else if exitQuantity != 0.0 then PartiallyClosed else Open),
      calculation.value))
  }

  // ---- both aggregations are the summary of the digest ----

  function Summarised(d: Digest, terms: Terms): Figures
    requires Tradable(d)
  {
    SettleOk(d, terms);
    Figures(Summary(d, terms), Settle(d, terms).value)
  }

  lemma SettleOk(d: Digest, terms: Terms)
    requires Tradable(d)
    ensures Settle(d, terms).Ok?
  {
    PositiveRatio(d.entryNotional, d.entryQuantity);
  }

  lemma {:induction false} ValidFillsAreTradable(fills: seq<Fill>)
    requires forall f <- fills :: ValidFill(f)
    ensures var d := DigestOf(fills);
      && d.entryQuantity >= 0.0 && d.exitQuantity >= 0.0 && d.entryNotional >= 0.0
      && (d.entryAt.None? ==> d.entryQuantity == 0.0) && (d.entryAt.Some? ==> d.entryQuantity > 0.0 && d.entryNotional > 0.0)
      && (d.exitAt.None? <==> d.exitQuantity == 0.0)
      && (d.entryAt.Some? ==> d.entryText >= 2) && (d.exitAt.Some? ==> d.exitText >= 2) && (d.exitAt.None? ==> d.exitText == 0)
  {
    if fills != [] {
      ValidFillsAreTradable(fills[1..]);
      assert ValidFill(fills[0]) by { assert fills[0] in fills; }
      PositiveProduct(fills[0].price, fills[0].quantity);
    }
  }

  /** Re-reading valid fills is refused exactly when they oversell, and otherwise yields the
      summary of their digest, whatever the header held before. */
  lemma RefreshSummarises(rows: seq<Fill>, trade: Figures)
    requires rows != [] && forall f <- rows :: ValidFill(f)
    ensures Refresh(rows, trade).Ok? <==> Tradable(DigestOf(rows))
    ensures Tradable(DigestOf(rows)) ==> Refresh(rows, trade) == Ok(Summarised(DigestOf(rows), trade.header.terms))
  {
    DigestFields(rows);
    ValidFillsAreTradable(rows);
    CalculateExecutionsIsSettle(rows, trade.header.terms);
    if Tradable(DigestOf(rows)) {
      SettleOk(DigestOf(rows), trade.header.terms);
    }
  }

  /** So does the aggregation written out in trade_values. */
  lemma TradeValuesSummarises(input: TradeInput)
    requires ValidInput(input) && ExecutionModels(input).Ok? && ExecutionModels(input).value != []
    ensures var d := DigestOf(ExecutionModels(input).value);
      Tradable(d) && TradeValues(input) == Ok(Summarised(d, input.header.terms))
  {
    var rows := ExecutionModels(input).value;
    AcceptedRows(input, rows);
    DigestFields(rows);
    ValidFillsAreTradable(rows);
    PositionIsDifference(rows);
    assert rows[..|rows|] == rows;
    CalculateExecutionsIsSettle(rows, input.header.terms);
    SettleOk(DigestOf(rows), input.header.terms);
  }

  /** The two aggregations agree, whatever the header held before. */
  lemma BothAggregationsAgree(input: TradeInput, trade: Figures)
    requires ValidInput(input) && ExecutionModels(input).Ok? && ExecutionModels(input).value != []
    requires trade.header.terms == input.header.terms
    ensures TradeValues(input) == Refresh(ExecutionModels(input).value, trade)
  {
    hide TradeValues, ExecutionModels, Refresh, Summarised;
    TradeValuesSummarises(input);
    ModelsAreValid(input);
    RefreshSummarises(ExecutionModels(input).value, trade);
  }

  lemma ModelsAreValid(input: TradeInput)
    requires ValidInput(input) && ExecutionModels(input).Ok?
    ensures forall f <- ExecutionModels(input).value :: ValidFill(f)
  {
    if ExecutionModels(input).value != [] {
      AcceptedRows(input, ExecutionModels(input).value);
    }
  }

  lemma AcceptedRows(input: TradeInput, rows: seq<Fill>)
    requires ValidInput(input) && ExecutionModels(input) == Ok(rows) && rows != []
    ensures InTimeOrder(rows) && multiset(rows) == multiset(input.executions.value)
    ensures forall f <- rows :: ValidFill(f)
    ensures rows[0].action.Entry?
    ensures DigestOf(rows).entryAt.Some?
  {
    SortByTimeSorts(input.executions.value);
    forall f | f in rows ensures ValidFill(f) {
      assert f in multiset(rows);
    }
    assert rows[..1] == [rows[0]] && rows[..1][..0] == [];
    assert Position(rows[..1]) == Signed(rows[0]) && Position(rows[..1]) >= 0.0;
    assert ValidFill(rows[0]) by { assert rows[0] in rows; }
  }

  lemma {:induction false} PositionIsDifference(fills: seq<Fill>)
    ensures Position(fills) == DigestOf(fills).entryQuantity - DigestOf(fills).exitQuantity
  {
    if fills != [] {
      var n := |fills| - 1;
      PositionIsDifference(fills[..n]);
      DigestSplit(fills[..n], [fills[n]]);
      assert fills == fills[..n] + [fills[n]];
      assert [fills[n]][1..] == [];
    }
  }

  /** What acceptance by execution_models guarantees: the position is never short, the first
      fill opens it, no later check refuses, times are ordered, and the derived status is
      closed exactly when nothing is left, as it must be when the client says closed. */
  lemma AcceptedFillsAreConsistent(input: TradeInput, rows: seq<Fill>)
    requires ValidInput(input) && ExecutionModels(input) == Ok(rows) && rows != []
    ensures NeverShort(rows) && rows[0].action.Entry?
    ensures CalculateExecutions(rows, input.header.terms).Ok?
    ensures TradeValues(input).Ok?
    ensures var h := TradeValues(input).value.header;
      && h.entryAt == rows[0].at
      && (h.exitAt.Some? ==> h.entryAt <= h.exitAt.value)
      && (h.status.Closed? <==> Position(rows) == 0.0)
      && (input.header.status.Closed? ==> h.status.Closed?)
  {
    AcceptedRows(input, rows);
    TradeValuesSummarises(input);
    CalculateExecutionsIsSettle(rows, input.header.terms);
    SettleOk(DigestOf(rows), input.header.terms);
    PositionIsDifference(rows);
    assert Plus(One(rows[0]), DigestOf(rows[1..])) == DigestOf(rows);
    SortedEnds(rows);
  }

  /** The header a submission with fills writes is a faithful summary: the calculator that sees only the
      header agrees with the one that saw the fills exactly when the trade is not partially closed. */
  lemma SubmittedHeaderIsFaithful(input: TradeInput)
    requires ValidInput(input) && ExecutionModels(input).Ok? && ExecutionModels(input).value != []
    ensures TradeValues(input).Ok?
    ensures CalculateTrade(TradeValues(input).value.header) == Ok(TradeValues(input).value.result)
       <==> !TradeValues(input).value.header.status.PartiallyClosed?
  {
    hide TradeValues, ExecutionModels, CalculateTrade, Settle, CalculateExecutions;
    TradeValuesSummarises(input);
    var d := DigestOf(ExecutionModels(input).value);
    SettleOk(d, input.header.terms);
    HeaderIsFaithful(d, input.header.terms);
  }

  lemma {:induction false} SortedEnds(rows: seq<Fill>)
    requires rows != [] && InTimeOrder(rows)
    ensures var d := DigestOf(rows);
      && (d.entryAt.Some? ==> rows[0].at <= d.entryAt.value)
      && (rows[0].action.Entry? ==> d.entryAt == Some(rows[0].at))
      && (d.exitAt.Some? ==> rows[0].at <= d.exitAt.value)
  {
    if |rows| > 1 {
      SortedEnds(rows[1..]);
    }
  }

  // ---- storage ----

  function StoreFill(f: Fill): Fill {
    f.(price := Clean(f.price), quantity := Clean(f.quantity), fee := Clean(f.fee))
  }

  function Store(f: Figures): Figures {
    f.(header := StoreHeader(f.header))
  }

  lemma StoreKeepsTen(f: Fill, t: Terms)
    ensures TenFill(f) ==> StoreFill(f) == f
    ensures TenTerms(t) ==> StoreTerms(t) == t
    ensures TenTerms(StoreTerms(t))
  {
    CleanFixesExactlyTen(f.price);
    CleanFixesExactlyTen(f.quantity);
    CleanFixesExactlyTen(f.fee);
    StoringTerms(t);
  }
}
