/** What the aggregated columns of a trade are, stated over its fills, and when aggregation is refused. */
module Columns {
  import opened Wrappers
  import opened Decimals
  import opened Calculations
  import opened StoredHeaders
  import opened Ledger
  import opened Earnings

  predicate Bought(f: Fill) { f.action == Entry }

  predicate Sold(f: Fill) { f.action == Exit }

  /** The characters of some reasons, without separators. */
  function Characters(fills: seq<Fill>): nat {
    if fills == [] then 0 else fills[0].reason + Characters(fills[1..])
  }

  /** The columns describe the rows, column by column. */
  ghost predicate Describe(h: Header, rows: seq<Fill>) {
    DescribeTimes(h, rows) && DescribeAmounts(h, rows)
  }

  /** The first entry and the last exit. */
  ghost predicate DescribeTimes(h: Header, rows: seq<Fill>) {
    && (exists f <- rows :: Bought(f) && f.at == h.entryAt) && (forall f <- rows :: Bought(f) ==> h.entryAt <= f.at)
    && (h.exitAt == None <==> forall f <- rows :: !Sold(f))
    && (h.exitAt.Some? ==> (exists f <- rows :: Sold(f) && f.at == h.exitAt.value) && forall f <- rows :: Sold(f) ==> f.at <= h.exitAt.value)
  }

  /** The prices at which what was entered would all have cost what was spent, and what was sold have brought what was received. */
  predicate DescribePrices(h: Header, entered: real, spent: real, exited: real, received: real) {
    && h.entryPrice * entered == spent
    && (h.exitPrice == None <==> exited == 0.0)
    && (h.exitPrice.Some? ==> h.exitPrice.value * exited == received)
  }

  /** Size and prices, every fee, every reason; and nothing sold, all sold, or some. */
  ghost predicate DescribeAmounts(h: Header, rows: seq<Fill>) {
    var entries, exits := Only(rows, Entry), Only(rows, Exit);
    && h.size == SumQuantity(entries) > 0.0
    && DescribePrices(h, SumQuantity(entries), SumNotional(entries), SumQuantity(exits), SumNotional(exits))
    && h.fees == SumFees(rows)
    && h.entryReason == Characters(entries) + |entries| - 1
    && h.exitReason == (if exits == [] then 0 else Characters(exits) + |exits| - 1)
    && SumQuantity(exits) <= SumQuantity(entries)
    && (h.status == Open <==> SumQuantity(exits) == 0.0) && (h.status == Closed <==> SumQuantity(exits) == SumQuantity(entries))
  }

  lemma {:induction false} JoinedLength(fills: seq<Fill>)
    ensures JoinedReason(fills) == if fills == [] then 0 else Characters(fills) + |fills| - 1
  {
    if |fills| > 1 {
      JoinedLength(fills[1..]);
    } else if |fills| == 1 {
      assert Characters(fills[1..]) == 0;
    }
  }

  lemma FirstEntry(rows: seq<Fill>)
    requires Only(rows, Entry) != []
    ensures var at := Earliest(Only(rows, Entry));
      (exists f <- rows :: Bought(f) && f.at == at) && forall f <- rows :: Bought(f) ==> at <= f.at
  {
    var entries := Only(rows, Entry);
    EarliestIsFirst(entries);
    OnlyMembers(rows, Entry);
    var f :| f in entries && f.at == Earliest(entries);
    assert f in rows && Bought(f);
  }

  lemma LastExit(rows: seq<Fill>)
    ensures Only(rows, Exit) == [] <==> forall f <- rows :: !Sold(f)
    ensures Only(rows, Exit) != [] ==>
      var at := Latest(Only(rows, Exit));
      (exists f <- rows :: Sold(f) && f.at == at) && forall f <- rows :: Sold(f) ==> f.at <= at
  {
    var exits := Only(rows, Exit);
    OnlyMembers(rows, Exit);
    if exits != [] {
      LatestIsLast(exits);
      var f :| f in exits && f.at == Latest(exits);
      assert f in rows && Sold(f);
    } else {
      forall f | f in rows ensures !Sold(f) {
        assert f.action == Exit ==> f in exits;
      }
    }
  }

  lemma AverageTimesTotal(total: real, q: real)
    requires q != 0.0
    ensures total / q * q == total
  {
  }

  /** Headers with these columns describe the rows. */
  lemma HeaderDescribes(h: Header, rows: seq<Fill>)
    requires var entries, exits := Only(rows, Entry), Only(rows, Exit);
      var entered, exited := SumQuantity(entries), SumQuantity(exits);
      && entries != [] && entered > 0.0 && exited <= entered
      && h.entryAt == Earliest(entries) && h.exitAt == (if exits == [] then None else Some(Latest(exits)))
      && h.entryPrice == SumNotional(entries) / entered && h.size == entered
      && h.exitPrice == (if exited != 0.0 then Some(SumNotional(exits) / exited) else None)
      && h.fees == SumFees(rows) && h.entryReason == JoinedReason(entries) && h.exitReason == JoinedReason(exits)
      && h.status == (if exited == entered then Closed else if exited != 0.0 then PartiallyClosed else Open)
    ensures Describe(h, rows)
  {
    FirstEntry(rows);
    LastExit(rows);
    hide SumQuantity, SumNotional, SumFees, Earliest, Latest, JoinedReason, Characters, DescribeAmounts;
    AmountsDescribe(h, rows);
  }

  lemma AmountsDescribe(h: Header, rows: seq<Fill>)
    requires var entries, exits := Only(rows, Entry), Only(rows, Exit);
      var entered, exited := SumQuantity(entries), SumQuantity(exits);
      && entries != [] && entered > 0.0 && exited <= entered
      && h.entryPrice == SumNotional(entries) / entered && h.size == entered
      && h.exitPrice == (if exited != 0.0 then Some(SumNotional(exits) / exited) else None)
      && h.fees == SumFees(rows) && h.entryReason == JoinedReason(entries) && h.exitReason == JoinedReason(exits)
      && h.status == (if exited == entered then Closed else if exited != 0.0 then PartiallyClosed else Open)
    ensures DescribeAmounts(h, rows)
  {
    var entries, exits := Only(rows, Entry), Only(rows, Exit);
    JoinedLength(entries);
    JoinedLength(exits);
    hide Only, SumQuantity, SumNotional, SumFees, JoinedReason, Characters, DescribePrices;
    PricesDescribe(h, SumQuantity(entries), SumNotional(entries), SumQuantity(exits), SumNotional(exits));
  }

  lemma PricesDescribe(h: Header, entered: real, spent: real, exited: real, received: real)
    requires entered > 0.0 && h.entryPrice == spent / entered
    requires h.exitPrice == if exited != 0.0 then Some(received / exited) else None
    ensures DescribePrices(h, entered, spent, exited, received)
  {
    AverageTimesTotal(spent, entered);
    if exited != 0.0 {
      AverageTimesTotal(received, exited);
    }
  }

  /** What trade_values writes for accepted fills: columns that describe them, the terms as submitted, and what the fills earn. */
  lemma WrittenColumns(input: TradeInput)
    requires TradeValues(input).Ok?
    ensures ExecutionModels(input).Ok?
    ensures var rows, written := ExecutionModels(input).value, TradeValues(input).value;
      if rows == [] then written.header == input.header && Ok(written.result) == CalculateTrade(input.header)
      else
        && Describe(written.header, rows) && written.header.terms == input.header.terms
        && Ok(written.result) == CalculateExecutions(rows, input.header.terms)
  {
    var rows := ExecutionModels(input).value;
    hide ExecutionModels, CalculateTrade, CalculateExecutions, Only, SumQuantity, SumNotional, SumFees, Earliest, Latest, JoinedReason, Describe;
    if rows != [] {
      NothingAddsUpToNothing(rows);
      HeaderDescribes(TradeValues(input).value.header, rows);
    }
  }

  /** What a refresh writes, whatever the header held: the same of the rows, and the terms of the header. */
  lemma RefreshedColumns(rows: seq<Fill>, trade: Figures)
    requires Refresh(rows, trade).Ok?
    ensures var written := Refresh(rows, trade).value;
      if rows == [] then written == trade
      else
        && Describe(written.header, rows) && written.header.terms == trade.header.terms
        && Ok(written.result) == CalculateExecutions(rows, trade.header.terms)
  {
    hide CalculateExecutions, Only, SumQuantity, SumNotional, SumFees, Earliest, Latest, JoinedReason, Describe;
    if rows != [] {
      HeaderDescribes(Refresh(rows, trade).value.header, rows);
    }
  }

  lemma NothingAddsUpToNothing(rows: seq<Fill>)
    ensures Only(rows, Entry) == [] ==> SumQuantity(Only(rows, Entry)) == 0.0
  {
  }

  /** Totals that may stand: something was entered, and no more was sold. */
  predicate Stands(rows: seq<Fill>) {
    (exists f <- rows :: Bought(f)) && SumQuantity(Only(rows, Exit)) <= SumQuantity(Only(rows, Entry))
  }

  /** A refresh of valid fills is refused exactly when their totals may not stand. */
  lemma RefreshAcceptsIff(rows: seq<Fill>, trade: Figures)
    requires forall f <- rows :: ValidFill(f)
    ensures Refresh(rows, trade).Ok? <==> rows == [] || Stands(rows)
  {
    if rows != [] {
      RefreshSummarises(rows, trade);
      DigestFields(rows);
      ValidFillsAreTradable(rows);
      OnlyMembers(rows, Entry);
      EntriesIff(rows);
      hide Refresh, DigestOf, Only, SumQuantity, Settle;
    }
  }

  lemma EntriesIff(rows: seq<Fill>)
    ensures Only(rows, Entry) != [] <==> exists f <- rows :: Bought(f)
  {
    OnlyMembers(rows, Entry);
    if Only(rows, Entry) != [] {
      assert Only(rows, Entry)[0] in Only(rows, Entry);
    }
  }

  // ---- execution_models ----

  /** No fill sells what is not held: after each, no more has been sold than entered. */
  ghost predicate NeverOversold(rows: seq<Fill>) {
    forall k | 0 <= k <= |rows| :: SumQuantity(Only(rows[..k], Exit)) <= SumQuantity(Only(rows[..k], Entry))
  }

  lemma PositionIsHeld(rows: seq<Fill>)
    ensures Position(rows) == SumQuantity(Only(rows, Entry)) - SumQuantity(Only(rows, Exit))
  {
    PositionIsDifference(rows);
    DigestFields(rows);
  }

  /** A submission without fills has none. One with fills is accepted exactly when, taken in time order, they never
      oversell, and a trade submitted as closed has sold all; then they are taken in that order. */
  lemma ModelsAcceptIff(input: TradeInput)
    ensures input.executions == None || input.executions == Some([]) ==> ExecutionModels(input) == Ok([])
    ensures input.executions.Some? && input.executions.value != [] ==>
      var rows := SortByTime(input.executions.value);
      var closes := input.header.status == Closed;
      ExecutionModels(input)
        == if NeverOversold(rows) && (closes ==> SumQuantity(Only(rows, Exit)) == SumQuantity(Only(rows, Entry))) then Ok(rows) else Raised
  {
    if input.executions.Some? && input.executions.value != [] {
      var rows := SortByTime(input.executions.value);
      forall k | 0 <= k <= |rows|
        ensures Position(rows[..k]) >= 0.0 <==> SumQuantity(Only(rows[..k], Exit)) <= SumQuantity(Only(rows[..k], Entry))
      {
        PositionIsHeld(rows[..k]);
      }
      PositionIsHeld(rows);
      hide Only, SumQuantity, Position, SortByTime;
      assert NeverShort(rows) <==> NeverOversold(rows);
    }
  }

  /** Nothing else is refused of a valid submission. */
  lemma ValuesAcceptIff(input: TradeInput)
    requires ValidInput(input)
    ensures TradeValues(input).Ok? <==> ExecutionModels(input).Ok?
  {
    hide ExecutionModels, CalculateExecutions;
    if ExecutionModels(input).Ok? && ExecutionModels(input).value != [] {
      TradeValuesSummarises(input);
    }
  }

  function AtTime(fills: seq<Fill>, at: int): seq<Fill> {
    if fills == [] then [] else (if fills[0].at == at then [fills[0]] else []) + AtTime(fills[1..], at)
  }

  lemma {:induction false} InsertIsStable(f: Fill, fills: seq<Fill>, at: int)
    requires InTimeOrder(fills)
    ensures AtTime(Insert(f, fills), at) == (if f.at == at then [f] else []) + AtTime(fills, at)
  {
    if fills == [] || f.at <= fills[0].at {
      assert ([f] + fills)[1..] == fills;
    } else {
      InsertIsStable(f, fills[1..], at);
      assert Insert(f, fills)[1..] == Insert(f, fills[1..]);
      if f.at == at && fills[0].at == at {
        assert false;
      } else if f.at == at {
        assert [] + AtTime(Insert(f, fills[1..]), at) == AtTime(Insert(f, fills[1..]), at);
        assert [] + AtTime(fills[1..], at) == AtTime(fills[1..], at);
      }
    }
  }

  /** Fills of one time stay in the order in which they were submitted. */
  lemma {:induction false} SortIsStable(fills: seq<Fill>, at: int)
    ensures AtTime(SortByTime(fills), at) == AtTime(fills, at)
  {
    if fills != [] {
      SortIsStable(fills[1..], at);
      SortByTimeSorts(fills[1..]);
      InsertIsStable(fills[0], SortByTime(fills[1..]), at);
    }
  }
}
