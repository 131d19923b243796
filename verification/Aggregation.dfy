/** What every history keeps with amounts of any number of decimals: the header is the aggregate of the fills
    as the request that last aggregated them held them, before the columns rounded them. */
module Aggregation {
  import opened Wrappers
  import opened Decimals
  import opened Calculations
  import opened StoredHeaders
  import opened Ledger
  import opened TradeRequests
  import opened TradeHistory

  /** The rows are the stored form of `held`, and the header is what aggregating `held` stores. */
  ghost predicate Aggregates(held: seq<Fill>, terms: Terms, s: State) {
    && |held| == |s.rows| && (forall i | 0 <= i < |held| :: StoreFill(held[i]) == s.rows[i].fill)
    && StoreTerms(terms) == s.figures.header.terms
    && var read := Refresh(held, Figures(s.figures.header.(terms := terms), s.figures.result));
       read.Ok? && Store(read.value) == s.figures
  }

  ghost predicate Aggregated(s: State) {
    s.rows == [] || exists held, terms :: Aggregates(held, terms, s)
  }

  /** What is stored stays as it is when it is stored again. */
  ghost predicate Rounded(s: State) {
    (forall i | 0 <= i < |s.rows| :: TenFill(s.rows[i].fill)) && TenTerms(s.figures.header.terms)
  }

  /** Payloads the schema accepts. */
  ghost predicate Acceptable(request: Request) {
    match request
    case CreateExecution(payload) => ValidFill(payload)
    case UpdateExecution(_, payload) => ValidFill(payload)
    case DeleteExecution(_) => true
    case UpdateTrade(input) => ValidInput(input)
    case DeleteTrade(_) => true
  }

  lemma StoredIsTen(f: Fill)
    ensures TenFill(StoreFill(f)) && (TenFill(f) ==> StoreFill(f) == f)
  {
    CleanIsTen(f.price);
    CleanIsTen(f.quantity);
    CleanIsTen(f.fee);
    CleanFixesExactlyTen(f.price);
    CleanFixesExactlyTen(f.quantity);
    CleanFixesExactlyTen(f.fee);
  }

  lemma RefreshOverwrites(rows: seq<Fill>, a: Figures, b: Figures)
    requires rows != [] && a.header.terms == b.header.terms
    ensures Refresh(rows, a) == Refresh(rows, b)
  {
    hide Only, SumQuantity, SumNotional, SumFees, Earliest, Latest, JoinedReason, CalculateExecutions;
  }

  lemma EditAggregates(s: State, held: seq<Row>, stored: seq<Row>, nextId: nat)
    requires Edit(s, held, stored, nextId).1 == Done && TenTerms(s.figures.header.terms)
    requires |held| == |stored| && forall i | 0 <= i < |held| :: StoreFill(held[i].fill) == stored[i].fill
    ensures Aggregated(Edit(s, held, stored, nextId).0)
    ensures Rounded(Edit(s, held, stored, nextId).0)
  {
    hide Refresh, Ten, Clean;
    var after := Edit(s, held, stored, nextId).0;
    StoringTerms(s.figures.header.terms);
    forall i | 0 <= i < |held| ensures TenFill(stored[i].fill) {
      StoredIsTen(held[i].fill);
    }
    EditKeepsTerms(s, held, stored, nextId);
    if held != [] {
      RefreshOverwrites(Fills(held), s.figures, Figures(after.figures.header.(terms := s.figures.header.terms), after.figures.result));
      assert Aggregates(Fills(held), s.figures.header.terms, after);
    }
  }

  lemma EditKeepsTerms(s: State, held: seq<Row>, stored: seq<Row>, nextId: nat)
    requires Edit(s, held, stored, nextId).1 == Done && TenTerms(s.figures.header.terms)
    ensures Edit(s, held, stored, nextId).0.figures.header.terms == s.figures.header.terms
  {
    hide Only, SumQuantity, SumNotional, SumFees, Earliest, Latest, JoinedReason, CalculateExecutions;
    StoringTerms(s.figures.header.terms);
  }

  /** An accepted per-fill edit aggregates the rows as its session held them. */
  lemma FillEditAggregates(s: State, request: Request)
    requires Rounded(s) && EditsFills(request) && Apply(s, request).1 == Done
    ensures Rounded(Apply(s, request).0) && Aggregated(Apply(s, request).0)
  {
    hide Refresh, Ten, Clean;
    forall i | 0 <= i < |s.rows| ensures StoreFill(s.rows[i].fill) == s.rows[i].fill {
      StoredIsTen(s.rows[i].fill);
    }
    match request
    case CreateExecution(payload) =>
      EditAggregates(s, s.rows + [Row(s.nextId, payload)], s.rows + [Row(s.nextId, StoreFill(payload))], s.nextId + 1);
    case UpdateExecution(id, payload) =>
      var i := Find(s.rows, id);
      EditAggregates(s, s.rows[i := Row(id, payload)], s.rows[i := Row(id, StoreFill(payload))], s.nextId);
    case DeleteExecution(id) =>
      var i := Find(s.rows, id);
      EditAggregates(s, s.rows[..i] + s.rows[i + 1..], s.rows[..i] + s.rows[i + 1..], s.nextId);
  }

  /** So does writing a submitted list. */
  lemma SubmissionAggregates(input: TradeInput, version: int, deleted: bool, firstId: nat)
    requires ValidInput(input) && ExecutionModels(input).Ok? && TradeValues(input).Ok?
    ensures var models := ExecutionModels(input).value;
      var s := State(Store(TradeValues(input).value), NewRows(models, firstId), version, deleted, firstId + |models|);
      Rounded(s) && Aggregated(s)
  {
    hide Refresh, TradeValues, ExecutionModels, Ten, Clean;
    var models := ExecutionModels(input).value;
    var s := State(Store(TradeValues(input).value), NewRows(models, firstId), version, deleted, firstId + |models|);
    forall i | 0 <= i < |models| ensures TenFill(s.rows[i].fill) {
      StoredIsTen(models[i]);
    }
    WrittenTerms(input);
    StoringTerms(input.header.terms);
    if models != [] {
      BothAggregationsAgree(input, Figures(s.figures.header.(terms := input.header.terms), s.figures.result));
      assert Aggregates(models, input.header.terms, s);
    }
  }

  lemma StepKeepsRounded(s: State, request: Request)
    requires Rounded(s) && Acceptable(request)
    ensures Rounded(Apply(s, request).0)
  {
    hide Refresh, TradeValues, ExecutionModels, Ten, Clean, Rounded, ValidInput;
    if Apply(s, request).1 == Done {
      if EditsFills(request) {
        FillEditAggregates(s, request);
      } else if request.UpdateTrade? {
        HeaderUpdateIsRounded(s, request.input);
      } else {
        RoundedKept(s, Apply(s, request).0);
      }
    }
  }

  lemma RoundedKept(s: State, after: State)
    requires Rounded(s) && after.rows == s.rows && after.figures == s.figures
    ensures Rounded(after)
  {
  }

  lemma HeaderUpdateIsRounded(s: State, input: TradeInput)
    requires Rounded(s) && ValidInput(input) && Apply(s, UpdateTrade(input)).1 == Done
    ensures Rounded(Apply(s, UpdateTrade(input)).0)
    ensures input.executions.Some? ==> Aggregated(Apply(s, UpdateTrade(input)).0)
  {
    hide Refresh, TradeValues, ExecutionModels, Ten, Clean, ValidInput, Aggregated;
    WrittenTerms(input);
    StoringTerms(input.header.terms);
    if input.executions.Some? {
      SubmissionAggregates(input, s.version + 1, s.deleted, s.nextId);
    }
  }

  lemma StepKeepsAggregated(s: State, request: Request)
    requires Rounded(s) && Acceptable(request)
    requires !Rewrites(s, request) && (Aggregated(s) || (Apply(s, request).1 == Done && !request.DeleteTrade?))
    ensures Aggregated(Apply(s, request).0)
  {
    hide Refresh, TradeValues, ExecutionModels, Ten, Clean, Rounded, ValidInput;
    if Apply(s, request).1 == Done {
      if EditsFills(request) {
        FillEditAggregates(s, request);
      } else if request.UpdateTrade? && request.input.executions.Some? {
        HeaderUpdateIsRounded(s, request.input);
      } else if request.DeleteTrade? {
        AggregatedKept(s, Apply(s, request).0);
      }
    }
  }

  lemma AggregatedKept(s: State, after: State)
    requires Aggregated(s) && after.rows == s.rows && after.figures == s.figures
    ensures Aggregated(after)
  {
    if s.rows != [] {
      var held, terms :| Aggregates(held, terms, s);
      assert Aggregates(held, terms, after);
    }
  }

  /** The ledger theorem for amounts of any number of decimals: after any history of accepted payloads, unless
      the last thing to touch the header was an update without a fill list over existing fills, the header is
      the stored aggregate of fills of which the rows are the stored form. */
  lemma {:induction false} HistoryIsAggregated(input: TradeInput, history: seq<Request>)
    requires ValidInput(input) && Create(input).Ok?
    requires forall request <- history :: Acceptable(request)
    ensures Rounded(Run(Create(input).value, history))
    ensures !Stale(Create(input).value, history) ==> Aggregated(Run(Create(input).value, history))
  {
    hide Apply, Rounded, Aggregated, Rewrites;
    var s0 := Create(input).value;
    if history == [] {
      SubmissionAggregates(input, 1, false, 0);
    } else {
      var before, last := history[..|history| - 1], history[|history| - 1];
      HistoryIsAggregated(input, before);
      var s := Run(s0, before);
      StepKeepsRounded(s, last);
      if !Stale(s0, history) {
        StepKeepsAggregated(s, last);
      }
    }
  }

  // ---- how far the header can be from the stored fills ----

  predicate NearDigest(a: Digest, b: Digest, bound: real) {
    && a.entryAt == b.entryAt && a.exitAt == b.exitAt && a.entryText == b.entryText && a.exitText == b.exitText
    && Near(a.entryQuantity, b.entryQuantity, bound) && Near(a.exitQuantity, b.exitQuantity, bound)
    && Near(a.fees, b.fees, bound)
  }

  lemma {:induction false} StoringFills(held: seq<Fill>, stored: seq<Fill>)
    requires |held| == |stored| && forall i | 0 <= i < |held| :: StoreFill(held[i]) == stored[i]
    ensures NearDigest(DigestOf(held), DigestOf(stored), |held| as real * HALF_UNIT)
  {
    if held != [] {
      StoringFills(held[1..], stored[1..]);
      StoringOne(held[0], stored[0], DigestOf(held[1..]), DigestOf(stored[1..]), |held[1..]| as real * HALF_UNIT);
    }
  }

  lemma StoringOne(f: Fill, g: Fill, d: Digest, e: Digest, bound: real)
    requires g == StoreFill(f) && NearDigest(d, e, bound)
    ensures NearDigest(Plus(One(f), d), Plus(One(g), e), bound + HALF_UNIT)
  {
    var quantity, fee := Clean(f.quantity), Clean(f.fee);
    hide Clean;
    assert HALF_UNIT > 0.0;
  }

  lemma RefreshOfDigest(rows: seq<Fill>, trade: Figures)
    requires rows != [] && Refresh(rows, trade).Ok?
    ensures var d, h := DigestOf(rows), Refresh(rows, trade).value.header;
      && d.entryAt == Some(h.entryAt) && d.exitAt == h.exitAt && h.size == d.entryQuantity && h.fees == d.fees
      && h.entryReason == Joined(d.entryText) && h.exitReason == Joined(d.exitText)
  {
    DigestFields(rows);
    hide CalculateExecutions, Only, SumQuantity, SumNotional, SumFees, Earliest, Latest, JoinedReason, DigestOf;
  }

  /** An aggregated header has the times and the lengths of the reasons of its stored fills exactly, and their size
      and fees within half a unit of the tenth decimal per fill and one more half. */
  lemma AggregatedIsNear(s: State)
    requires Aggregated(s) && s.rows != []
    ensures var h, d, bound := s.figures.header, DigestOf(Fills(s.rows)), (|s.rows| as real + 1.0) * HALF_UNIT;
      && d.entryAt == Some(h.entryAt) && d.exitAt == h.exitAt
      && h.entryReason == Joined(d.entryText) && h.exitReason == Joined(d.exitText)
      && Near(h.size, d.entryQuantity, bound) && Near(h.fees, d.fees, bound)
  {
    var held, terms :| Aggregates(held, terms, s);
    var trade := Figures(s.figures.header.(terms := terms), s.figures.result);
    hide Refresh, DigestOf;
    RefreshOfDigest(held, trade);
    StoringFills(held, Fills(s.rows));
    NearStored(DigestOf(held), DigestOf(Fills(s.rows)), |held| as real * HALF_UNIT);
  }

  lemma NearStored(d: Digest, e: Digest, bound: real)
    requires NearDigest(d, e, bound)
    ensures Near(Clean(d.entryQuantity), e.entryQuantity, bound + HALF_UNIT)
    ensures Near(Clean(d.fees), e.fees, bound + HALF_UNIT)
  {
  }

  // ---- and its average prices ----

  function Abs(x: real): real {
    if x >= 0.0 then x else -x
  }

  /** How far rounding price and quantity of each fill can move what the fills are worth together. */
  function Leeway(stored: seq<Fill>): real {
    if stored == [] then 0.0 else OneLeeway(stored[0].price, stored[0].quantity) + Leeway(stored[1..])
  }

  function OneLeeway(price: real, quantity: real): real {
    HALF_UNIT * (Abs(price) + HALF_UNIT + Abs(quantity))
  }

  ghost predicate StoredFrom(held: seq<Fill>, stored: seq<Fill>) {
    |held| == |stored| && forall i | 0 <= i < |held| :: StoreFill(held[i]) == stored[i]
  }

  lemma {:induction false} NotionalNear(held: seq<Fill>, stored: seq<Fill>)
    requires StoredFrom(held, stored)
    ensures Near(SumNotional(held), SumNotional(stored), Leeway(stored))
    ensures Leeway(stored) >= 0.0
  {
    if held == [] {
      NearItself(0.0);
    } else {
      RestStoredFrom(held, stored);
      hide *;
      NotionalNear(held[1..], stored[1..]);
      WorthNear(held[0], stored[0]);
      NotionalStep(held, stored);
    }
  }

  lemma RestStoredFrom(held: seq<Fill>, stored: seq<Fill>)
    requires StoredFrom(held, stored) && held != []
    ensures stored != [] && StoredFrom(held[1..], stored[1..])
    ensures Near(stored[0].price, held[0].price, HALF_UNIT) && Near(stored[0].quantity, held[0].quantity, HALF_UNIT)
  {
    StoredOneIsNear(held[0], stored[0]);
    hide StoreFill, Near;
  }

  lemma NotionalStep(held: seq<Fill>, stored: seq<Fill>)
    requires held != [] && stored != []
    requires Near(Worth(held[0]), Worth(stored[0]), OneLeeway(stored[0].price, stored[0].quantity))
    requires Near(SumNotional(held[1..]), SumNotional(stored[1..]), Leeway(stored[1..])) && Leeway(stored[1..]) >= 0.0
    requires OneLeeway(stored[0].price, stored[0].quantity) >= 0.0
    ensures Near(SumNotional(held), SumNotional(stored), Leeway(stored)) && Leeway(stored) >= 0.0
  {
    hide Near, OneLeeway;
    NotionalCons(held);
    NotionalCons(stored);
    hide SumNotional;
    SumNear(Worth(held[0]), Worth(stored[0]), OneLeeway(stored[0].price, stored[0].quantity),
            SumNotional(held[1..]), SumNotional(stored[1..]), Leeway(stored[1..]));
  }

  /** Half a unit for each of n fills. */
  function Halves(n: nat): real {
    n as real * HALF_UNIT
  }

  lemma HalvesStep(n: nat)
    ensures Halves(n + 1) == HALF_UNIT + Halves(n) && Halves(n) >= 0.0
  {
  }

  lemma {:induction false} QuantityNear(held: seq<Fill>, stored: seq<Fill>)
    requires StoredFrom(held, stored)
    ensures Near(SumQuantity(held), SumQuantity(stored), Halves(|stored|))
  {
    if held == [] {
      NearItself(0.0);
      assert Halves(0) == 0.0;
    } else {
      StoredOneIsNear(held[0], stored[0]);
      QuantityNear(held[1..], stored[1..]);
      HalvesStep(|stored[1..]|);
      hide StoreFill, Near, Halves;
      SumNear(held[0].quantity, stored[0].quantity, HALF_UNIT, SumQuantity(held[1..]), SumQuantity(stored[1..]), Halves(|stored[1..]|));
    }
  }

  lemma NearItself(x: real)
    ensures Near(x, x, 0.0)
  {
  }

  lemma StoredOneIsNear(f: Fill, g: Fill)
    requires g == StoreFill(f)
    ensures Near(g.price, f.price, HALF_UNIT) && Near(g.quantity, f.quantity, HALF_UNIT)
    ensures Near(f.quantity, g.quantity, HALF_UNIT)
  {
  }

  lemma SumNear(a: real, b: real, bound: real, c: real, d: real, more: real)
    requires Near(a, b, bound) && Near(c, d, more)
    ensures Near(a + c, b + d, bound + more)
  {
  }

  function Worth(f: Fill): real {
    f.price * f.quantity
  }

  lemma NotionalCons(fills: seq<Fill>)
    requires fills != []
    ensures SumNotional(fills) == Worth(fills[0]) + SumNotional(fills[1..])
  {
  }

  lemma WorthNear(f: Fill, g: Fill)
    requires Near(g.price, f.price, HALF_UNIT) && Near(g.quantity, f.quantity, HALF_UNIT)
    ensures Near(Worth(f), Worth(g), OneLeeway(g.price, g.quantity)) && OneLeeway(g.price, g.quantity) >= 0.0
  {
    ProductsNear(f.price, f.quantity, g.price, g.quantity);
  }

  lemma ProductsNear(p: real, q: real, p': real, q': real)
    requires Near(p', p, HALF_UNIT) && Near(q', q, HALF_UNIT)
    ensures Near(p * q, p' * q', OneLeeway(p', q'))
    ensures OneLeeway(p', q') >= 0.0
  {
    // p * q - p' * q' == p * (q - q') + (p - p') * q'
    var bound := Abs(p') + HALF_UNIT;
    ProductWithin(q - q', p, HALF_UNIT, bound);
    ProductWithin(p - p', q', HALF_UNIT, Abs(q'));
    DifferenceTimes(q, q', p);
    DifferenceTimes(p, p', q');
    Commutes(p, q);
    Commutes(p, q');
    Distribute(HALF_UNIT, bound, Abs(q'));
    NonNegativeProduct(HALF_UNIT, bound + Abs(q'));
  }

  lemma ProductWithin(x: real, y: real, a: real, b: real)
    requires Near(x, 0.0, a) && Near(y, 0.0, b) && a >= 0.0
    ensures Near(x * y, 0.0, a * b)
  {
    Scaled(x, a, Abs(y));
    NonNegativeProduct(a, b - Abs(y));
    DifferenceTimes(b, Abs(y), a);
    Commutes(a, b);
    Commutes(a, Abs(y));
    if y < 0.0 {
      NegateProduct(y, x);
      Commutes(x, y);
      Commutes(x, -y);
    }
  }

  /** A ratio near another, r, whose terms are near its own. */
  lemma AverageNear(n: real, q: real, n': real, q': real, r: real, b: real, c: real)
    requires Near(n, n', b) && Near(q, q', c) && 0.0 <= c < q' && b >= 0.0 && n' == r * q'
    ensures q > 0.0
    ensures Near(n / q, r, (b + c * Abs(r)) / (q' - c))
  {
    NonNegativeProduct(c, Abs(r));
    AverageError(n, q, n', q', r, b, c);
    AverageWithin(n, q, q', r, b + c * Abs(r), c);
  }

  lemma AverageError(n: real, q: real, n': real, q': real, r: real, b: real, c: real)
    requires Near(n, n', b) && Near(q, q', c) && c >= 0.0 && n' == r * q'
    ensures Near(n - r * q, 0.0, b + c * Abs(r))
  {
    ProductWithin(q' - q, r, c, Abs(r));
    DifferenceTimes(q', q, r);
    Commutes(q', r);
    Commutes(q, r);
    ChainNear(n, n', r * q, b, c * Abs(r));
  }

  lemma ChainNear(a: real, b: real, c: real, first: real, second: real)
    requires Near(a, b, first) && Near(b - c, 0.0, second)
    ensures Near(a - c, 0.0, first + second)
  {
  }

  lemma AverageWithin(n: real, q: real, q': real, r: real, total: real, c: real)
    requires Near(q, q', c) && 0.0 <= c < q' && total >= 0.0 && Near(n - r * q, 0.0, total)
    ensures q > 0.0 && Near(n / q, r, total / (q' - c))
  {
    ErrorRatio(n, q, r, n - r * q);
    DividedNear(n - r * q, total, q);
    SmallerDivisor(total, q' - c, q);
    WiderNear((n - r * q) / q, n / q, r, total / q, total / (q' - c));
  }

  lemma WiderNear(error: real, a: real, b: real, narrow: real, wide: real)
    requires Near(error, 0.0, narrow) && error == a - b && narrow <= wide
    ensures Near(a, b, wide)
  {
  }

  lemma SmallerDivisor(a: real, small: real, large: real)
    requires a >= 0.0 && 0.0 < small <= large
    ensures a / large <= a / small
  {
    var x, y := a / large, a / small;
    assert x * large == a && y * small == a;
    NonNegativeRatio(a, small);
    ScaledUp(large, small, y);
    Commutes(large, y);
    Commutes(small, y);
    if x > y {
      StrictlyScaled(y, x, large);
    }
  }

  lemma {:induction false} OnlyStored(held: seq<Fill>, stored: seq<Fill>, action: Action)
    requires StoredFrom(held, stored)
    ensures StoredFrom(Only(held, action), Only(stored, action))
  {
    if held != [] {
      hide StoreFill;
      OnlyStored(held[1..], stored[1..], action);
      SameAction(held[0], stored[0]);
    }
  }

  lemma SameAction(f: Fill, g: Fill)
    requires g == StoreFill(f)
    ensures g.action == f.action
  {
  }

  /** The allowance for an average of the stored fills. */
  function AverageLeeway(stored: seq<Fill>): real
    requires SumQuantity(stored) > Halves(|stored|)
  {
    AverageAllowance(SumNotional(stored) / SumQuantity(stored), Leeway(stored), SumQuantity(stored), Halves(|stored|))
  }

  function AverageAllowance(r: real, b: real, q: real, c: real): real
    requires q > c
  {
    (b + c * Abs(r)) / (q - c) + HALF_UNIT
  }

  lemma AverageOfStored(held: seq<Fill>, stored: seq<Fill>)
    requires StoredFrom(held, stored) && SumQuantity(stored) > Halves(|stored|)
    ensures SumQuantity(held) > 0.0
    ensures Near(Clean(SumNotional(held) / SumQuantity(held)), SumNotional(stored) / SumQuantity(stored), AverageLeeway(stored))
  {
    NotionalNear(held, stored);
    QuantityNear(held, stored);
    HalvesStep(|stored|);
    hide SumNotional, SumQuantity, Leeway, Near, Clean, Halves, StoredFrom, AverageAllowance;
    RoundedAverageNear(SumNotional(held), SumQuantity(held), SumNotional(stored), SumQuantity(stored), Leeway(stored), Halves(|stored|));
  }

  lemma RoundedAverageNear(n: real, q: real, n': real, q': real, b: real, c: real)
    requires Near(n, n', b) && Near(q, q', c) && 0.0 <= c < q' && b >= 0.0
    ensures q > 0.0
    ensures Near(Clean(n / q), n' / q', AverageAllowance(n' / q', b, q', c))
  {
    var r := n' / q';
    assert n' == r * q';
    hide *;
    AllowedNear(n, q, n', q', r, b, c);
  }

  lemma AllowedNear(n: real, q: real, n': real, q': real, r: real, b: real, c: real)
    requires Near(n, n', b) && Near(q, q', c) && 0.0 <= c < q' && b >= 0.0 && n' == r * q'
    ensures q > 0.0
    ensures Near(Clean(n / q), r, AverageAllowance(r, b, q', c))
  {
    hide Near, Clean, Abs;
    AverageNear(n, q, n', q', r, b, c);
    RoundedNear(n / q, r, (b + c * Abs(r)) / (q' - c));
  }

  lemma RoundedNear(a: real, b: real, bound: real)
    requires Near(a, b, bound)
    ensures Near(Clean(a), b, bound + HALF_UNIT)
  {
  }

  /** Where the stored quantity of one action exceeds what rounding can have added, the header's average price is
      that of the stored fills within the allowance. */
  lemma AggregatedPricesAreNear(s: State)
    requires Aggregated(s) && s.rows != []
    ensures var h, entries, exits := s.figures.header, Only(Fills(s.rows), Entry), Only(Fills(s.rows), Exit);
      && (SumQuantity(entries) > Halves(|entries|) ==>
            Near(h.entryPrice, SumNotional(entries) / SumQuantity(entries), AverageLeeway(entries)))
      && (SumQuantity(exits) > Halves(|exits|) ==>
            h.exitPrice.Some? && Near(h.exitPrice.value, SumNotional(exits) / SumQuantity(exits), AverageLeeway(exits)))
  {
    var held, terms :| Aggregates(held, terms, s);
    var fills := Fills(s.rows);
    OnlyStored(held, fills, Entry);
    OnlyStored(held, fills, Exit);
    var trade := Figures(s.figures.header.(terms := terms), s.figures.result);
    RefreshedPrices(held, trade);
    hide Refresh, AverageLeeway, Only, SumQuantity, SumNotional, Clean;
    if SumQuantity(Only(fills, Entry)) > Halves(|Only(fills, Entry)|) {
      AverageOfStored(Only(held, Entry), Only(fills, Entry));
    }
    if SumQuantity(Only(fills, Exit)) > Halves(|Only(fills, Exit)|) {
      AverageOfStored(Only(held, Exit), Only(fills, Exit));
    }
  }

  lemma RefreshedPrices(rows: seq<Fill>, trade: Figures)
    requires rows != [] && Refresh(rows, trade).Ok?
    ensures SumQuantity(Only(rows, Entry)) > 0.0
    ensures var h, exits := Refresh(rows, trade).value.header, Only(rows, Exit);
      && h.entryPrice == SumNotional(Only(rows, Entry)) / SumQuantity(Only(rows, Entry))
      && (SumQuantity(exits) != 0.0 ==> h.exitPrice == Some(SumNotional(exits) / SumQuantity(exits)))
  {
    hide Only, SumQuantity, SumNotional, SumFees, Earliest, Latest, JoinedReason, CalculateExecutions;
  }

  /** With ten decimals nothing is rounded, and the aggregate is that of the stored fills. */
  lemma TenDecimalsAreFaithful(held: seq<Fill>, terms: Terms, s: State)
    requires Aggregates(held, terms, s) && s.rows != [] && TenTerms(terms)
    requires forall f <- held :: ValidFill(f) && TenFill(f)
    ensures Faithful(s)
  {
    hide Refresh, Ten, Clean;
    StoringTerms(terms);
    forall i | 0 <= i < |held| ensures held[i] == s.rows[i].fill {
      assert held[i] in held;
      StoredIsTen(held[i]);
    }
    assert Fills(s.rows) == held;
    RefreshSummarises(held, Figures(s.figures.header.(terms := terms), s.figures.result));
  }
}
