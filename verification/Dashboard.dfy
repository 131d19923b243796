/** Metrics and groupings over the trades of one page. */
module Dashboard {
  import opened Wrappers
  import opened Decimals
  import opened Calculations
  import opened StoredHeaders
  import opened Ledger
  import opened TradeRequests
  import opened TradeHistory
  import opened Aggregation

  /** A trade on the page; `fx` is the rate its result was computed with. */
  datatype Item = Item(status: Status, result: Calculation, fx: real, market: string, strategy: string, day: int, grade: Option<string>)

  /** Results come out of one of the calculators. */
  ghost predicate Computed(item: Item) {
    item.fx >= 0.0 && FromNet(item.result, item.fx)
  }

  // ---- what the ledger writes ----

  /** Figures whose result rounds one exact net result at a rate of which the stored one is the rounding, and which
      have a result when the trade is closed. */
  ghost predicate Sound(f: Figures, rate: real) {
    && Clean(rate) == f.header.terms.fx && rate >= 0.0
    && FromNet(f.result, rate) && (f.header.status.Closed? ==> f.result.Settled?)
  }

  /** A submission, with or without fills, computes with the rate submitted. */
  lemma SubmissionIsSound(input: TradeInput)
    requires ValidInput(input) && TradeValues(input).Ok?
    ensures Sound(Store(TradeValues(input).value), input.header.terms.fx)
  {
    hide FromNet, Settle, CalculateExecutions, Ten, Clean;
    WrittenTerms(input);
    if ExecutionModels(input).value != [] {
      var d := DigestOf(ExecutionModels(input).value);
      TradeValuesSummarises(input);
      SettleRoundsOneNet(d, input.header.terms);
      TradableSettles(d, input.header.terms);
    } else {
      TradeRoundsOneNet(input.header);
    }
  }

  lemma TradableSettles(d: Digest, terms: Terms)
    requires Tradable(d)
    ensures Settle(d, terms).Ok? && (d.exitQuantity > 0.0 ==> Settle(d, terms).value.Settled?)
  {
    SettleOk(d, terms);
  }

  /** A refresh, of whatever fills it accepts, computes with the rate stored; without fills it computes nothing. */
  lemma RefreshIsSound(rows: seq<Fill>, trade: Figures, rate: real)
    requires Sound(trade, rate) && Refresh(rows, trade).Ok?
    ensures Sound(Store(Refresh(rows, trade).value), if rows == [] then rate else trade.header.terms.fx)
  {
    RateAsStored(rate);
    hide FromNet, Ten, Clean, Settle, Earliest, Latest, JoinedReason, SumNotional, SumFees;
    if rows != [] {
      CalculateExecutionsIsSettle(rows, trade.header.terms);
      SettleRoundsOneNet(DigestOf(rows), trade.header.terms);
      if Refresh(rows, trade).value.header.status.Closed? {
        ClosedIsSettled(rows, trade);
      }
    }
  }

  lemma RateAsStored(rate: real)
    ensures Clean(Clean(rate)) == Clean(rate) && (rate >= 0.0 ==> Clean(rate) >= 0.0)
  {
    CleanIsTen(rate);
  }

  lemma ClosedIsSettled(rows: seq<Fill>, trade: Figures)
    requires rows != [] && Refresh(rows, trade).Ok? && Refresh(rows, trade).value.header.status.Closed?
    ensures Refresh(rows, trade).value.result.Settled?
  {
    hide Only, Earliest, Latest, JoinedReason, SumNotional, SumFees, Gross, Clean, RMultiple, Converted, HoldMinutes;
    assert Only(rows, Exit) == [] ==> SumQuantity(Only(rows, Exit)) == 0.0;
  }

  /** The rate a trade's result was last computed with: the submitted one when the header was, the stored one when
      fills were aggregated again. */
  function RateAfter(s: State, rate: real, request: Request): real {
    if Apply(s, request).1 != Done || request.DeleteTrade? then rate else
    if request.UpdateTrade? then request.input.header.terms.fx else
    if Apply(s, request).0.rows == [] then rate else s.figures.header.terms.fx
  }

  function RateOf(s: State, rate: real, history: seq<Request>): real {
    if history == [] then rate else
    var before, last := history[..|history| - 1], history[|history| - 1];
    RateAfter(Run(s, before), RateOf(s, rate, before), last)
  }

  lemma StepIsSound(s: State, rate: real, request: Request)
    requires Sound(s.figures, rate) && Acceptable(request)
    ensures Sound(Apply(s, request).0.figures, RateAfter(s, rate, request))
  {
    hide Sound, Refresh, TradeValues, ExecutionModels, ValidInput, ValidFill, Ten, Store, StoreFill;
    match request
    case CreateExecution(payload) =>
      EditIsSound(s, rate, s.rows + [Row(s.nextId, payload)], s.rows + [Row(s.nextId, StoreFill(payload))], s.nextId + 1);
    case UpdateExecution(id, payload) =>
      var i := Find(s.rows, id);
      if i < |s.rows| {
        EditIsSound(s, rate, s.rows[i := Row(id, payload)], s.rows[i := Row(id, StoreFill(payload))], s.nextId);
      }
    case DeleteExecution(id) =>
      var i := Find(s.rows, id);
      if i < |s.rows| {
        EditIsSound(s, rate, s.rows[..i] + s.rows[i + 1..], s.rows[..i] + s.rows[i + 1..], s.nextId);
      }
    case UpdateTrade(input) =>
      if Apply(s, request).1 == Done {
        SubmissionIsSound(input);
      }
    case DeleteTrade(_) =>
  }

  lemma EditIsSound(s: State, rate: real, held: seq<Row>, stored: seq<Row>, nextId: nat)
    requires Sound(s.figures, rate) && |held| == |stored|
    ensures var (after, reply) := Edit(s, held, stored, nextId);
      Sound(after.figures, if reply != Done || stored == [] then rate else s.figures.header.terms.fx)
  {
    hide Sound, Refresh, Store;
    if Edit(s, held, stored, nextId).1 == Done {
      RefreshIsSound(Fills(held), s.figures, rate);
    }
  }

  /** After every history, stale or not: the stored result of a trade rounds one exact net result at the rate last
      computed with, of which the stored rate is the rounding, and a closed trade has a result. */
  lemma {:induction false} HistoryIsSound(input: TradeInput, history: seq<Request>)
    requires ValidInput(input) && Create(input).Ok?
    requires forall request <- history :: Acceptable(request)
    ensures Sound(Run(Create(input).value, history).figures, RateOf(Create(input).value, input.header.terms.fx, history))
  {
    hide Apply, Sound, Acceptable, RateAfter;
    var s0, rate := Create(input).value, input.header.terms.fx;
    if history == [] {
      SubmissionIsSound(input);
    } else {
      var before, last := history[..|history| - 1], history[|history| - 1];
      HistoryIsSound(input, before);
      StepIsSound(Run(s0, before), RateOf(s0, rate, before), last);
    }
  }

  /** Every rate that is submitted has ten decimals at most. */
  predicate RateIsTen(request: Request) {
    request.UpdateTrade? ==> Ten(request.input.header.terms.fx)
  }

  /** Then the rate computed with is the rate stored, and positive. */
  lemma {:induction false} TenRatesAreStored(input: TradeInput, history: seq<Request>)
    requires ValidInput(input) && Ten(input.header.terms.fx) && Create(input).Ok?
    requires forall request <- history :: Acceptable(request) && RateIsTen(request)
    ensures var rate := RateOf(Create(input).value, input.header.terms.fx, history);
      rate == Run(Create(input).value, history).figures.header.terms.fx && rate > 0.0
  {
    var s0, fx := Create(input).value, input.header.terms.fx;
    hide Ten, Clean;
    CleanFixesExactlyTen(RateOf(s0, fx, history));
    HistoryIsSound(input, history);
    RatesAreTen(input, history);
  }

  lemma {:induction false} RatesAreTen(input: TradeInput, history: seq<Request>)
    requires ValidInput(input) && Ten(input.header.terms.fx) && Create(input).Ok?
    requires forall request <- history :: Acceptable(request) && RateIsTen(request)
    ensures var rate := RateOf(Create(input).value, input.header.terms.fx, history); Ten(rate) && rate > 0.0
  {
    hide Ten, Clean, Apply, Run;
    if history != [] {
      var s0, fx := Create(input).value, input.header.terms.fx;
      var before, last := history[..|history| - 1], history[|history| - 1];
      assert last in history && Acceptable(last) && RateIsTen(last);
      RatesAreTen(input, before);
      HistoryIsSound(input, before);
      CleanFixesExactlyTen(RateOf(s0, fx, before));
      RateAfterIsOneOf(Run(s0, before), RateOf(s0, fx, before), last);
    }
  }

  lemma RateAfterIsOneOf(s: State, rate: real, request: Request)
    requires Acceptable(request) && RateIsTen(request)
    ensures var after := RateAfter(s, rate, request);
      after == rate || after == s.figures.header.terms.fx || (Ten(after) && after > 0.0)
  {
    hide Apply, Ten;
  }

  /** A trade as some history of the ledger left it. */
  ghost predicate FromLedger(item: Item) {
    exists input, history :: LeftBy(item, input, history)
  }

  ghost predicate LeftBy(item: Item, input: TradeInput, history: seq<Request>) {
    && ValidInput(input) && Create(input).Ok? && (forall request <- history :: Acceptable(request))
    && var f := Run(Create(input).value, history).figures;
       && item.status == f.header.status && item.result == f.result
       && item.fx == RateOf(Create(input).value, input.header.terms.fx, history)
  }

  lemma LedgerItemsAreComputed(item: Item)
    requires FromLedger(item)
    ensures Computed(item) && (IsClosed(item) ==> IsSettled(item))
  {
    var input, history :| LeftBy(item, input, history);
    hide Create, Run, RateOf, ValidInput, FromNet, Clean;
    HistoryIsSound(input, history);
  }

  // ---- sums over items ----

  function Cny(item: Item): real {
    if item.result.Settled? then item.result.cny else 0.0
  }

  function Unit(item: Item): real {
    1.0
  }

  function Weigh<T>(items: seq<T>, weight: T -> real): real {
    if items == [] then 0.0 else Weigh(items[..|items| - 1], weight) + weight(items[|items| - 1])
  }

  function Select(items: seq<Item>, p: Item -> bool): seq<Item> {
    if items == [] then [] else
    Select(items[..|items| - 1], p) + if p(items[|items| - 1]) then [items[|items| - 1]] else []
  }

  lemma WeighAppends<T>(items: seq<T>, item: T, weight: T -> real)
    ensures Weigh(items + [item], weight) == Weigh(items, weight) + weight(item)
  {
    assert (items + [item])[..|items|] == items;
  }

  lemma {:induction false} WeighSplits<T>(a: seq<T>, b: seq<T>, weight: T -> real)
    ensures Weigh(a + b, weight) == Weigh(a, weight) + Weigh(b, weight)
  {
    if b == [] {
      assert a + b == a;
    } else {
      assert (a + b)[..|a + b| - 1] == a + b[..|b| - 1];
      WeighSplits(a, b[..|b| - 1], weight);
    }
  }

  lemma WeighRemove<T>(a: seq<T>, i: nat, weight: T -> real)
    requires i < |a|
    ensures Weigh(a, weight) == Weigh(a[..i] + a[i + 1..], weight) + weight(a[i])
    ensures multiset(a[..i] + a[i + 1..]) == multiset(a) - multiset{a[i]}
  {
    hide Weigh;
    assert a == (a[..i] + [a[i]]) + a[i + 1..];
    WeighWithout(a[..i], a[i], a[i + 1..], weight);
  }

  lemma WeighWithout<T>(before: seq<T>, x: T, after: seq<T>, weight: T -> real)
    ensures Weigh((before + [x]) + after, weight) == Weigh(before + after, weight) + weight(x)
  {
    hide Weigh;
    WeighSplits(before + [x], after, weight);
    WeighAppends(before, x, weight);
    WeighSplits(before, after, weight);
  }

  /** A sum does not depend on the order. */
  lemma {:induction false} WeighPermutes<T>(a: seq<T>, b: seq<T>, weight: T -> real)
    requires multiset(a) == multiset(b)
    ensures |a| == |b| && Weigh(a, weight) == Weigh(b, weight)
    decreases |a|
  {
    assert |multiset(a)| == |a| && |multiset(b)| == |b|;
    if a != [] {
      hide Weigh;
      assert a[0] in multiset(b);
      var i :| 0 <= i < |b| && b[i] == a[0];
      WeighRemove(a, 0, weight);
      WeighRemove(b, i, weight);
      WeighPermutes(a[..0] + a[1..], b[..i] + b[i + 1..], weight);
    }
  }

  lemma {:induction false} WeighUnits(items: seq<Item>)
    ensures Weigh(items, Unit) == |items| as real
  {
    if items != [] {
      WeighUnits(items[..|items| - 1]);
    }
  }

  // ---- aggregate_metrics ----

  predicate IsClosed(item: Item) { item.status.Closed? }
  predicate IsOpen(item: Item) { item.status.Open? }
  predicate IsSettled(item: Item) { item.status.Closed? && item.result.Settled? }
  predicate IsWinner(item: Item) { IsSettled(item) && item.result.winning }
  predicate IsLoss(item: Item) { IsSettled(item) && item.result.net < 0.0 }
  predicate HasR(item: Item) { IsSettled(item) && item.result.r.Some? }
  predicate IsGraded(item: Item) { IsSettled(item) && item.grade.Some? }
  predicate IsGradeA(item: Item) { IsSettled(item) && item.grade == Some("A") }

  function Magnitude(item: Item): real {
    if Cny(item) < 0.0 then -Cny(item) else Cny(item)
  }

  function RValue(item: Item): real {
    if HasR(item) then item.result.r.value else 0.0
  }

  /** The displayed figures, beside the unrounded sums they come from. */
  datatype Metrics = Metrics(closed: nat, open: nat, net: real, profit: real, loss: real,
                             netShown: real, winRate: Option<real>, totalR: Option<real>, average: Option<real>,
                             gradeARate: Option<real>, profitFactor: Option<real>)

  function AggregateMetrics(items: seq<Item>): Metrics {
    var closed, winners, losses := Select(items, IsSettled), Select(items, IsWinner), Select(items, IsLoss);
    var withR, graded := Select(items, HasR), Select(items, IsGraded);
    var net, profit, loss := Weigh(closed, Cny), Weigh(winners, Cny), Weigh(losses, Magnitude);
    Metrics(|closed|, |Select(items, IsOpen)|, net, profit, loss, Cents(net),
            if closed == [] then None else Some(|winners| as real / |closed| as real),
            if withR == [] then None else Some(Cents(Weigh(withR, RValue))),
            if closed == [] then None else Some(Cents(net / |closed| as real)),
            if graded == [] then None else Some(|Select(items, IsGradeA)| as real / |graded| as real),
            if loss > 0.0 then Some(Cents(profit / loss)) else None)
  }

  /** A selection holds the items it is made for, each as often as it occurs. */
  lemma {:induction false} SelectKeeps(items: seq<Item>, p: Item -> bool, item: Item)
    ensures multiset(Select(items, p))[item] == if p(item) then multiset(items)[item] else 0
  {
    if items != [] {
      var n := |items| - 1;
      SelectKeeps(items[..n], p, item);
      assert items == items[..n] + [items[n]];
      var last := if p(items[n]) then [items[n]] else [];
      assert multiset(Select(items[..n], p) + last) == multiset(Select(items[..n], p)) + multiset(last);
    }
  }

  /** How many items are of a kind. */
  function HowMany(items: seq<Item>, p: Item -> bool): nat {
    if items == [] then 0 else (if p(items[0]) then 1 else 0) + HowMany(items[1..], p)
  }

  /** What a quantity of the items of a kind adds up to. */
  function Total(items: seq<Item>, p: Item -> bool, weight: Item -> real): real {
    if items == [] then 0.0 else (if p(items[0]) then weight(items[0]) else 0.0) + Total(items[1..], p, weight)
  }

  lemma {:induction false} SelectIsCounted(items: seq<Item>, p: Item -> bool, weight: Item -> real)
    ensures |Select(items, p)| == HowMany(items, p) && Weigh(Select(items, p), weight) == Total(items, p, weight)
  {
    if items != [] {
      SelectIsCounted(items[1..], p, weight);
      SelectFirst(items[0], items[1..], p);
      assert items == [items[0]] + items[1..];
      var head := if p(items[0]) then [items[0]] else [];
      WeighSplits(head, Select(items[1..], p), weight);
      WeighAppends([], items[0], weight);
      assert [] + [items[0]] == [items[0]];
    }
  }

  lemma {:induction false} SelectFirst(item: Item, items: seq<Item>, p: Item -> bool)
    ensures Select([item] + items, p) == (if p(item) then [item] else []) + Select(items, p)
  {
    var all := [item] + items;
    if items == [] {
      assert all[..0] == [] && Select(all[..0], p) == [];
    } else {
      var n := |items| - 1;
      assert all[..|all| - 1] == [item] + items[..n] && all[|all| - 1] == items[n];
      SelectFirst(item, items[..n], p);
    }
  }

  /** The kinds of trades the metrics are about, written out. */
  predicate Finished(item: Item) { item.status == Closed && item.result.Settled? }
  predicate Won(item: Item) { Finished(item) && item.result.winning }
  predicate Lost(item: Item) { Finished(item) && item.result.net < 0.0 }
  predicate Measured(item: Item) { Finished(item) && item.result.r.Some? }
  predicate Graded(item: Item) { Finished(item) && item.grade.Some? }
  predicate GradedA(item: Item) { Finished(item) && item.grade == Some("A") }
  predicate StillOpen(item: Item) { item.status == Open }

  function CnyOf(item: Item): real { if item.result.Settled? then item.result.cny else 0.0 }
  function ROf(item: Item): real { if item.result.Settled? && item.result.r.Some? then item.result.r.value else 0.0 }

  /** Every figure of the metrics as an equation over the items: how many finished and are open; what they made, won and
      lost; the share that won; the total R, the average and the ratio of won to lost, in cents; the share of grade A. */
  lemma MetricsMean(items: seq<Item>)
    ensures var m := AggregateMetrics(items);
      var finished, net := HowMany(items, Finished), Total(items, Finished, CnyOf);
      var won, lost := Total(items, Won, CnyOf), Total(items, Lost, Magnitude);
      && m.closed == finished && m.open == HowMany(items, StillOpen)
      && m.net == net && m.profit == won && m.loss == lost && m.netShown == Cents(net)
      && (m.winRate == None <==> finished == 0)
      && (m.winRate.Some? ==> m.winRate.value * finished as real == HowMany(items, Won) as real)
      && (m.totalR == None <==> HowMany(items, Measured) == 0)
      && (m.totalR.Some? ==> m.totalR.value == Cents(Total(items, Measured, ROf)))
      && (m.average == None <==> finished == 0)
      && (m.average.Some? ==> exists exact: real :: exact * finished as real == net && m.average.value == Cents(exact))
      && (m.gradeARate == None <==> HowMany(items, Graded) == 0)
      && (m.gradeARate.Some? ==> m.gradeARate.value * HowMany(items, Graded) as real == HowMany(items, GradedA) as real)
      && (m.profitFactor == None <==> lost <= 0.0)
      && (m.profitFactor.Some? ==> exists exact: real :: exact * lost == won && m.profitFactor.value == Cents(exact))
  {
    SameKinds(items);
    hide Select, Weigh, HowMany, Total, Cents;
    var closed := Select(items, IsSettled);
    var net, loss, profit := Weigh(closed, Cny), Weigh(Select(items, IsLoss), Magnitude), Weigh(Select(items, IsWinner), Cny);
    if closed != [] {
      ShareTimes(|Select(items, IsWinner)| as real, |closed| as real);
      ShareTimes(net, |closed| as real);
    }
    if Select(items, IsGraded) != [] {
      ShareTimes(|Select(items, IsGradeA)| as real, |Select(items, IsGraded)| as real);
    }
    if loss > 0.0 {
      ShareTimes(profit, loss);
    }
  }

  lemma ShareTimes(part: real, whole: real)
    requires whole != 0.0
    ensures part / whole * whole == part
  {
  }

  /** The selections of the metrics are those kinds. */
  lemma SameKinds(items: seq<Item>)
    ensures |Select(items, IsSettled)| == HowMany(items, Finished) && Weigh(Select(items, IsSettled), Cny) == Total(items, Finished, CnyOf)
    ensures |Select(items, IsWinner)| == HowMany(items, Won) && Weigh(Select(items, IsWinner), Cny) == Total(items, Won, CnyOf)
    ensures |Select(items, IsLoss)| == HowMany(items, Lost) && Weigh(Select(items, IsLoss), Magnitude) == Total(items, Lost, Magnitude)
    ensures |Select(items, HasR)| == HowMany(items, Measured) && Weigh(Select(items, HasR), RValue) == Total(items, Measured, ROf)
    ensures |Select(items, IsGraded)| == HowMany(items, Graded) && |Select(items, IsGradeA)| == HowMany(items, GradedA)
    ensures |Select(items, IsOpen)| == HowMany(items, StillOpen)
  {
    SameKind(items, IsSettled, Finished, Cny, CnyOf);
    SameKind(items, IsWinner, Won, Cny, CnyOf);
    SameKind(items, IsLoss, Lost, Magnitude, Magnitude);
    SameKind(items, HasR, Measured, RValue, ROf);
    SameKind(items, IsGraded, Graded, Cny, CnyOf);
    SameKind(items, IsGradeA, GradedA, Cny, CnyOf);
    SameKind(items, IsOpen, StillOpen, Cny, CnyOf);
  }

  lemma SameKind(items: seq<Item>, p: Item -> bool, q: Item -> bool, v: Item -> real, w: Item -> real)
    requires forall item :: p(item) == q(item) && (q(item) ==> v(item) == w(item))
    ensures |Select(items, p)| == HowMany(items, q) && Weigh(Select(items, p), v) == Total(items, q, w)
  {
    SelectIsCounted(items, p, v);
    SameCounts(items, p, q, v, w);
  }

  lemma {:induction false} SameCounts(items: seq<Item>, p: Item -> bool, q: Item -> bool, v: Item -> real, w: Item -> real)
    requires forall item :: p(item) == q(item) && (q(item) ==> v(item) == w(item))
    ensures HowMany(items, p) == HowMany(items, q) && Total(items, p, v) == Total(items, q, w)
  {
    if items != [] {
      SameCounts(items[1..], p, q, v, w);
    }
  }

  /** Allowance for the settled trades that are neither a win nor a loss. */
  function Slack(item: Item): real {
    if IsSettled(item) && !IsWinner(item) && !IsLoss(item) then 0.00000000005 * (item.fx + 1.0) else 0.0
  }

  /** A win never shows a negative amount, a loss never a positive one, no trade is both, and a trade
      that is neither is worth at most its allowance. */
  lemma ItemSigns(item: Item)
    requires Computed(item) && IsSettled(item)
    ensures !(IsWinner(item) && IsLoss(item))
    ensures IsWinner(item) ==> Cny(item) >= 0.0
    ensures IsLoss(item) ==> Cny(item) <= 0.0
    ensures !IsWinner(item) && !IsLoss(item) ==> -Slack(item) <= Cny(item) <= Slack(item)
  {
    var net: real :| item.result.net == Clean(net) && item.result.cny == Converted(net, item.fx) && (item.result.winning <==> net > 0.0);
    NetSigns(net, item.fx);
  }

  lemma NetSigns(net: real, fx: real)
    requires fx >= 0.0
    ensures net > 0.0 ==> Clean(net) >= 0.0 && Converted(net, fx) >= 0.0
    ensures Clean(net) < 0.0 ==> net < 0.0 && Converted(net, fx) <= 0.0
    ensures net <= 0.0 && Clean(net) >= 0.0 ==> -0.00000000005 * (fx + 1.0) <= Converted(net, fx) <= 0.00000000005 * (fx + 1.0)
  {
    if net > 0.0 {
      NonNegativeProduct(net, fx);
    } else {
      NonNegativeProduct(-net, fx);
      NegateProduct(net, fx);
      if Clean(net) >= 0.0 {
        NearZero(net);
        NearZeroConverted(net, fx);
      }
    }
  }

  lemma NearZeroConverted(net: real, fx: real)
    requires fx >= 0.0 && -0.00000000005 <= net <= 0.00000000005
    ensures -0.00000000005 * (fx + 1.0) <= Converted(net, fx) <= 0.00000000005 * (fx + 1.0)
  {
    hide Clean;
    SmallProduct(net, fx);
    NearConverted(net * fx, fx);
  }

  lemma SmallProduct(net: real, fx: real)
    requires fx >= 0.0 && -0.00000000005 <= net <= 0.00000000005
    ensures -(0.00000000005 * fx) <= net * fx <= 0.00000000005 * fx
  {
    Scaled(net, 0.00000000005, fx);
  }

  lemma NearConverted(x: real, fx: real)
    requires -(0.00000000005 * fx) <= x <= 0.00000000005 * fx
    ensures -0.00000000005 * (fx + 1.0) <= Clean(x) <= 0.00000000005 * (fx + 1.0)
  {
    hide Clean;
  }

  lemma NearZero(net: real)
    requires net <= 0.0 && Clean(net) >= 0.0
    ensures -0.00000000005 <= net <= 0.00000000005
  {
  }

  /** Unrounded, the net result is gross profit less gross loss, up to the allowances. */
  lemma {:induction false} MetricsReconcile(items: seq<Item>)
    requires forall item <- items :: IsSettled(item) ==> Computed(item)
    ensures var m := AggregateMetrics(items);
      -Weigh(items, Slack) <= m.net - (m.profit - m.loss) <= Weigh(items, Slack)
  {
    if items != [] {
      var n := |items| - 1;
      var before, last := items[..n], items[n];
      MetricsReconcile(before);
      assert last in items;
      WeighSelect(before, last, IsSettled, Cny);
      WeighSelect(before, last, IsWinner, Cny);
      WeighSelect(before, last, IsLoss, Magnitude);
      assert items == before + [last];
      if IsSettled(last) {
        ItemSigns(last);
      }
    }
  }

  lemma WeighSelect(items: seq<Item>, item: Item, p: Item -> bool, weight: Item -> real)
    ensures Weigh(Select(items + [item], p), weight) == Weigh(Select(items, p), weight) + if p(item) then weight(item) else 0.0
  {
    assert (items + [item])[..|items|] == items;
    if p(item) {
      WeighAppends(Select(items, p), item, weight);
    } else {
      assert Select(items, p) + [] == Select(items, p);
    }
  }

  /** On trades the ledger left, the hypothesis of the reconciliation holds, and the metrics count every closed trade. */
  lemma LedgerMetricsReconcile(items: seq<Item>)
    requires forall item <- items :: FromLedger(item)
    ensures var m := AggregateMetrics(items);
      && -Weigh(items, Slack) <= m.net - (m.profit - m.loss) <= Weigh(items, Slack)
      && (forall item <- items :: IsClosed(item) ==> IsSettled(item))
  {
    hide FromLedger, AggregateMetrics, Weigh, Computed, IsClosed, IsSettled;
    forall item | item in items ensures Computed(item) && (IsClosed(item) ==> IsSettled(item)) {
      LedgerItemsAreComputed(item);
    }
    MetricsReconcile(items);
  }
}
