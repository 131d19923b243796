/** What holds after every history of requests on one trade. */
module TradeHistory {
  import opened Wrappers
  import opened Decimals
  import opened Calculations
  import opened StoredHeaders
  import opened Ledger
  import opened TradeRequests

  // ---- the header as a cached aggregate ----

  /** No fills, or the totals are ordered and every column is the stored summary of the fills. */
  ghost predicate Faithful(s: State) {
    s.rows == [] ||
    var d := DigestOf(Fills(s.rows));
    Tradable(d) && s.figures == Store(Summarised(d, s.figures.header.terms))
  }

  /** The rows can be told apart, hold valid amounts the columns represent, and so do the terms. */
  ghost predicate WellStored(s: State) {
    && (forall i | 0 <= i < |s.rows| :: s.rows[i].id < s.nextId && ValidFill(s.rows[i].fill) && TenFill(s.rows[i].fill))
    && (forall i, j | 0 <= i < j < |s.rows| :: s.rows[i].id != s.rows[j].id)
    && TenTerms(s.figures.header.terms)
  }

  /** Payloads the schema accepts, written with at most ten decimals. */
  ghost predicate Admissible(request: Request) {
    match request
    case CreateExecution(payload) => ValidFill(payload) && TenFill(payload)
    case UpdateExecution(_, payload) => ValidFill(payload) && TenFill(payload)
    case DeleteExecution(_) => true
    case UpdateTrade(input) => ValidInput(input) && TenInput(input)
    case DeleteTrade(_) => true
  }

  predicate EditsFills(request: Request) {
    request.CreateExecution? || request.UpdateExecution? || request.DeleteExecution?
  }

  /** An accepted header edit without a fill list, over existing fills. */
  predicate Rewrites(s: State, request: Request) {
    Apply(s, request).1 == Done && request.UpdateTrade? && request.input.executions.None? && s.rows != []
  }

  /** Has the header been rewritten over existing fills since they were last aggregated? */
  predicate Stale(s: State, history: seq<Request>) {
    history != [] &&
    var before, last := history[..|history| - 1], history[|history| - 1];
    Rewrites(Run(s, before), last) ||
    (Stale(s, before) && (Apply(Run(s, before), last).1 != Done || last.DeleteTrade?))
  }

  lemma NewRowsKeepFills(fills: seq<Fill>, nextId: nat)
    requires forall f <- fills :: TenFill(f)
    ensures Fills(NewRows(fills, nextId)) == fills
  {
    forall i | 0 <= i < |fills| ensures StoreFill(fills[i]) == fills[i] {
      assert fills[i] in fills;
      StoreKeepsTen(fills[i], Terms(Long, Quantity, None, 0.0));
    }
  }

  /** Writing the aggregate of a submitted list leaves a faithful trade. */
  lemma SubmittedListIsFaithful(input: TradeInput, version: int, deleted: bool, firstId: nat)
    requires ValidInput(input) && TenInput(input)
    requires ExecutionModels(input).Ok? && TradeValues(input).Ok?
    ensures var models := ExecutionModels(input).value;
      var s := State(Store(TradeValues(input).value), NewRows(models, firstId), version, deleted, firstId + |models|);
      WellStored(s) && Faithful(s)
  {
    hide TradeValues, ExecutionModels, Settle, Ten, Clean, ValidHeader, Tradable, ValidFill, ValidInput, StoreFill, DigestOf;
    var models := ExecutionModels(input).value;
    WrittenTerms(input);
    StoringTerms(input.header.terms);
    AcceptedFillsAreTen(input);
    NewRowsKeepFills(models, firstId);
    assert forall i | 0 <= i < |models| :: NewRows(models, firstId)[i].fill == Fills(NewRows(models, firstId))[i];
    if models != [] {
      TradeValuesSummarises(input);
    }
  }

  lemma AcceptedFillsAreTen(input: TradeInput)
    requires ValidInput(input) && TenInput(input) && ExecutionModels(input).Ok?
    ensures TenTerms(input.header.terms) && forall f <- ExecutionModels(input).value :: ValidFill(f) && TenFill(f)
  {
    var models := ExecutionModels(input).value;
    if models != [] {
      AcceptedRows(input, models);
      forall f | f in models ensures TenFill(f) {
        assert f in multiset(models);
      }
    }
  }

  lemma WrittenTerms(input: TradeInput)
    requires TradeValues(input).Ok?
    ensures TradeValues(input).value.header.terms == input.header.terms
  {
    hide Only, SumQuantity, SumNotional, SumFees, Earliest, Latest, JoinedReason, CalculateExecutions, ExecutionModels, CalculateTrade;
  }

  /** A successful per-fill edit makes the header faithful whatever it was before. */
  lemma EditsHeal(s: State, request: Request)
    requires WellStored(s) && Admissible(request) && EditsFills(request)
    requires Apply(s, request).1 == Done
    ensures WellStored(Apply(s, request).0) && Faithful(Apply(s, request).0)
  {
    match request
    case CreateExecution(payload) => CreateHeals(s, payload);
    case UpdateExecution(id, payload) => UpdateHeals(s, id, payload);
    case DeleteExecution(id) => DeleteHeals(s, id);
  }

  lemma CreateHeals(s: State, payload: Fill)
    requires WellStored(s) && ValidFill(payload) && TenFill(payload) && Apply(s, CreateExecution(payload)).1 == Done
    ensures WellStored(Apply(s, CreateExecution(payload)).0) && Faithful(Apply(s, CreateExecution(payload)).0)
  {
    StoreKeepsTen(payload, s.figures.header.terms);
    hide Edit, Faithful, ValidFill, TenFill, TenTerms, StoreFill;
    EditHeals(s, s.rows + [Row(s.nextId, payload)], s.nextId + 1);
  }

  lemma UpdateHeals(s: State, id: nat, payload: Fill)
    requires WellStored(s) && ValidFill(payload) && TenFill(payload) && Apply(s, UpdateExecution(id, payload)).1 == Done
    ensures WellStored(Apply(s, UpdateExecution(id, payload)).0) && Faithful(Apply(s, UpdateExecution(id, payload)).0)
  {
    StoreKeepsTen(payload, s.figures.header.terms);
    hide Edit, Faithful, ValidFill, TenFill, TenTerms, StoreFill;
    EditHeals(s, s.rows[Find(s.rows, id) := Row(id, payload)], s.nextId);
  }

  lemma DeleteHeals(s: State, id: nat)
    requires WellStored(s) && Apply(s, DeleteExecution(id)).1 == Done
    ensures WellStored(Apply(s, DeleteExecution(id)).0) && Faithful(Apply(s, DeleteExecution(id)).0)
  {
    hide Edit, WellStored, Faithful;
    var i := Find(s.rows, id);
    RestIsWellStored(s, i);
    EditHeals(s, s.rows[..i] + s.rows[i + 1..], s.nextId);
  }

  lemma RestIsWellStored(s: State, i: nat)
    requires WellStored(s) && i < |s.rows|
    ensures WellStored(s.(rows := s.rows[..i] + s.rows[i + 1..]))
  {
    hide ValidFill, TenFill, TenTerms;
  }

  lemma EditHeals(s: State, rows: seq<Row>, nextId: nat)
    requires Edit(s, rows, rows, nextId).1 == Done
    requires WellStored(s.(rows := rows, nextId := nextId))
    ensures WellStored(Edit(s, rows, rows, nextId).0) && Faithful(Edit(s, rows, rows, nextId).0)
  {
    hide Refresh, Settle, Ten, Clean, ValidFill, Tradable;
    StoringTerms(s.figures.header.terms);
    if rows != [] {
      RowsStayValid(s.(rows := rows));
      RefreshSummarises(Fills(rows), s.figures);
    } else {
      RefreshOfNothing(s.figures);
    }
  }

  lemma RefreshOfNothing(trade: Figures)
    ensures Refresh([], trade) == Ok(trade)
  {
  }

  lemma RowsStayValid(s: State)
    requires forall i | 0 <= i < |s.rows| :: ValidFill(s.rows[i].fill)
    ensures forall f <- Fills(s.rows) :: ValidFill(f)
  {
  }

  lemma StepKeepsWellStored(s: State, request: Request)
    requires WellStored(s) && Admissible(request)
    ensures WellStored(Apply(s, request).0)
  {
    if Apply(s, request).1 == Done {
      if EditsFills(request) {
        EditsHeal(s, request);
      } else if request.UpdateTrade? {
        SubmittedListIsFaithful(request.input, s.version + 1, s.deleted, s.nextId);
      }
    }
  }

  /** The main ledger theorem: after any history, unless the last thing to touch the header was an
      update without a fill list over existing fills, the header is the summary of the fills. */
  lemma {:induction false} HistoryIsFaithful(input: TradeInput, history: seq<Request>)
    requires ValidInput(input) && TenInput(input) && Create(input).Ok?
    requires forall request <- history :: Admissible(request)
    ensures WellStored(Run(Create(input).value, history))
    ensures !Stale(Create(input).value, history) ==> Faithful(Run(Create(input).value, history))
  {
    hide Apply, WellStored, Faithful;
    var s0 := Create(input).value;
    if history == [] {
      SubmittedListIsFaithful(input, 1, false, 0);
    } else {
      var before, last := history[..|history| - 1], history[|history| - 1];
      HistoryIsFaithful(input, before);
      var s := Run(s0, before);
      StepKeepsWellStored(s, last);
      if !Stale(s0, history) {
        StepKeepsFaithful(s, last);
      }
    }
  }

  lemma StepKeepsFaithful(s: State, request: Request)
    requires WellStored(s) && Admissible(request)
    requires !Rewrites(s, request) && (Faithful(s) || (Apply(s, request).1 == Done && !request.DeleteTrade?))
    ensures Faithful(Apply(s, request).0)
  {
    hide Refresh, ExecutionModels, TradeValues, ValidInput, TenInput, WellStored, Tradable;
    if Apply(s, request).1 == Done {
      if EditsFills(request) {
        EditsHeal(s, request);
      } else if request.UpdateTrade? && request.input.executions.Some? {
        SubmittedListIsFaithful(request.input, s.version + 1, s.deleted, s.nextId);
      }
    }
  }

  /** A refused request changes nothing; an accepted one changes something only as it must. */
  lemma RefusalsChangeNothing(s: State, request: Request)
    ensures Apply(s, request).1 != Done ==> Apply(s, request).0 == s
    ensures EditsFills(request) ==> Apply(s, request).0.version == s.version
  {
  }

  /** With fills present, faithful means exactly that refreshing would change no column. */
  lemma FaithfulIffRefreshIsStable(s: State)
    requires WellStored(s) && s.rows != []
    ensures Faithful(s) <==>
      Refresh(Fills(s.rows), s.figures).Ok? && Store(Refresh(Fills(s.rows), s.figures).value) == s.figures
  {
    RowsStayValid(s);
    RefreshSummarises(Fills(s.rows), s.figures);
  }

  /** Refreshing right after create_trade changes no column. */
  lemma RefreshAfterCreate(input: TradeInput)
    requires ValidInput(input) && TenInput(input) && Create(input).Ok?
    ensures var s := Create(input).value;
      && Refresh(Fills(s.rows), s.figures).Ok?
      && Store(Refresh(Fills(s.rows), s.figures).value) == s.figures
  {
    var s := Create(input).value;
    SubmittedListIsFaithful(input, 1, false, 0);
    if s.rows != [] {
      FaithfulIffRefreshIsStable(s);
    } else {
      StoringTwice(TradeValues(input).value);
    }
  }

  lemma StoringTwice(f: Figures)
    ensures Store(Store(f)) == Store(f)
  {
    var h := f.header;
    CleanIsTen(h.entryPrice);
    CleanIsTen(h.size);
    CleanIsTen(h.fees);
    if h.exitPrice.Some? { CleanIsTen(h.exitPrice.value); }
    StoreKeepsTen(Fill(Entry, 0, 0.0, 0.0, 0.0, 1), h.terms);
    StoreKeepsTen(Fill(Entry, 0, 0.0, 0.0, 0.0, 1), StoreTerms(h.terms));
  }

  // ---- versions ----

  predicate EditsHeader(request: Request) {
    request.UpdateTrade? || request.DeleteTrade?
  }

  function Claim(request: Request): Option<int> {
    match request
    case UpdateTrade(input) => input.version
    case DeleteTrade(version) => version
    case _ => None
  }

  /** Accepted header edits in the first k requests. */
  function Successes(s: State, history: seq<Request>, k: nat): nat
    requires k <= |history|
  {
    if k == 0 then 0 else
    Successes(s, history, k - 1) + if EditsHeader(history[k - 1]) && Accepted(s, history, k - 1) then 1 else 0
  }

  lemma StepVersion(s: State, request: Request)
    ensures Apply(s, request).0.version
         == s.version + if EditsHeader(request) && Apply(s, request).1 == Done then 1 else 0
  {
  }

  /** After n accepted header edits the version has advanced by n. */
  lemma {:induction false} VersionCountsSuccesses(s: State, history: seq<Request>, k: nat)
    requires k <= |history|
    ensures Run(s, history[..k]).version == s.version + Successes(s, history, k)
  {
    hide Apply;
    if k > 0 {
      StepVersion(Run(s, history[..k - 1]), history[k - 1]);
      VersionCountsSuccesses(s, history, k - 1);
      assert history[..k][..k - 1] == history[..k - 1];
    } else {
      assert history[..k] == [];
    }
  }

  lemma {:induction false} SuccessesGrow(s: State, history: seq<Request>, i: nat, j: nat)
    requires i <= j <= |history|
    ensures Successes(s, history, i) <= Successes(s, history, j)
    ensures Successes(s, history, i) == Successes(s, history, j) ==>
      forall k | i <= k < j && EditsHeader(history[k]) :: !Accepted(s, history, k)
    decreases j - i
  {
    hide Apply;
    if i < j {
      SuccessesGrow(s, history, i, j - 1);
    }
  }

  lemma AcceptedClaims(s: State, request: Request)
    requires EditsHeader(request) && Apply(s, request).1 == Done
    ensures Claim(request) == Some(s.version)
  {
  }

  /** Each version is consumed by at most one accepted header edit, in order. */
  lemma VersionConsumedOnce(s: State, history: seq<Request>, i: nat, j: nat)
    requires i < j < |history|
    requires EditsHeader(history[i]) && Accepted(s, history, i)
    requires EditsHeader(history[j]) && Accepted(s, history, j)
    ensures Claim(history[i]).Some? && Claim(history[j]).Some? && Claim(history[i]).value < Claim(history[j]).value
  {
    hide Apply;
    AcceptedClaims(Run(s, history[..i]), history[i]);
    AcceptedClaims(Run(s, history[..j]), history[j]);
    VersionCountsSuccesses(s, history, i);
    VersionCountsSuccesses(s, history, j);
    SuccessesGrow(s, history, i + 1, j);
  }

  /** A client that read the trade after i requests and whose edit, the j-th, is accepted has
      overwritten no header edit of anybody else. */
  lemma NoLostHeaderEdit(s: State, history: seq<Request>, i: nat, j: nat)
    requires i <= j < |history|
    requires EditsHeader(history[j]) && Accepted(s, history, j)
    requires Claim(history[j]) == Some(Run(s, history[..i]).version)
    ensures forall k | i <= k < j && EditsHeader(history[k]) :: !Accepted(s, history, k)
  {
    hide Apply;
    AcceptedClaims(Run(s, history[..j]), history[j]);
    VersionCountsSuccesses(s, history, i);
    VersionCountsSuccesses(s, history, j);
    SuccessesGrow(s, history, i, j);
  }

  lemma DeletedAcceptsNothing(s: State)
    requires s.deleted
    ensures forall request :: Apply(s, request).1 != Done && Apply(s, request).0 == s
  {
  }

  /** A soft-deleted trade accepts nothing and never changes again. */
  lemma {:induction false} DeletedIsFinal(s: State, history: seq<Request>, i: nat, j: nat)
    requires i <= j <= |history| && Run(s, history[..i]).deleted
    ensures Run(s, history[..j]) == Run(s, history[..i])
    ensures j < |history| ==> !Accepted(s, history, j)
    decreases j - i
  {
    hide Apply;
    DeletedAcceptsNothing(Run(s, history[..i]));
    if i < j {
      DeletedIsFinal(s, history, i, j - 1);
      assert history[..j][..j - 1] == history[..j - 1];
    }
  }

  lemma EditKeepsGuards(s: State, edit: Request)
    requires EditsFills(edit)
    ensures Apply(s, edit).0.version == s.version && Apply(s, edit).0.deleted == s.deleted
  {
  }

  lemma HeaderEditGuards(s: State, t: State, update: Request)
    requires EditsHeader(update) && s.version == t.version && s.deleted == t.deleted
    ensures Apply(t, update).1 == Apply(s, update).1
    ensures update.UpdateTrade? && Apply(s, update).1 == Done ==>
      Apply(t, update).0.figures == Apply(s, update).0.figures
  {
  }

  /** Versions do not protect against per-fill edits: a header edit that would have been accepted
      still is after any accepted per-fill edit, and overwrites its aggregate. */
  lemma FillEditsEscapeVersions(s: State, edit: Request, update: Request)
    requires EditsFills(edit) && Apply(s, edit).1 == Done
    requires EditsHeader(update)
    ensures Apply(Apply(s, edit).0, update).1 == Apply(s, update).1
    ensures update.UpdateTrade? && Apply(s, update).1 == Done ==>
      Apply(Apply(s, edit).0, update).0.figures == Apply(s, update).0.figures
  {
    hide Apply;
    EditKeepsGuards(s, edit);
    HeaderEditGuards(s, Apply(s, edit).0, update);
  }
}
