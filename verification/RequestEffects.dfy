/** What each request does to the rows and to the header, and exactly when it is accepted. */
module RequestEffects {
  import opened Wrappers
  import opened Decimals
  import opened Calculations
  import opened StoredHeaders
  import opened Ledger
  import opened TradeRequests
  import opened TradeHistory
  import opened Earnings
  import opened Columns

  /** Ids are a primary key, and the next one is new. */
  ghost predicate KeyedRows(rows: seq<Row>, nextId: nat) {
    && (forall r <- rows :: r.id < nextId)
    && (forall i, j | 0 <= i < j < |rows| :: rows[i].id != rows[j].id)
  }

  ghost predicate Keyed(s: State) {
    KeyedRows(s.rows, s.nextId)
  }

  predicate HasId(s: State, id: nat) {
    exists r <- s.rows :: r.id == id
  }

  /** The stored form of a fill: its amounts rounded to ten decimals, the rest as submitted. */
  predicate StoredForm(stored: Fill, f: Fill) {
    && stored.action == f.action && stored.at == f.at && stored.reason == f.reason
    && stored.price == Clean(f.price) && stored.quantity == Clean(f.quantity) && stored.fee == Clean(f.fee)
  }

  /** The figures are the stored aggregate of some fills under the terms of a header. */
  ghost predicate AggregateOf(figures: Figures, fills: seq<Fill>, terms: Terms) {
    exists exact: Figures ::
      && Describe(exact.header, fills) && exact.header.terms == terms
      && Ok(exact.result) == CalculateExecutions(fills, terms)
      && RoundedTo(figures, exact)
  }

  /** Storing figures rounds every amount of the header to ten decimals and changes nothing else. */
  predicate RoundedTo(stored: Figures, exact: Figures) {
    var h, e := stored.header, exact.header;
    && stored.result == exact.result
    && h.status == e.status && h.entryAt == e.entryAt && h.exitAt == e.exitAt
    && h.entryReason == e.entryReason && h.exitReason == e.exitReason
    && h.entryPrice == Clean(e.entryPrice) && h.size == Clean(e.size) && h.fees == Clean(e.fees)
    && (h.exitPrice.Some? <==> e.exitPrice.Some?) && (h.exitPrice.Some? ==> h.exitPrice.value == Clean(e.exitPrice.value))
    && h.terms.side == e.terms.side && h.terms.basis == e.terms.basis && h.terms.fx == Clean(e.terms.fx)
    && (h.terms.risk.Some? <==> e.terms.risk.Some?) && (h.terms.risk.Some? ==> h.terms.risk.value == Clean(e.terms.risk.value))
  }

  lemma StoreRounds(exact: Figures)
    ensures RoundedTo(Store(exact), exact)
  {
  }

  // ---- finding a row ----

  lemma {:induction false} FindFinds(rows: seq<Row>, id: nat)
    ensures Find(rows, id) < |rows| <==> exists r <- rows :: r.id == id
  {
    if rows != [] && rows[0].id != id {
      FindFinds(rows[1..], id);
      assert rows == [rows[0]] + rows[1..];
    }
  }

  lemma {:induction false} FindOnly(rows: seq<Row>, nextId: nat, i: nat)
    requires KeyedRows(rows, nextId) && i < |rows|
    ensures Find(rows, rows[i].id) == i
  {
    FindFinds(rows, rows[i].id);
    assert rows[i] in rows;
    var j := Find(rows, rows[i].id);
    assert rows[j].id == rows[i].id;
  }

  // ---- per-fill edits ----

  /** An edit is accepted exactly when the trade is not deleted and the totals of the rows it would leave may stand. */
  lemma EditAcceptsIff(s: State, held: seq<Row>, stored: seq<Row>, nextId: nat)
    requires forall r <- held :: ValidFill(r.fill)
    ensures Edit(s, held, stored, nextId).1 == Done <==> !s.deleted && (held == [] || Stands(Fills(held)))
    ensures Edit(s, held, stored, nextId).1 == NotFound <==> s.deleted
  {
    hide Refresh, Stands;
    forall f | f in Fills(held) ensures ValidFill(f) {
      var i :| 0 <= i < |held| && Fills(held)[i] == f;
      assert held[i] in held;
    }
    RefreshAcceptsIff(Fills(held), s.figures);
  }

  /** What an accepted edit leaves: the stored rows, and the aggregate of the rows as the session held them. */
  lemma EditEffect(s: State, held: seq<Row>, stored: seq<Row>, nextId: nat)
    requires Edit(s, held, stored, nextId).1 == Done
    ensures var after := Edit(s, held, stored, nextId).0;
      && after.rows == stored && after.nextId == nextId && after.version == s.version && after.deleted == s.deleted
      && (held == [] ==> after.figures == Store(s.figures))
      && (held != [] ==> AggregateOf(after.figures, Fills(held), s.figures.header.terms))
  {
    hide Refresh, CalculateExecutions, Describe, RoundedTo, Store;
    RefreshedColumns(Fills(held), s.figures);
    var exact := Refresh(Fills(held), s.figures).value;
    StoreRounds(exact);
    if held != [] {
      assert AggregateOf(Store(exact), Fills(held), s.figures.header.terms);
    }
  }

  /** Creating a fill: one new row with a new id that holds the stored payload, all others as they were. */
  lemma CreateExecutionEffect(s: State, payload: Fill)
    requires Keyed(s)
    ensures var (after, reply) := Apply(s, CreateExecution(payload));
      reply == Done ==>
        && Keyed(after) && after.version == s.version && after.deleted == s.deleted
        && exists row: Row, held: seq<Row> ::
             && row !in s.rows && !HasId(s, row.id) && StoredForm(row.fill, payload)
             && multiset(after.rows) == multiset(s.rows) + multiset{row}
             && multiset(held) == multiset(s.rows) + multiset{Row(row.id, payload)}
             && AggregateOf(after.figures, Fills(held), s.figures.header.terms)
    ensures (forall r <- s.rows :: ValidFill(r.fill)) && ValidFill(payload) ==>
      (Apply(s, CreateExecution(payload)).1 == Done <==> !s.deleted && Stands(Fills(s.rows) + [payload]))
  {
    hide Edit, AggregateOf, Stands, Describe;
    var row, held := Row(s.nextId, StoreFill(payload)), s.rows + [Row(s.nextId, payload)];
    var stored := s.rows + [row];
    assert Fills(held) == Fills(s.rows) + [payload];
    if Edit(s, held, stored, s.nextId + 1).1 == Done {
      EditEffect(s, held, stored, s.nextId + 1);
      assert StoredForm(row.fill, payload);
      assert !HasId(s, row.id);
    }
    if (forall r <- s.rows :: ValidFill(r.fill)) && ValidFill(payload) {
      EditAcceptsIff(s, held, stored, s.nextId + 1);
    }
  }

  /** Replacing a fill: exactly the row of that id changes, and then holds the stored payload. */
  lemma UpdateExecutionEffect(s: State, id: nat, payload: Fill)
    requires Keyed(s)
    ensures var (after, reply) := Apply(s, UpdateExecution(id, payload));
      reply == Done ==>
        && Keyed(after) && after.version == s.version && after.deleted == s.deleted && HasId(s, id)
        && |after.rows| == |s.rows|
        && (forall i | 0 <= i < |s.rows| ::
              && after.rows[i].id == s.rows[i].id
              && (s.rows[i].id != id ==> after.rows[i] == s.rows[i])
              && (s.rows[i].id == id ==> StoredForm(after.rows[i].fill, payload)))
        && AggregateOf(after.figures, Replaced(s.rows, id, payload), s.figures.header.terms)
    ensures (forall r <- s.rows :: ValidFill(r.fill)) && ValidFill(payload) ==>
      (Apply(s, UpdateExecution(id, payload)).1 == Done <==>
         HasId(s, id) && !s.deleted && Stands(Replaced(s.rows, id, payload)))
    ensures Apply(s, UpdateExecution(id, payload)).1 == NotFound <==> !HasId(s, id) || s.deleted
  {
    hide Edit, AggregateOf, Stands, Describe, KeyedRows, ValidFill, Fills, StoreFill, StoredForm, Replaced;
    FindFinds(s.rows, id);
    var i := Find(s.rows, id);
    if i < |s.rows| {
      var held, stored := s.rows[i := Row(id, payload)], s.rows[i := Row(id, StoreFill(payload))];
      ReplacedIs(s.rows, s.nextId, i, payload);
      StoredRowsChange(s.rows, s.nextId, i, payload);
      if Edit(s, held, stored, s.nextId).1 == Done {
        EditEffect(s, held, stored, s.nextId);
      }
      EditIsNotFoundIff(s, held, stored, s.nextId);
      if (forall r <- s.rows :: ValidFill(r.fill)) && ValidFill(payload) {
        EditAcceptsIff(s, held, stored, s.nextId);
      }
    }
  }

  lemma StoredRowsChange(rows: seq<Row>, nextId: nat, i: nat, payload: Fill)
    requires KeyedRows(rows, nextId) && i < |rows|
    ensures var stored := rows[i := Row(rows[i].id, StoreFill(payload))];
      && KeyedRows(stored, nextId)
      && forall j | 0 <= j < |rows| ::
           && stored[j].id == rows[j].id && (rows[j].id != rows[i].id ==> stored[j] == rows[j])
           && (rows[j].id == rows[i].id ==> StoredForm(stored[j].fill, payload))
  {
  }

  lemma EditIsNotFoundIff(s: State, held: seq<Row>, stored: seq<Row>, nextId: nat)
    ensures Edit(s, held, stored, nextId).1 == NotFound <==> s.deleted
  {
    hide Refresh;
  }

  /** The fills of the rows, with the one of an id replaced. */
  function Replaced(rows: seq<Row>, id: nat, payload: Fill): seq<Fill> {
    if rows == [] then [] else [if rows[0].id == id then payload else rows[0].fill] + Replaced(rows[1..], id, payload)
  }

  lemma {:induction false} ReplacedAt(rows: seq<Row>, id: nat, payload: Fill)
    ensures |Replaced(rows, id, payload)| == |rows|
    ensures forall i | 0 <= i < |rows| :: Replaced(rows, id, payload)[i] == if rows[i].id == id then payload else rows[i].fill
  {
    if rows != [] {
      ReplacedAt(rows[1..], id, payload);
    }
  }

  lemma ReplacedIs(rows: seq<Row>, nextId: nat, i: nat, payload: Fill)
    requires KeyedRows(rows, nextId) && i < |rows|
    ensures Fills(rows[i := Row(rows[i].id, payload)]) == Replaced(rows, rows[i].id, payload)
  {
    ReplacedAt(rows, rows[i].id, payload);
  }

  /** The fills of the rows, without the one of an id. */
  function Without(rows: seq<Row>, id: nat): seq<Row> {
    if rows == [] then [] else (if rows[0].id == id then [] else [rows[0]]) + Without(rows[1..], id)
  }

  lemma {:induction false} WithoutMembers(rows: seq<Row>, id: nat)
    ensures forall r :: r in Without(rows, id) <==> r in rows && r.id != id
  {
    if rows != [] {
      WithoutMembers(rows[1..], id);
      assert rows == [rows[0]] + rows[1..];
    }
  }

  lemma {:induction false} WithoutUnknown(rows: seq<Row>, id: nat)
    requires forall r <- rows :: r.id != id
    ensures Without(rows, id) == rows
  {
    if rows != [] {
      WithoutUnknown(rows[1..], id);
      assert rows == [rows[0]] + rows[1..] && rows[0] in rows;
    }
  }

  lemma {:induction false} WithoutIs(rows: seq<Row>, nextId: nat, i: nat)
    requires KeyedRows(rows, nextId) && i < |rows|
    ensures rows[..i] + rows[i + 1..] == Without(rows, rows[i].id)
    decreases i
  {
    if i == 0 {
      WithoutUnknown(rows[1..], rows[0].id);
    } else {
      assert KeyedRows(rows[1..], nextId);
      WithoutIs(rows[1..], nextId, i - 1);
      assert rows[1..][..i - 1] == rows[1..i] && rows[1..][i..] == rows[i + 1..];
      assert rows[..i] == [rows[0]] + rows[1..i];
    }
  }

  /** Deleting a fill: the row of that id goes, and no other; with the last fill gone the header stays. */
  lemma DeleteExecutionEffect(s: State, id: nat)
    requires Keyed(s)
    ensures var (after, reply) := Apply(s, DeleteExecution(id));
      reply == Done ==>
        && Keyed(after) && after.version == s.version && after.deleted == s.deleted && HasId(s, id)
        && |after.rows| == |s.rows| - 1 && (forall r :: r in after.rows <==> r in s.rows && r.id != id)
        && (after.rows == [] ==> after.figures == Store(s.figures))
        && (after.rows != [] ==> AggregateOf(after.figures, Fills(after.rows), s.figures.header.terms))
    ensures (forall r <- s.rows :: ValidFill(r.fill)) ==>
      (Apply(s, DeleteExecution(id)).1 == Done <==>
         HasId(s, id) && !s.deleted && (Without(s.rows, id) == [] || Stands(Fills(Without(s.rows, id)))))
    ensures Apply(s, DeleteExecution(id)).1 == NotFound <==> !HasId(s, id) || s.deleted
  {
    hide Edit, AggregateOf, Stands, Describe, Store, KeyedRows, ValidFill, Fills;
    FindFinds(s.rows, id);
    var i := Find(s.rows, id);
    if i < |s.rows| {
      var rest := s.rows[..i] + s.rows[i + 1..];
      RestMembers(s.rows, s.nextId, i);
      if Edit(s, rest, rest, s.nextId).1 == Done {
        EditEffect(s, rest, rest, s.nextId);
      }
      EditIsNotFoundIff(s, rest, rest, s.nextId);
      if forall r <- s.rows :: ValidFill(r.fill) {
        EditAcceptsIff(s, rest, rest, s.nextId);
      }
    }
  }

  lemma RestMembers(rows: seq<Row>, nextId: nat, i: nat)
    requires KeyedRows(rows, nextId) && i < |rows|
    ensures var rest := rows[..i] + rows[i + 1..];
      && rest == Without(rows, rows[i].id) && |rest| == |rows| - 1 && KeyedRows(rest, nextId)
      && (forall r :: r in rest <==> r in rows && r.id != rows[i].id)
  {
    WithoutIs(rows, nextId, i);
    WithoutMembers(rows, rows[i].id);
  }

  // ---- edits of the header ----

  /** Rows that hold the stored form of some fills under new ids. */
  ghost predicate HoldNew(rows: seq<Row>, fills: seq<Fill>, nextId: nat) {
    && |rows| == |fills| && (forall i | 0 <= i < |fills| :: StoredForm(rows[i].fill, fills[i]))
    && (forall r <- rows :: r.id >= nextId)
  }

  /** The figures a submission writes: the header as submitted with what it earns, or the aggregate of its fills. */
  ghost predicate Submitted(figures: Figures, input: TradeInput, models: seq<Fill>) {
    if models == [] then
      exists result :: Ok(result) == CalculateTrade(input.header) && RoundedTo(figures, Figures(input.header, result))
    else AggregateOf(figures, models, input.header.terms)
  }

  lemma ValuesSubmit(input: TradeInput)
    requires TradeValues(input).Ok?
    ensures ExecutionModels(input).Ok? && Submitted(Store(TradeValues(input).value), input, ExecutionModels(input).value)
  {
    WrittenColumns(input);
    var exact, models := TradeValues(input).value, ExecutionModels(input).value;
    StoreRounds(exact);
    hide TradeValues, ExecutionModels, CalculateTrade, CalculateExecutions, Describe, RoundedTo, Store;
    if models == [] {
      assert Ok(exact.result) == CalculateTrade(input.header) && exact == Figures(input.header, exact.result);
    } else {
      assert AggregateOf(Store(exact), models, input.header.terms);
    }
  }

  /** Creating a trade: version one, not deleted, the figures of the submission, its fills in their stored form. */
  lemma CreateTradeEffect(input: TradeInput)
    requires Create(input).Ok?
    ensures ExecutionModels(input).Ok?
    ensures var s, models := Create(input).value, ExecutionModels(input).value;
      && s.version == 1 && !s.deleted && Keyed(s) && HoldNew(s.rows, models, 0) && Submitted(s.figures, input, models)
  {
    hide TradeValues, ExecutionModels, Submitted, Store;
    ValuesSubmit(input);
    NewRowsHold(ExecutionModels(input).value, 0);
  }

  lemma NewRowsHold(models: seq<Fill>, nextId: nat)
    ensures HoldNew(NewRows(models, nextId), models, nextId) && KeyedRows(NewRows(models, nextId), nextId + |models|)
  {
  }

  /** A valid submission is refused exactly when its fills are. */
  lemma CreateTradeAcceptsIff(input: TradeInput)
    requires ValidInput(input)
    ensures Create(input).Ok? <==> ExecutionModels(input).Ok?
  {
    hide TradeValues, ExecutionModels;
    ValuesAcceptIff(input);
  }

  /** Updating a trade: without a version it is a bad request, after deletion it is not found, a stale version is a conflict;
      otherwise it takes the figures of the submission and the next version, and its fills if it has a list. */
  lemma UpdateTradeEffect(s: State, input: TradeInput)
    requires Keyed(s) && ValidInput(input)
    ensures var (after, reply) := Apply(s, UpdateTrade(input));
      && (reply == MissingVersion <==> input.version == None)
      && (reply == NotFound <==> input.version.Some? && s.deleted)
      && (reply == Refused <==> input.version.Some? && !s.deleted && ExecutionModels(input) == Raised)
      && (reply == Conflict <==> input.version.Some? && !s.deleted && ExecutionModels(input).Ok? && input.version.value != s.version)
      && (reply == Done <==> input.version == Some(s.version) && !s.deleted && ExecutionModels(input).Ok?)
      && (reply == Done ==>
            && after.version == s.version + 1 && !after.deleted && Keyed(after)
            && Submitted(after.figures, input, ExecutionModels(input).value)
            && (input.executions == None ==> after.rows == s.rows)
            && (input.executions.Some? ==> HoldNew(after.rows, ExecutionModels(input).value, s.nextId)))
  {
    hide TradeValues, ExecutionModels, Submitted, Store, ValidInput;
    ValuesAcceptIff(input);
    if TradeValues(input).Ok? {
      ValuesSubmit(input);
      NewRowsHold(ExecutionModels(input).value, s.nextId);
    }
  }

  /** Deleting a trade: only the mark and the version change. */
  lemma DeleteTradeEffect(s: State, version: Option<int>)
    ensures var (after, reply) := Apply(s, DeleteTrade(version));
      && (reply == MissingVersion <==> version == None || version.value <= 0)
      && (reply == NotFound <==> version.Some? && version.value > 0 && s.deleted)
      && (reply == Conflict <==> version.Some? && version.value > 0 && !s.deleted && version.value != s.version)
      && (reply == Done <==> version == Some(s.version) && s.version > 0 && !s.deleted)
      && (reply == Done ==> after.deleted && after.version == s.version + 1 && after.rows == s.rows && after.figures == s.figures
                            && after.nextId == s.nextId)
  {
  }

  // ---- histories ----

  lemma StepKeepsKeyed(s: State, request: Request)
    requires Keyed(s)
    ensures Keyed(Apply(s, request).0)
  {
    hide TradeValues, ExecutionModels, Refresh, Describe, AggregateOf;
    if Apply(s, request).1 == Done {
      match request
      case CreateExecution(payload) => CreateExecutionEffect(s, payload);
      case UpdateExecution(id, payload) => UpdateExecutionEffect(s, id, payload);
      case DeleteExecution(id) => DeleteExecutionEffect(s, id);
      case UpdateTrade(input) => NewRowsHold(ExecutionModels(input).value, s.nextId);
      case DeleteTrade(_) =>
    }
  }

  /** After every history each id names at most one row, so the above describes every request of every history. */
  lemma {:induction false} HistoryIsKeyed(input: TradeInput, history: seq<Request>)
    requires Create(input).Ok?
    ensures Keyed(Run(Create(input).value, history))
  {
    hide Apply;
    if history == [] {
      CreateTradeEffect(input);
    } else {
      var before, last := history[..|history| - 1], history[|history| - 1];
      HistoryIsKeyed(input, before);
      StepKeepsKeyed(Run(Create(input).value, before), last);
    }
  }
}
