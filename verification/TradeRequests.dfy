/** The requests on one trade: create, header edit, delete, and the three per-fill edits. */
module TradeRequests {
  import opened Wrappers
  import opened Decimals
  import opened Calculations
  import opened StoredHeaders
  import opened Ledger

  /** A row of trade_executions; ids are handed out by the database. */
  datatype Row = Row(id: nat, fill: Fill)

  datatype State = State(figures: Figures, rows: seq<Row>, version: int, deleted: bool, nextId: nat)

  datatype Request =
    | CreateExecution(payload: Fill)
    | UpdateExecution(id: nat, payload: Fill)
    | DeleteExecution(id: nat)
    | UpdateTrade(input: TradeInput)
    | DeleteTrade(version: Option<int>)

  datatype Reply = Done | MissingVersion | NotFound | Conflict | Refused

  function Fills(rows: seq<Row>): (fills: seq<Fill>)
    ensures |fills| == |rows| && forall i | 0 <= i < |rows| :: fills[i] == rows[i].fill
  {
    seq(|rows|, i requires 0 <= i < |rows| => rows[i].fill)
  }

  /** Index of the row with the given id, or |rows|. */
  function Find(rows: seq<Row>, id: nat): (i: nat)
    ensures i <= |rows| && (i < |rows| ==> rows[i].id == id)
    ensures forall j | 0 <= j < i :: rows[j].id != id
  {
    if rows == [] then 0 else if rows[0].id == id then 0 else 1 + Find(rows[1..], id)
  }

  function NewRows(fills: seq<Fill>, nextId: nat): seq<Row> {
    seq(|fills|, i requires 0 <= i < |fills| => Row(nextId + i, StoreFill(fills[i])))
  }

  /** create_trade. */
  function Create(input: TradeInput): Try<State> {
    var models, values := ExecutionModels(input), TradeValues(input);
    if values.Raised? || models.Raised? then Raised else
    Ok(State(Store(values.value), NewRows(models.value, 0), 1, false, |models.value|))
  }

  /** A per-fill edit recomputes from the rows as the session holds them, the edited one
      unrounded, and then the database rounds what it stores. */
  function Edit(s: State, held: seq<Row>, stored: seq<Row>, nextId: nat): (State, Reply) {
    if s.deleted then (s, NotFound) else
    var figures := Refresh(Fills(held), s.figures);
    if figures.Raised? then (s, Refused) else
    (s.(figures := Store(figures.value), rows := stored, nextId := nextId), Done)
  }

  function Apply(s: State, request: Request): (State, Reply) {
    match request
    case CreateExecution(payload) =>
      Edit(s, s.rows + [Row(s.nextId, payload)], s.rows + [Row(s.nextId, StoreFill(payload))], s.nextId + 1)
    case UpdateExecution(id, payload) =>
      var i := Find(s.rows, id);
      if i == |s.rows| then (s, NotFound) else
      Edit(s, s.rows[i := Row(id, payload)], s.rows[i := Row(id, StoreFill(payload))], s.nextId)
    case DeleteExecution(id) =>
      var i := Find(s.rows, id);
      if i == |s.rows| then (s, NotFound) else
      var rest := s.rows[..i] + s.rows[i + 1..];
      Edit(s, rest, rest, s.nextId)
    case UpdateTrade(input) =>
      if input.version.None? then (s, MissingVersion) else
      if s.deleted then (s, NotFound) else
      var values, models := TradeValues(input), ExecutionModels(input);
      if values.Raised? || models.Raised? then (s, Refused) else
      if s.version != input.version.value then (s, Conflict) else
      var written := s.(figures := Store(values.value), version := s.version + 1);
      if input.executions.None? then (written, Done) else
      (written.(rows := NewRows(models.value, s.nextId), nextId := s.nextId + |models.value|), Done)
    case DeleteTrade(version) =>
      if version.None? || version.value <= 0 then (s, MissingVersion) else
      if s.deleted then (s, NotFound) else
      if s.version != version.value then (s, Conflict) else
      (s.(deleted := true, version := s.version + 1), Done)
  }

  /** The state after a whole history, one request at a time. */
  function Run(s: State, history: seq<Request>): State {
    if history == [] then s else Apply(Run(s, history[..|history| - 1]), history[|history| - 1]).0
  }

  predicate Accepted(s: State, history: seq<Request>, i: nat)
    requires i < |history|
  {
    Apply(Run(s, history[..i]), history[i]).1 == Done
  }

  // ---- the rows of the class below ----

  class Trade {
    var figures: Figures
    var rows: seq<Row>
    var version: int
    var deleted: bool
    var nextId: nat

    ghost function Now(): State
      reads this
    {
      State(figures, rows, version, deleted, nextId)
    }

    constructor (input: TradeInput, values: Figures, models: seq<Fill>)
      requires TradeValues(input) == Ok(values) && ExecutionModels(input) == Ok(models)
      ensures Create(input) == Ok(Now())
    {
      figures := Store(values);
      rows := NewRows(models, 0);
      version, deleted, nextId := 1, false, |models|;
    }

    /** SELECT ... ORDER BY executed_at: rows with equal times may come in any order. */
    static method SelectByTime(table: seq<Row>) returns (fills: seq<Fill>)
      ensures multiset(fills) == multiset(Fills(table)) && InTimeOrder(fills)
    {
      SortByTimeSorts(Fills(table));
      fills := SortByTime(Fills(table));
    }

    /** refresh_trade_from_executions on the session's copy of the trade. */
    static method RefreshFromExecutions(table: seq<Row>, trade: Figures) returns (r: Try<Figures>)
      ensures r == Refresh(Fills(table), trade)
    {
      var fills := SelectByTime(table);
      RefreshPermutes(fills, Fills(table), trade);
      if fills == [] {
        return Ok(trade);
      }
      var entries, exits := Only(fills, Entry), Only(fills, Exit);
      var entryQuantity, exitQuantity := SumQuantity(entries), SumQuantity(exits);
      if entries == [] || entryQuantity <= 0.0 || exitQuantity > entryQuantity {
        return Raised;
      }
      var header := trade.header;
      header := header.(entryAt := Earliest(entries), entryPrice := SumNotional(entries) / entryQuantity,
                        entryReason := JoinedReason(entries), exitReason := JoinedReason(exits), size := entryQuantity);
      header := header.(exitAt := if exits == [] then None else Some(Latest(exits)),
                        exitPrice := if exitQuantity != 0.0 then Some(SumNotional(exits) / exitQuantity) else None);
      header := header.(fees := SumFees(fills),
                        status := if exitQuantity == entryQuantity then Closed
                                  else if exitQuantity != 0.0 then PartiallyClosed else Open);
      var calculation := CalculateExecutions(fills, header.terms);
      if calculation.Raised? {
        return Raised;
      }
      r := Ok(Figures(header, calculation.value));
    }

    method CreateExecution(payload: Fill) returns (reply: Reply)
      modifies this
      ensures (Now(), reply) == Apply(old(Now()), Request.CreateExecution(payload))
    {
      if deleted {
        return NotFound;
      }
      var refreshed := RefreshFromExecutions(rows + [Row(nextId, payload)], figures);
      if refreshed.Raised? {
        return Refused;
      }
      figures := Store(refreshed.value);
      rows := rows + [Row(nextId, StoreFill(payload))];
      nextId := nextId + 1;
      reply := Done;
    }

    method UpdateExecution(id: nat, payload: Fill) returns (reply: Reply)
      modifies this
      ensures (Now(), reply) == Apply(old(Now()), Request.UpdateExecution(id, payload))
    {
      var i := Find(rows, id);
      if i == |rows| {
        return NotFound;
      }
      if deleted {
        return NotFound;
      }
      var refreshed := RefreshFromExecutions(rows[i := Row(id, payload)], figures);
      if refreshed.Raised? {
        return Refused;
      }
      figures := Store(refreshed.value);
      rows := rows[i := Row(id, StoreFill(payload))];
      reply := Done;
    }

    method DeleteExecution(id: nat) returns (reply: Reply)
      modifies this
      ensures (Now(), reply) == Apply(old(Now()), Request.DeleteExecution(id))
    {
      var i := Find(rows, id);
      if i == |rows| {
        return NotFound;
      }
      if deleted {
        return NotFound;
      }
      var rest := rows[..i] + rows[i + 1..];
      var refreshed := RefreshFromExecutions(rest, figures);
      if refreshed.Raised? {
        return Refused;
      }
      figures := Store(refreshed.value);
      rows := rest;
      reply := Done;
    }

    method UpdateTrade(input: TradeInput) returns (reply: Reply)
      modifies this
      ensures (Now(), reply) == Apply(old(Now()), Request.UpdateTrade(input))
    {
      if input.version.None? {
        return MissingVersion;
      }
      if deleted {
        return NotFound;
      }
      var values := TradeValues(input);
      if values.Raised? {
        return Refused;
      }
      if version != input.version.value {
        return Conflict;
      }
      if input.executions.Some? {
        var models := BuildExecutions(input);
        if models.Raised? {
          return Refused;
        }
        rows := NewRows(models.value, nextId);
        nextId := nextId + |models.value|;
      }
      figures := Store(values.value);
      version := version + 1;
      reply := Done;
    }

    method DeleteTrade(claimed: Option<int>) returns (reply: Reply)
      modifies this
      ensures (Now(), reply) == Apply(old(Now()), Request.DeleteTrade(claimed))
    {
      if claimed.None? || claimed.value <= 0 {
        return MissingVersion;
      }
      if deleted {
        return NotFound;
      }
      if version != claimed.value {
        return Conflict;
      }
      deleted := true;
      version := version + 1;
      reply := Done;
    }
  }

  /** Refresh depends on the rows as a multiset only. */
  lemma RefreshPermutes(a: seq<Fill>, b: seq<Fill>, trade: Figures)
    requires multiset(a) == multiset(b)
    ensures Refresh(a, trade) == Refresh(b, trade)
  {
    assert |multiset(a)| == |a| && |multiset(b)| == |b|;
    if a != [] {
      DigestPermutes(a, b);
      DigestFields(a);
      DigestFields(b);
      ResultPermutes(a, b, trade.header.terms);
    }
  }
}
