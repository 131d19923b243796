/** Migration 0004: legacy headers become one entry and one exit fill. */
module Backfill {
  import opened Wrappers
  import opened Decimals
  import opened Calculations
  import opened Ledger

  datatype Note = EntryNote | ExitNote | OwnNote

  datatype Owned = Owned(trade: nat, fill: Fill, note: Note)

  datatype Legacy = Legacy(id: nat, header: Header)

  predicate Has(fills: seq<Owned>, trade: nat, action: Action) {
    exists row <- fills :: row.trade == trade && row.fill.action == action
  }

  function EntryOf(h: Header): Fill {
    Fill(Entry, h.entryAt, h.entryPrice, h.size, 0.0, h.entryReason)
  }

  /** The length of the reason given to an exit whose header has none. */
  const MISSING_REASON := |"旧记录未填写平仓理由"|

  function ExitReason(h: Header): nat {
    if h.exitReason == 0 then MISSING_REASON else h.exitReason
  }

  function ExitOf(h: Header): Fill
    requires h.exitAt.Some? && h.exitPrice.Some?
  {
    Fill(Exit, h.exitAt.value, h.exitPrice.value, h.size, h.fees, ExitReason(h))
  }

  /** What the first statement inserts for one trade, seeing the table as it was. */
  function NewEntry(t: Legacy, table: seq<Owned>): seq<Owned> {
    if Has(table, t.id, Entry) then [] else [Owned(t.id, EntryOf(t.header), EntryNote)]
  }

  function NewExit(t: Legacy, table: seq<Owned>): seq<Owned> {
    if t.header.exitAt.None? || t.header.exitPrice.None? || Has(table, t.id, Exit) then []
    else [Owned(t.id, ExitOf(t.header), ExitNote)]
  }

  function NewEntries(trades: seq<Legacy>, table: seq<Owned>): seq<Owned> {
    if trades == [] then [] else
    NewEntries(trades[..|trades| - 1], table) + NewEntry(trades[|trades| - 1], table)
  }

  function NewExits(trades: seq<Legacy>, table: seq<Owned>): seq<Owned> {
    if trades == [] then [] else
    NewExits(trades[..|trades| - 1], table) + NewExit(trades[|trades| - 1], table)
  }

  function Upgraded(trades: seq<Legacy>, table: seq<Owned>): seq<Owned> {
    var withEntries := table + NewEntries(trades, table);
    withEntries + NewExits(trades, withEntries)
  }

  function Downgraded(table: seq<Owned>): seq<Owned> {
    if table == [] then [] else
    Downgraded(table[..|table| - 1]) + if table[|table| - 1].note.OwnNote? then [table[|table| - 1]] else []
  }

  class Database {
    const trades: seq<Legacy>
    var executions: seq<Owned>

    constructor (trades: seq<Legacy>, executions: seq<Owned>)
      ensures this.trades == trades && this.executions == executions
    {
      this.trades, this.executions := trades, executions;
    }

    /** The two guarded INSERT ... SELECT statements. */
    method Upgrade()
      modifies this
      ensures executions == Upgraded(trades, old(executions))
    {
      InsertEntries();
      InsertExits();
    }

    /** The guard sees the table as it was before the statement. */
    method InsertEntries()
      modifies this
      ensures executions == old(executions) + NewEntries(trades, old(executions))
    {
      var snapshot := executions;
      for i := 0 to |trades|
        invariant executions == snapshot + NewEntries(trades[..i], snapshot)
      {
        assert trades[..i + 1][..i] == trades[..i];
        if !Has(snapshot, trades[i].id, Entry) {
          executions := executions + [Owned(trades[i].id, EntryOf(trades[i].header), EntryNote)];
        }
      }
      assert trades[..|trades|] == trades;
    }

    method InsertExits()
      modifies this
      ensures executions == old(executions) + NewExits(trades, old(executions))
    {
      var snapshot := executions;
      for i := 0 to |trades|
        invariant executions == snapshot + NewExits(trades[..i], snapshot)
      {
        assert trades[..i + 1][..i] == trades[..i];
        var header := trades[i].header;
        if header.exitAt.Some? && header.exitPrice.Some? && !Has(snapshot, trades[i].id, Exit) {
          executions := executions + [Owned(trades[i].id, ExitOf(header), ExitNote)];
        }
      }
      assert trades[..|trades|] == trades;
    }
  }

  // ---- rerunning and undoing ----

  lemma HasExtends(table: seq<Owned>, more: seq<Owned>, trade: nat, action: Action)
    requires Has(table, trade, action) || Has(more, trade, action)
    ensures Has(table + more, trade, action)
  {
    var row :| (row in table || row in more) && row.trade == trade && row.fill.action == action;
    assert row in table + more;
  }

  lemma {:induction false} EveryTradeGetsAnEntry(trades: seq<Legacy>, table: seq<Owned>, t: Legacy)
    requires t in trades
    ensures Has(table + NewEntries(trades, table), t.id, Entry)
  {
    var n := |trades| - 1;
    var before, last := NewEntries(trades[..n], table), NewEntry(trades[n], table);
    if Has(table, t.id, Entry) {
      HasExtends(table, before + last, t.id, Entry);
    } else if t == trades[n] {
      assert Owned(t.id, EntryOf(t.header), EntryNote) in before + last;
      HasExtends(table, before + last, t.id, Entry);
    } else {
      assert t in trades[..n];
      EveryTradeGetsAnEntry(trades[..n], table, t);
      assert (table + before) + last == table + (before + last);
      HasExtends(table + before, last, t.id, Entry);
    }
  }

  lemma {:induction false} EveryClosedTradeGetsAnExit(trades: seq<Legacy>, table: seq<Owned>, t: Legacy)
    requires t in trades && t.header.exitAt.Some? && t.header.exitPrice.Some?
    ensures Has(table + NewExits(trades, table), t.id, Exit)
  {
    var n := |trades| - 1;
    var before, last := NewExits(trades[..n], table), NewExit(trades[n], table);
    if Has(table, t.id, Exit) {
      HasExtends(table, before + last, t.id, Exit);
    } else if t == trades[n] {
      assert Owned(t.id, ExitOf(t.header), ExitNote) in before + last;
      HasExtends(table, before + last, t.id, Exit);
    } else {
      assert t in trades[..n];
      EveryClosedTradeGetsAnExit(trades[..n], table, t);
      assert (table + before) + last == table + (before + last);
      HasExtends(table + before, last, t.id, Exit);
    }
  }

  lemma {:induction false} NothingLeftToInsert(trades: seq<Legacy>, table: seq<Owned>)
    requires forall t <- trades :: Has(table, t.id, Entry)
    requires forall t <- trades :: t.header.exitAt.Some? && t.header.exitPrice.Some? ==> Has(table, t.id, Exit)
    ensures NewEntries(trades, table) == [] && NewExits(trades, table) == []
  {
    if trades != [] {
      NothingLeftToInsert(trades[..|trades| - 1], table);
      assert trades[|trades| - 1] in trades;
    }
  }

  /** A second upgrade inserts nothing, whatever the table held before the first. */
  lemma UpgradeTwice(trades: seq<Legacy>, table: seq<Owned>)
    ensures Upgraded(trades, Upgraded(trades, table)) == Upgraded(trades, table)
  {
    var withEntries := table + NewEntries(trades, table);
    var done := Upgraded(trades, table);
    forall t | t in trades ensures Has(done, t.id, Entry) {
      EveryTradeGetsAnEntry(trades, table, t);
      HasExtends(withEntries, NewExits(trades, withEntries), t.id, Entry);
    }
    forall t | t in trades && t.header.exitAt.Some? && t.header.exitPrice.Some? ensures Has(done, t.id, Exit) {
      EveryClosedTradeGetsAnExit(trades, withEntries, t);
    }
    NothingLeftToInsert(trades, done);
    assert done + [] == done;
  }

  lemma {:induction false} DowngradeSplits(a: seq<Owned>, b: seq<Owned>)
    ensures Downgraded(a + b) == Downgraded(a) + Downgraded(b)
  {
    if b == [] {
      assert a + b == a;
    } else {
      var n := |b| - 1;
      assert (a + b)[..|a + b| - 1] == a + b[..n];
      DowngradeSplits(a, b[..n]);
    }
  }

  lemma {:induction false} InsertedRowsAreMarked(trades: seq<Legacy>, table: seq<Owned>)
    ensures Downgraded(NewEntries(trades, table)) == [] && Downgraded(NewExits(trades, table)) == []
  {
    if trades != [] {
      var n := |trades| - 1;
      InsertedRowsAreMarked(trades[..n], table);
      DowngradeSplits(NewEntries(trades[..n], table), NewEntry(trades[n], table));
      DowngradeSplits(NewExits(trades[..n], table), NewExit(trades[n], table));
      assert Downgraded([]) == [];
    }
  }

  lemma {:induction false} OwnRowsStay(table: seq<Owned>)
    requires forall row <- table :: row.note.OwnNote?
    ensures Downgraded(table) == table
  {
    if table != [] {
      var n := |table| - 1;
      OwnRowsStay(table[..n]);
      assert table[n] in table && table == table[..n] + [table[n]];
    }
  }

  /** Downgrading takes out exactly what upgrading put in. */
  lemma DowngradeUndoesUpgrade(trades: seq<Legacy>, table: seq<Owned>)
    requires forall row <- table :: row.note.OwnNote?
    ensures Downgraded(Upgraded(trades, table)) == table
  {
    var withEntries := table + NewEntries(trades, table);
    OwnRowsStay(table);
    InsertedRowsAreMarked(trades, table);
    InsertedRowsAreMarked(trades, withEntries);
    DowngradeSplits(table, NewEntries(trades, table));
    DowngradeSplits(withEntries, NewExits(trades, withEntries));
  }

  // ---- what one trade gets ----

  function FillsOf(table: seq<Owned>, trade: nat): seq<Fill> {
    if table == [] then [] else
    FillsOf(table[..|table| - 1], trade)
      + if table[|table| - 1].trade == trade then [table[|table| - 1].fill] else []
  }

  function Backfilled(h: Header): seq<Fill> {
    [EntryOf(h)] + if h.exitAt.Some? && h.exitPrice.Some? then [ExitOf(h)] else []
  }

  predicate DistinctIds(trades: seq<Legacy>) {
    forall i, j | 0 <= i < j < |trades| :: trades[i].id != trades[j].id
  }

  lemma {:induction false} FillsOfSplits(a: seq<Owned>, b: seq<Owned>, trade: nat)
    ensures FillsOf(a + b, trade) == FillsOf(a, trade) + FillsOf(b, trade)
  {
    if b == [] {
      assert a + b == a;
    } else {
      var n := |b| - 1;
      assert (a + b)[..|a + b| - 1] == a + b[..n];
      FillsOfSplits(a, b[..n], trade);
    }
  }

  lemma {:induction false} NoRowsNoFills(table: seq<Owned>, trade: nat)
    requires forall row <- table :: row.trade != trade
    ensures FillsOf(table, trade) == []
  {
    if table != [] {
      NoRowsNoFills(table[..|table| - 1], trade);
      assert table[|table| - 1] in table;
    }
  }

  /** A statement's contribution to one trade comes from that trade's own row. */
  lemma {:induction false} OwnEntry(trades: seq<Legacy>, table: seq<Owned>, t: Legacy)
    requires DistinctIds(trades)
    ensures t in trades ==> FillsOf(NewEntries(trades, table), t.id) == FillsOf(NewEntry(t, table), t.id)
    ensures (forall u <- trades :: u.id != t.id) ==> FillsOf(NewEntries(trades, table), t.id) == []
  {
    if trades != [] {
      var n := |trades| - 1;
      var before, last := trades[..n], trades[n];
      assert trades == before + [last];
      OwnEntry(before, table, t);
      FillsOfSplits(NewEntries(before, table), NewEntry(last, table), t.id);
      if last.id != t.id {
        NoRowsNoFills(NewEntry(last, table), t.id);
      } else if t in trades {
        assert t == last && forall i | 0 <= i < n :: before[i] == trades[i];
        assert forall u <- before :: u.id != t.id;
      }
    }
  }

  lemma {:induction false} OwnExit(trades: seq<Legacy>, table: seq<Owned>, t: Legacy)
    requires DistinctIds(trades)
    ensures t in trades ==> FillsOf(NewExits(trades, table), t.id) == FillsOf(NewExit(t, table), t.id)
    ensures (forall u <- trades :: u.id != t.id) ==> FillsOf(NewExits(trades, table), t.id) == []
  {
    if trades != [] {
      var n := |trades| - 1;
      var before, last := trades[..n], trades[n];
      assert trades == before + [last];
      OwnExit(before, table, t);
      FillsOfSplits(NewExits(before, table), NewExit(last, table), t.id);
      if last.id != t.id {
        NoRowsNoFills(NewExit(last, table), t.id);
      } else if t in trades {
        assert t == last && forall i | 0 <= i < n :: before[i] == trades[i];
        assert forall u <- before :: u.id != t.id;
      }
    }
  }

  /** A trade with no fills gets its entry, and its exit when both exit columns are set. */
  lemma UpgradeBackfills(trades: seq<Legacy>, table: seq<Owned>, t: Legacy)
    requires DistinctIds(trades) && t in trades && forall row <- table :: row.trade != t.id
    ensures FillsOf(Upgraded(trades, table), t.id) == Backfilled(t.header)
  {
    hide Upgraded, NewEntries, NewExits;
    var entries := NewEntries(trades, table);
    var withEntries := table + entries;
    var exits := NewExits(trades, withEntries);
    assert Upgraded(trades, table) == withEntries + exits by { UpgradedIs(trades, table); }
    FillsOfSplits(table, entries, t.id);
    FillsOfSplits(withEntries, exits, t.id);
    NoRowsNoFills(table, t.id);
    assert !Has(table, t.id, Entry);
    assert !Has(withEntries, t.id, Exit) by {
      EntriesOnly(trades, table);
    }
    OwnEntry(trades, table, t);
    OwnExit(trades, withEntries, t);
    FillsOfNew(t, table, withEntries);
  }

  /** In general, whatever a trade has: an entry is added if it has none, and an exit if it has none and both exit columns
      are set; they hold the columns of the header, the fees on the exit. */
  lemma UpgradeAddsExactly(trades: seq<Legacy>, table: seq<Owned>, t: Legacy)
    requires DistinctIds(trades) && t in trades
    ensures var h, before, after := t.header, FillsOf(table, t.id), FillsOf(Upgraded(trades, table), t.id);
      var entry := if Has(table, t.id, Entry) then [] else [Fill(Entry, h.entryAt, h.entryPrice, h.size, 0.0, h.entryReason)];
      var exit := if Has(table, t.id, Exit) || h.exitAt == None || h.exitPrice == None then [] else
        [Fill(Exit, h.exitAt.value, h.exitPrice.value, h.size, h.fees, if h.exitReason > 0 then h.exitReason else 10)];
      after == before + entry + exit
  {
    hide Upgraded, NewEntries, NewExits, Has;
    var entries := NewEntries(trades, table);
    var withEntries := table + entries;
    var exits := NewExits(trades, withEntries);
    UpgradedIs(trades, table);
    FillsOfSplits(table, entries, t.id);
    FillsOfSplits(withEntries, exits, t.id);
    SameExits(trades, table, t.id);
    OwnEntry(trades, table, t);
    OwnExit(trades, withEntries, t);
    FillsOfOwn(t, table, withEntries);
  }

  /** The entries of the first statement are no exits to the second. */
  lemma SameExits(trades: seq<Legacy>, table: seq<Owned>, id: nat)
    ensures Has(table + NewEntries(trades, table), id, Exit) <==> Has(table, id, Exit)
  {
    EntriesOnly(trades, table);
    if Has(table, id, Exit) {
      HasExtends(table, NewEntries(trades, table), id, Exit);
    }
  }

  lemma FillsOfOwn(t: Legacy, table: seq<Owned>, withEntries: seq<Owned>)
    ensures var h := t.header;
      && FillsOf(NewEntry(t, table), t.id)
         == (if Has(table, t.id, Entry) then [] else [Fill(Entry, h.entryAt, h.entryPrice, h.size, 0.0, h.entryReason)])
      && FillsOf(NewExit(t, withEntries), t.id)
         == (if Has(withEntries, t.id, Exit) || h.exitAt == None || h.exitPrice == None then [] else
             [Fill(Exit, h.exitAt.value, h.exitPrice.value, h.size, h.fees, if h.exitReason > 0 then h.exitReason else 10)])
  {
    hide Has;
    var entry, exit := NewEntry(t, table), NewExit(t, withEntries);
    if entry != [] {
      assert entry[..0] == [];
    }
    if exit != [] {
      assert exit[..0] == [];
    }
  }

  lemma UpgradedIs(trades: seq<Legacy>, table: seq<Owned>)
    ensures var withEntries := table + NewEntries(trades, table);
      Upgraded(trades, table) == withEntries + NewExits(trades, withEntries)
  {
  }

  lemma FillsOfNew(t: Legacy, table: seq<Owned>, withEntries: seq<Owned>)
    requires !Has(table, t.id, Entry) && !Has(withEntries, t.id, Exit)
    ensures FillsOf(NewEntry(t, table), t.id) + FillsOf(NewExit(t, withEntries), t.id) == Backfilled(t.header)
  {
    assert NewEntry(t, table)[..0] == [];
    var exits := NewExit(t, withEntries);
    if exits != [] {
      assert exits[..0] == [];
    }
  }

  lemma {:induction false} EntriesOnly(trades: seq<Legacy>, table: seq<Owned>)
    ensures forall row <- NewEntries(trades, table) :: row.fill.action.Entry?
  {
    if trades != [] {
      EntriesOnly(trades[..|trades| - 1], table);
    }
  }

  // ---- what it means ----

  lemma DigestOfBackfill(h: Header)
    requires ValidHeader(h)
    ensures var d := DigestOf(Backfilled(h));
      && d.entryAt == Some(h.entryAt) && d.entryQuantity == h.size && d.entryNotional == h.entryPrice * h.size
      && d.entryText == h.entryReason + 1
      && (if h.exitAt.Some? && h.exitPrice.Some?
          then d.exitAt == h.exitAt && d.exitQuantity == h.size && d.exitNotional == h.exitPrice.value * h.size && d.fees == h.fees
               && d.exitText == ExitReason(h) + 1
          else d.exitAt.None? && d.exitQuantity == 0.0 && d.fees == 0.0 && d.exitText == 0)
  {
    var e := EntryOf(h);
    assert [e][1..] == [];
    assert DigestOf([e]) == One(e);
    if h.exitAt.Some? && h.exitPrice.Some? {
      var x := ExitOf(h);
      DigestSplit([e], [x]);
      assert [x][1..] == [];
      assert DigestOf([x]) == One(x);
    } else {
      assert Backfilled(h) == [e];
    }
  }

  lemma AverageOfOne(price: real, size: real)
    requires size > 0.0
    ensures price * size / size == price
  {
  }

  /** Aggregated, the backfilled fills are the header with its status read off the exit columns. */
  lemma BackfillSummary(h: Header)
    requires ValidHeader(h)
    ensures var d := DigestOf(Backfilled(h));
      && Tradable(d)
      && Summary(d, h.terms) ==
           if h.exitAt.Some? && h.exitPrice.Some? then h.(status := Closed, exitReason := ExitReason(h))
           else h.(status := Open, exitAt := None, exitPrice := None, fees := 0.0, exitReason := 0)
  {
    hide Backfilled, Summary;
    DigestOfBackfill(h);
    PositiveProduct(h.entryPrice, h.size);
    AverageOfOne(h.entryPrice, h.size);
    if h.exitAt.Some? && h.exitPrice.Some? {
      AverageOfOne(h.exitPrice.value, h.size);
      SummaryOfExited(DigestOf(Backfilled(h)), h);
    } else {
      SummaryOfOpen(DigestOf(Backfilled(h)), h);
    }
  }

  lemma SummaryOfExited(d: Digest, h: Header)
    requires h.size > 0.0 && d.entryAt == Some(h.entryAt) && d.entryQuantity == h.size && d.fees == h.fees
    requires d.exitAt == h.exitAt && d.exitQuantity == h.size && h.exitPrice.Some?
    requires d.entryNotional / h.size == h.entryPrice && d.exitNotional / h.size == h.exitPrice.value
    requires d.entryText == h.entryReason + 1 && d.exitText == ExitReason(h) + 1
    ensures Summary(d, h.terms) == h.(status := Closed, exitReason := ExitReason(h))
  {
  }

  lemma SummaryOfOpen(d: Digest, h: Header)
    requires h.size > 0.0 && d.entryAt == Some(h.entryAt) && d.entryQuantity == h.size && d.fees == 0.0
    requires d.exitAt.None? && d.exitQuantity == 0.0 && d.entryNotional / h.size == h.entryPrice
    requires d.entryText == h.entryReason + 1 && d.exitText == 0
    ensures Summary(d, h.terms) == h.(status := Open, exitAt := None, exitPrice := None, fees := 0.0, exitReason := 0)
  {
  }

  /** The fills of a closed legacy trade are worth what its header said. */
  lemma BackfillPreservesResult(h: Header)
    requires ValidHeader(h) && h.status.Closed?
    ensures CalculateExecutions(Backfilled(h), h.terms) == CalculateTrade(h)
  {
    hide CalculateExecutions, CalculateTrade, Settle, Summary;
    BackfillSummary(h);
    DigestOfBackfill(h);
    CalculateExecutionsIsSettle(Backfilled(h), h.terms);
    HeaderIsFaithful(DigestOf(Backfilled(h)), h.terms);
  }

  /** Aggregating the backfilled fills leaves every column as it was exactly for closed trades and
      for open trades without fees: an open trade's fees have no fill to live on, and a partially
      closed header loses its status, its exit columns or both. */
  lemma RefreshAfterBackfill(h: Header, trade: Figures)
    requires ValidHeader(h) && CalculateTrade(h).Ok? && trade == Figures(h, CalculateTrade(h).value)
    ensures Refresh(Backfilled(h), trade).Ok?
    ensures Refresh(Backfilled(h), trade) == Ok(trade) <==> h.status.Closed? || (h.status.Open? && h.fees == 0.0)
  {
    hide Refresh, Summary, CalculateExecutions;
    assert forall f <- Backfilled(h) :: ValidFill(f);
    BackfillSummary(h);
    DigestOfBackfill(h);
    RefreshSummarises(Backfilled(h), trade);
    if h.status.Closed? {
      BackfillPreservesResult(h);
      CalculateExecutionsIsSettle(Backfilled(h), h.terms);
    }
  }
}
