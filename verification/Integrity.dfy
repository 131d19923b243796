/** validate_source_integrity: one pass per table with a set of what has been seen. */
module Integrity {
  import opened MigrationRows

  /** An attachment row of the source with where its bytes are. */
  datatype Attachment = Attachment(row: Row, pathname: string, url: string, size: nat)

  datatype Source = Source(tables: map<string, seq<Row>>, attachments: seq<Attachment>)

  function Table(source: Source, name: string): seq<Row> {
    if name in source.tables then source.tables[name] else []
  }

  datatype UniqueSpec = UniqueSpec(name: string, columns: seq<string>)

  const UNIQUE_SPECS := [
    UniqueSpec("research_reviews", ["kind", "slug"]),
    UniqueSpec("daily_reviews", ["review_date"]),
    UniqueSpec("trading_options", ["kind", "label"]),
    UniqueSpec("import_batches", ["source_hash"])
  ]

  const TRADE_SOURCE := ["source_file_hash", "source_row"]

  // ---- what integrity means ----

  predicate UniqueOn(rows: seq<Row>, columns: seq<string>) {
    forall i, j | 0 <= i < j < |rows| :: Project(rows[i], columns) != Project(rows[j], columns)
  }

  /** Trades that record where they were imported from record different places. */
  predicate TradeSourcesUnique(trades: seq<Row>) {
    forall i, j | 0 <= i < j < |trades| && Null !in Project(trades[i], TRADE_SOURCE) ::
      Project(trades[i], TRADE_SOURCE) != Project(trades[j], TRADE_SOURCE)
  }

  predicate PathsUnique(attachments: seq<Attachment>) {
    forall i, j | 0 <= i < j < |attachments| :: attachments[i].pathname != attachments[j].pathname
  }

  function Ids(rows: seq<Row>): set<Cell> {
    set row | row in rows :: Get(row, "id")
  }

  predicate BestTradeResolves(row: Row, trades: set<Cell>) {
    Get(row, "best_trade_id") == Null || Get(row, "best_trade_id") in trades
  }

  predicate TagResolves(row: Row, trades: set<Cell>, options: set<Cell>) {
    Get(row, "trade_id") in trades && Get(row, "option_id") in options
  }

  predicate Intact(source: Source) {
    && (forall spec <- UNIQUE_SPECS :: UniqueOn(Table(source, spec.name), spec.columns))
    && TradeSourcesUnique(Table(source, "trades")) && PathsUnique(source.attachments)
    && (var trades, options := Ids(Table(source, "trades")), Ids(Table(source, "trading_options"));
        && (forall row <- Table(source, "daily_reviews") :: BestTradeResolves(row, trades))
        && (forall row <- Table(source, "trade_error_tags") :: TagResolves(row, trades, options))
        && (forall a <- source.attachments :: Get(a.row, "trade_id") in trades))
  }

  // ---- the loops ----

  method DuplicateKeys(rows: seq<Row>, columns: seq<string>) returns (duplicates: seq<seq<Cell>>)
    ensures duplicates == [] <==> UniqueOn(rows, columns)
    ensures forall key <- duplicates :: exists i, j :: 0 <= i < j < |rows| && Project(rows[i], columns) == Project(rows[j], columns) == key
  {
    duplicates := [];
    var seen: set<seq<Cell>> := {};
    for i := 0 to |rows|
      invariant forall key :: key in seen <==> exists k :: 0 <= k < i && Project(rows[k], columns) == key
      invariant duplicates == [] <==> UniqueOn(rows[..i], columns)
      invariant forall key <- duplicates :: exists k, j :: 0 <= k < j < |rows| && Project(rows[k], columns) == Project(rows[j], columns) == key
    {
      var key := Project(rows[i], columns);
      if key in seen {
        var k :| 0 <= k < i && Project(rows[k], columns) == key;
        assert rows[..i + 1][k] == rows[k] && rows[..i + 1][i] == rows[i];
        duplicates := duplicates + [key];
      } else {
        assert forall k | 0 <= k < i :: rows[..i + 1][k] == rows[..i][k];
      }
      seen := seen + {key};
    }
    assert rows[..|rows|] == rows;
  }

  method DuplicateTradeSources(trades: seq<Row>) returns (duplicates: seq<seq<Cell>>)
    ensures duplicates == [] <==> TradeSourcesUnique(trades)
  {
    duplicates := [];
    var seen: set<seq<Cell>> := {};
    for i := 0 to |trades|
      invariant forall key :: key in seen <==> SourceOccurs(trades[..i], key)
      invariant duplicates == [] <==> TradeSourcesUnique(trades[..i])
    {
      NextSource(trades[..i], trades[i]);
      assert trades[..i + 1] == trades[..i] + [trades[i]];
      hide SourceOccurs, TradeSourcesUnique, Project;
      var key := Project(trades[i], TRADE_SOURCE);
      if Null !in key && key in seen {
        duplicates := duplicates + [key];
      }
      if Null !in key {
        seen := seen + {key};
      }
    }
    assert trades[..|trades|] == trades;
  }

  predicate SourceOccurs(trades: seq<Row>, key: seq<Cell>) {
    Null !in key && exists k :: 0 <= k < |trades| && Project(trades[k], TRADE_SOURCE) == key
  }

  lemma NextSource(trades: seq<Row>, trade: Row)
    ensures var key := Project(trade, TRADE_SOURCE);
      && (TradeSourcesUnique(trades + [trade]) <==> TradeSourcesUnique(trades) && !SourceOccurs(trades, key))
      && forall other :: SourceOccurs(trades + [trade], other) <==> SourceOccurs(trades, other) || (other == key && Null !in key)
  {
    hide Project;
    var all, key := trades + [trade], Project(trade, TRADE_SOURCE);
    assert all[|trades|] == trade && forall k | 0 <= k < |trades| :: all[k] == trades[k];
    forall other ensures SourceOccurs(all, other) <==> SourceOccurs(trades, other) || (other == key && Null !in key) {
      if SourceOccurs(trades, other) {
        var k :| 0 <= k < |trades| && Project(trades[k], TRADE_SOURCE) == other;
        assert Project(all[k], TRADE_SOURCE) == other;
      }
      if other == key {
        assert Project(all[|trades|], TRADE_SOURCE) == other;
      }
    }
    if SourceOccurs(trades, key) {
      var k :| 0 <= k < |trades| && Project(trades[k], TRADE_SOURCE) == key;
      assert Project(all[k], TRADE_SOURCE) == Project(all[|trades|], TRADE_SOURCE);
    }
    if TradeSourcesUnique(all) {
      forall i, j | 0 <= i < j < |trades| && Null !in Project(trades[i], TRADE_SOURCE)
        ensures Project(trades[i], TRADE_SOURCE) != Project(trades[j], TRADE_SOURCE)
      {
        assert Project(all[i], TRADE_SOURCE) != Project(all[j], TRADE_SOURCE);
      }
    }
  }

  method DuplicatePaths(attachments: seq<Attachment>) returns (duplicates: seq<string>)
    ensures duplicates == [] <==> PathsUnique(attachments)
  {
    duplicates := [];
    var seen: set<string> := {};
    for i := 0 to |attachments|
      invariant forall key :: key in seen <==> exists k :: 0 <= k < i && attachments[k].pathname == key
      invariant duplicates == [] <==> PathsUnique(attachments[..i])
    {
      var key := attachments[i].pathname;
      if key in seen {
        var k :| 0 <= k < i && attachments[k].pathname == key;
        assert attachments[..i + 1][k] == attachments[k] && attachments[..i + 1][i] == attachments[i];
        duplicates := duplicates + [key];
      } else {
        assert forall k | 0 <= k < i :: attachments[..i + 1][k] == attachments[..i][k];
      }
      seen := seen + {key};
    }
    assert attachments[..|attachments|] == attachments;
  }

  /** The rows a predicate rejects, in order. */
  method Rejected<T>(rows: seq<T>, accepts: T -> bool) returns (orphans: seq<T>)
    ensures orphans == [] <==> forall row <- rows :: accepts(row)
  {
    orphans := [];
    for i := 0 to |rows|
      invariant orphans == [] <==> forall row <- rows[..i] :: accepts(row)
    {
      assert rows[..i + 1] == rows[..i] + [rows[i]];
      if !accepts(rows[i]) {
        orphans := orphans + [rows[i]];
      }
    }
    assert rows[..|rows|] == rows;
  }

  /** Sound and complete: the check passes exactly on intact sources. */
  method ValidateSourceIntegrity(source: Source) returns (ok: bool)
    ensures ok <==> Intact(source)
  {
    var duplicates: seq<seq<Cell>> := [];
    for i := 0 to |UNIQUE_SPECS|
      invariant duplicates == [] <==> forall spec <- UNIQUE_SPECS[..i] :: UniqueOn(Table(source, spec.name), spec.columns)
    {
      assert UNIQUE_SPECS[..i + 1] == UNIQUE_SPECS[..i] + [UNIQUE_SPECS[i]];
      var more := DuplicateKeys(Table(source, UNIQUE_SPECS[i].name), UNIQUE_SPECS[i].columns);
      duplicates := duplicates + more;
    }
    assert UNIQUE_SPECS[..|UNIQUE_SPECS|] == UNIQUE_SPECS;
    var tradeDuplicates := DuplicateTradeSources(Table(source, "trades"));
    var pathDuplicates := DuplicatePaths(source.attachments);
    var trades, options := Ids(Table(source, "trades")), Ids(Table(source, "trading_options"));
    var reviewOrphans := Rejected(Table(source, "daily_reviews"), row => BestTradeResolves(row, trades));
    var tagOrphans := Rejected(Table(source, "trade_error_tags"), row => TagResolves(row, trades, options));
    var attachmentOrphans := Rejected(source.attachments, (a: Attachment) => Get(a.row, "trade_id") in trades);
    ok := duplicates == [] && tradeDuplicates == [] && pathDuplicates == []
      && reviewOrphans == [] && tagOrphans == [] && attachmentOrphans == [];
  }

  // ---- the conditions, column by column ----

  predicate SameIn(a: Row, b: Row, column: string) {
    Get(a, column) == Get(b, column)
  }

  /** No two rows agree in the given column, or in both of the given columns. */
  predicate OneEach(rows: seq<Row>, column: string) {
    forall i, j | 0 <= i < j < |rows| :: !SameIn(rows[i], rows[j], column)
  }

  predicate OneEachPair(rows: seq<Row>, first: string, second: string) {
    forall i, j | 0 <= i < j < |rows| :: !(SameIn(rows[i], rows[j], first) && SameIn(rows[i], rows[j], second))
  }

  predicate IsIdIn(cell: Cell, rows: seq<Row>) {
    exists row <- rows :: Get(row, "id") == cell
  }

  predicate Imported(row: Row) {
    Get(row, "source_file_hash") != Null && Get(row, "source_row") != Null
  }

  lemma ProjectOne(a: Row, b: Row, column: string)
    ensures Project(a, [column]) == Project(b, [column]) <==> SameIn(a, b, column)
  {
    assert Project(a, [column]) == [Get(a, column)] && Project(b, [column]) == [Get(b, column)];
  }

  lemma ProjectTwo(a: Row, b: Row, first: string, second: string)
    ensures Project(a, [first, second]) == [Get(a, first), Get(a, second)]
    ensures Project(a, [first, second]) == Project(b, [first, second]) <==> SameIn(a, b, first) && SameIn(a, b, second)
  {
    assert Project(b, [first, second]) == [Get(b, first), Get(b, second)];
  }

  lemma UniqueOnOne(rows: seq<Row>, column: string)
    ensures UniqueOn(rows, [column]) <==> OneEach(rows, column)
  {
    forall i, j | 0 <= i < j < |rows|
      ensures Project(rows[i], [column]) == Project(rows[j], [column]) <==> SameIn(rows[i], rows[j], column)
    {
      ProjectOne(rows[i], rows[j], column);
    }
  }

  lemma UniqueOnTwo(rows: seq<Row>, first: string, second: string)
    ensures UniqueOn(rows, [first, second]) <==> OneEachPair(rows, first, second)
  {
    forall i, j | 0 <= i < j < |rows|
      ensures Project(rows[i], [first, second]) == Project(rows[j], [first, second])
         <==> SameIn(rows[i], rows[j], first) && SameIn(rows[i], rows[j], second)
    {
      ProjectTwo(rows[i], rows[j], first, second);
    }
  }

  predicate OneImportEach(trades: seq<Row>) {
    forall i, j | 0 <= i < j < |trades| && Imported(trades[i]) ::
      !(SameIn(trades[i], trades[j], "source_file_hash") && SameIn(trades[i], trades[j], "source_row"))
  }

  lemma SourcesMean(trades: seq<Row>)
    ensures TradeSourcesUnique(trades) <==> OneImportEach(trades)
  {
    forall i, j | 0 <= i < j < |trades|
      ensures Project(trades[i], TRADE_SOURCE) == Project(trades[j], TRADE_SOURCE)
         <==> SameIn(trades[i], trades[j], "source_file_hash") && SameIn(trades[i], trades[j], "source_row")
      ensures Null !in Project(trades[i], TRADE_SOURCE) <==> Imported(trades[i])
    {
      ProjectTwo(trades[i], trades[j], "source_file_hash", "source_row");
    }
  }

  lemma IdsMean(rows: seq<Row>, cell: Cell)
    ensures cell in Ids(rows) <==> IsIdIn(cell, rows)
  {
  }

  lemma KeysMean(source: Source)
    ensures (forall spec <- UNIQUE_SPECS :: UniqueOn(Table(source, spec.name), spec.columns)) <==>
      && OneEachPair(Table(source, "research_reviews"), "kind", "slug")
      && OneEach(Table(source, "daily_reviews"), "review_date")
      && OneEachPair(Table(source, "trading_options"), "kind", "label")
      && OneEach(Table(source, "import_batches"), "source_hash")
  {
    UniqueOnTwo(Table(source, "research_reviews"), "kind", "slug");
    UniqueOnOne(Table(source, "daily_reviews"), "review_date");
    UniqueOnTwo(Table(source, "trading_options"), "kind", "label");
    UniqueOnOne(Table(source, "import_batches"), "source_hash");
    hide UniqueOn, OneEach, OneEachPair, Table;
    assert UNIQUE_SPECS[0] in UNIQUE_SPECS && UNIQUE_SPECS[1] in UNIQUE_SPECS && UNIQUE_SPECS[2] in UNIQUE_SPECS && UNIQUE_SPECS[3] in UNIQUE_SPECS;
  }

  /** An intact source, column by column: the unique keys of four tables; trades imported from one place only; one
      attachment per path; and best trades, tagged trades, tags and attached trades that exist. */
  lemma IntactMeans(source: Source)
    ensures Intact(source) <==>
      var trades := Table(source, "trades");
      && OneEachPair(Table(source, "research_reviews"), "kind", "slug")
      && OneEach(Table(source, "daily_reviews"), "review_date")
      && OneEachPair(Table(source, "trading_options"), "kind", "label")
      && OneEach(Table(source, "import_batches"), "source_hash")
      && OneImportEach(trades)
      && (forall i, j | 0 <= i < j < |source.attachments| :: source.attachments[i].pathname != source.attachments[j].pathname)
      && (forall review <- Table(source, "daily_reviews") ::
            Get(review, "best_trade_id") == Null || IsIdIn(Get(review, "best_trade_id"), trades))
      && (forall tag <- Table(source, "trade_error_tags") ::
            IsIdIn(Get(tag, "trade_id"), trades) && IsIdIn(Get(tag, "option_id"), Table(source, "trading_options")))
      && (forall a <- source.attachments :: IsIdIn(Get(a.row, "trade_id"), trades))
  {
    KeysMean(source);
    SourcesMean(Table(source, "trades"));
    forall cell ensures cell in Ids(Table(source, "trades")) <==> IsIdIn(cell, Table(source, "trades")) {
      IdsMean(Table(source, "trades"), cell);
    }
    forall cell ensures cell in Ids(Table(source, "trading_options")) <==> IsIdIn(cell, Table(source, "trading_options")) {
      IdsMean(Table(source, "trading_options"), cell);
    }
    hide UniqueOn, OneEach, OneEachPair, Table, TradeSourcesUnique, OneImportEach, Ids, IsIdIn, UNIQUE_SPECS, Get;
  }
}
