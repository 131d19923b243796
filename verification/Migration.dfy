/** migrate: copy, then trust nothing that was not read back. */
module Migration {
  import opened Wrappers
  import opened MigrationRows
  import opened Integrity

  newtype byte = x | 0 <= x < 256

  type Bytes = seq<byte>

  const TABLES := ["research_reviews", "trades", "daily_reviews", "trading_options", "trade_error_tags",
                   "trading_settings", "import_batches", "quant_strategies", "quant_backtests"]

  const ATTACHMENTS := "trade_attachments"

  const FILLS := "trade_executions"

  /** What --replace empties by name; the cascade also empties trade_executions. */
  const TRUNCATED := {"trade_error_tags", "trade_attachments", "daily_reviews", "trades", "research_reviews",
                      "trading_options", "trading_settings", "import_batches", FILLS}

  const NAMES := TABLES + [ATTACHMENTS]

  /** Everything outside the program: what the old blob store serves, what a table holds after rows were
      inserted into it, what the bucket holds after a put, and which removals succeed. None is an exception. */
  datatype World = World(blobs: string -> Option<Bytes>,
                         inserted: (string, seq<Row>, seq<Row>) -> Option<seq<Row>>,
                         stored: (string, Bytes) -> Option<Bytes>,
                         removable: string -> bool)

  /** Column lists, the JSON text of a projected row, the hash of a canonical form and of an object. */
  datatype Codec = Codec(columns: string -> seq<string>, json: Json, digest: seq<seq<Cell>> -> string, sha: Bytes -> string)

  ghost predicate Faithful(codec: Codec) {
    Injective(codec.json) && Injective(codec.digest) && Injective(codec.sha)
  }

  datatype Report = Failed | DryRun | Verified

  function AttachmentRows(attachments: seq<Attachment>): seq<Row> {
    seq(|attachments|, i requires 0 <= i < |attachments| => attachments[i].row["object_key" := Text(attachments[i].pathname)])
  }

  function Rows(tables: map<string, seq<Row>>, name: string): seq<Row> {
    if name in tables then tables[name] else []
  }

  /** The rows the target has to end up with. */
  function Wanted(source: Source, name: string): seq<Row> {
    if name == ATTACHMENTS then AttachmentRows(source.attachments) else Table(source, name)
  }

  function Hash(rows: seq<Row>, name: string, codec: Codec): string {
    codec.digest(Canonical(rows, codec.columns(name), codec.json))
  }

  /** Equal as multisets of the compared columns. */
  predicate SameRows(a: seq<Row>, b: seq<Row>, columns: seq<string>) {
    multiset(Projected(a, columns)) == multiset(Projected(b, columns))
  }

  lemma EqualHashesSameRows(a: seq<Row>, b: seq<Row>, name: string, codec: Codec)
    requires Faithful(codec)
    ensures Hash(a, name, codec) == Hash(b, name, codec) <==> SameRows(a, b, codec.columns(name))
  {
    CanonicalIffSameRows(a, b, codec.columns(name), codec.json);
  }

  function Pathnames(attachments: seq<Attachment>): set<string> {
    set a | a in attachments :: a.pathname
  }

  /** Stores that keep what they are given. */
  ghost predicate Honest(world: World) {
    && (forall name, existing, rows :: world.inserted(name, existing, rows) == Some(existing + rows))
    && (forall key, payload :: world.stored(key, payload) == Some(payload))
    && (forall key :: world.removable(key))
  }

  /** Every attachment can be downloaded at its recorded size. */
  predicate Downloadable(attachments: seq<Attachment>, world: World) {
    forall a <- attachments :: world.blobs(a.url).Some? && |world.blobs(a.url).value| == a.size
  }

  /** What a table holds when the inserts begin. */
  function Cleared(tables: map<string, seq<Row>>, name: string, replace: bool): seq<Row> {
    if replace && name in TRUNCATED then [] else Rows(tables, name)
  }

  lemma NamesAreDistinct()
    ensures forall i, j | 0 <= i < j < |NAMES| :: NAMES[i] != NAMES[j]
    ensures FILLS !in NAMES && FILLS in TRUNCATED
  {
  }

  /** The tables agree with the source on every compared column. */
  ghost predicate Matches(tables: map<string, seq<Row>>, source: Source, codec: Codec) {
    forall name <- NAMES :: SameRows(Rows(tables, name), Wanted(source, name), codec.columns(name))
  }

  /** The bucket holds the payloads under the attachments' keys and nothing else. */
  ghost predicate Mirrors(bucket: map<string, Bytes>, attachments: seq<Attachment>, payloads: map<string, Bytes>) {
    && bucket.Keys == Pathnames(attachments) == payloads.Keys
    && forall a <- attachments :: a.pathname in bucket && a.pathname in payloads && bucket[a.pathname] == payloads[a.pathname]
  }

  predicate Agrees(tables: map<string, seq<Row>>, source: Source, name: string, codec: Codec) {
    && |Rows(tables, name)| == |Wanted(source, name)|
    && Hash(Rows(tables, name), name, codec) == Hash(Wanted(source, name), name, codec)
  }

  predicate AllCleared(tables: map<string, seq<Row>>, replace: bool) {
    forall name <- NAMES :: Cleared(tables, name, replace) == []
  }

  /** The first `done` tables have their rows appended to what was left of them. */
  ghost predicate Loaded(before: map<string, seq<Row>>, working: map<string, seq<Row>>, source: Source, replace: bool, done: nat) {
    forall j | 0 <= j < |NAMES| ::
      Rows(working, NAMES[j]) == Cleared(before, NAMES[j], replace) + (if j < done then Wanted(source, NAMES[j]) else [])
  }

  lemma LoadedStep(before: map<string, seq<Row>>, working: map<string, seq<Row>>, source: Source, replace: bool, i: nat)
    requires i < |NAMES| && Loaded(before, working, source, replace, i)
    ensures var rows := Wanted(source, NAMES[i]);
      Loaded(before, if rows == [] then working else working[NAMES[i] := Rows(working, NAMES[i]) + rows], source, replace, i + 1)
  {
    NamesAreDistinct();
    hide TABLES, ATTACHMENTS, NAMES, Wanted;
    assert Rows(working, NAMES[i]) == Cleared(before, NAMES[i], replace) + [];
  }

  lemma NothingLoaded(tables: map<string, seq<Row>>, source: Source, replace: bool)
    ensures Loaded(tables, if replace then tables - TRUNCATED else tables, source, replace, 0)
  {
    hide TABLES, ATTACHMENTS, NAMES, TRUNCATED;
  }

  /** After an honest load the comparison succeeds exactly when nothing old was left. */
  lemma AgreesIffCleared(before: map<string, seq<Row>>, after: map<string, seq<Row>>, source: Source, replace: bool, codec: Codec)
    requires Loaded(before, after, source, replace, |NAMES|)
    ensures (forall name <- NAMES :: Agrees(after, source, name, codec)) <==> AllCleared(before, replace)
  {
    forall name | name in NAMES ensures Agrees(after, source, name, codec) <==> Cleared(before, name, replace) == [] {
      var j :| 0 <= j < |NAMES| && NAMES[j] == name;
      assert Rows(after, name) == Cleared(before, name, replace) + Wanted(source, name);
      if Cleared(before, name, replace) == [] {
        assert Rows(after, name) == Wanted(source, name);
      }
    }
  }

  class Target {
    var tables: map<string, seq<Row>>
    var bucketExists: bool
    var bucket: map<string, Bytes>

    ghost predicate Valid()
      reads this
    {
      !bucketExists ==> bucket == map[]
    }

    constructor (tables: map<string, seq<Row>>, bucketExists: bool, bucket: map<string, Bytes>)
      requires !bucketExists ==> bucket == map[]
      ensures Valid() && this.tables == tables && this.bucketExists == bucketExists && this.bucket == bucket
    {
      this.tables, this.bucketExists, this.bucket := tables, bucketExists, bucket;
    }

    predicate IsEmpty()
      reads this
    {
      (forall name <- NAMES :: Rows(tables, name) == []) && bucket == map[]
    }

    /** Downloading the attachments; the sizes recorded in the source must match. */
    static method Download(attachments: seq<Attachment>, world: World) returns (payloads: Option<map<string, Bytes>>)
      requires PathsUnique(attachments)
      ensures payloads.Some? ==> payloads.value.Keys == Pathnames(attachments)
      ensures payloads.Some? ==> forall a <- attachments :: world.blobs(a.url) == Some(payloads.value[a.pathname])
      ensures payloads.Some? <==> Downloadable(attachments, world)
    {
      var result: map<string, Bytes> := map[];
      for i := 0 to |attachments|
        invariant result.Keys == Pathnames(attachments[..i])
        invariant forall a <- attachments[..i] ::
          world.blobs(a.url) == Some(result[a.pathname]) && |result[a.pathname]| == a.size
      {
        var a := attachments[i];
        assert attachments[..i + 1] == attachments[..i] + [a] && a in attachments;
        var payload := world.blobs(a.url);
        if payload.None? || |payload.value| != a.size {
          return None;
        }
        result := result[a.pathname := payload.value];
      }
      assert attachments[..|attachments|] == attachments;
      payloads := Some(result);
    }

    /** Putting every payload; an exception leaves the objects put so far. */
    method PutAll(attachments: seq<Attachment>, payloads: map<string, Bytes>, world: World) returns (ok: bool)
      requires Pathnames(attachments) <= payloads.Keys
      modifies `bucket
      ensures bucket.Keys <= old(bucket).Keys + Pathnames(attachments)
      ensures ok ==> bucket.Keys == old(bucket).Keys + Pathnames(attachments)
      ensures Honest(world) ==> ok && forall a <- attachments :: bucket[a.pathname] == payloads[a.pathname]
    {
      for i := 0 to |attachments|
        invariant bucket.Keys == old(bucket).Keys + Pathnames(attachments[..i])
        invariant Honest(world) ==> forall a <- attachments[..i] :: bucket[a.pathname] == payloads[a.pathname]
      {
        var key := attachments[i].pathname;
        assert attachments[..i + 1] == attachments[..i] + [attachments[i]] && attachments[i] in attachments;
        assert Pathnames(attachments[..i]) <= Pathnames(attachments);
        var kept := world.stored(key, payloads[key]);
        if kept.None? {
          return false;
        }
        bucket := bucket[key := kept.value];
      }
      assert attachments[..|attachments|] == attachments;
      ok := true;
    }

    /** The transaction: empty, insert, commit; or leave every table alone. */
    method Load(source: Source, replace: bool, world: World) returns (ok: bool)
      modifies `tables
      ensures !ok ==> tables == old(tables)
      ensures ok && replace ==> Rows(tables, FILLS) == []
      ensures Honest(world) ==> ok && Loaded(old(tables), tables, source, replace, |NAMES|)
    {
      hide TABLES, ATTACHMENTS, NAMES, TRUNCATED, Wanted, FILLS, Loaded;
      NamesAreDistinct();
      var working := if replace then tables - TRUNCATED else tables;
      NothingLoaded(tables, source, replace);
      for i := 0 to |NAMES|
        invariant tables == old(tables) && (replace ==> FILLS !in working)
        invariant Honest(world) ==> Loaded(tables, working, source, replace, i)
      {
        if Honest(world) {
          LoadedStep(tables, working, source, replace, i);
        }
        var rows := Wanted(source, NAMES[i]);
        if rows != [] {
          var after := world.inserted(NAMES[i], Rows(working, NAMES[i]), rows);
          if after.None? {
            return false;
          }
          working := working[NAMES[i] := after.value];
        }
      }
      tables := working;
      ok := true;
    }

    /** Row counts and hashes, table by table. */
    method HashesAgree(source: Source, codec: Codec) returns (ok: bool)
      ensures ok <==> forall name <- NAMES :: Agrees(tables, source, name, codec)
    {
      hide TABLES, ATTACHMENTS, NAMES, Hash, Wanted;
      var names := NAMES;
      for i := 0 to |names|
        invariant forall name <- names[..i] :: Agrees(tables, source, name, codec)
      {
        var name := names[i];
        assert names[..i + 1] == names[..i] + [name] && name in names;
        if |Rows(tables, name)| != |Wanted(source, name)|
          || Hash(Rows(tables, name), name, codec) != Hash(Wanted(source, name), name, codec) {
          return false;
        }
      }
      assert names[..|names|] == names;
      ok := true;
    }

    method ObjectsAgree(attachments: seq<Attachment>, payloads: map<string, Bytes>, codec: Codec) returns (ok: bool)
      requires payloads.Keys == Pathnames(attachments)
      ensures ok <==> forall a <- attachments ::
        a.pathname in bucket && codec.sha(bucket[a.pathname]) == codec.sha(payloads[a.pathname])
    {
      for i := 0 to |attachments|
        invariant forall a <- attachments[..i] ::
          a.pathname in bucket && codec.sha(bucket[a.pathname]) == codec.sha(payloads[a.pathname])
      {
        var a := attachments[i];
        assert attachments[..i + 1] == attachments[..i] + [a] && a in attachments;
        if a.pathname !in bucket || codec.sha(bucket[a.pathname]) != codec.sha(payloads[a.pathname]) {
          return false;
        }
      }
      assert attachments[..|attachments|] == attachments;
      ok := true;
    }

    method RemoveStale(stale: set<string>, world: World) returns (ok: bool)
      requires stale <= bucket.Keys
      modifies `bucket
      ensures ok ==> bucket == old(bucket) - stale
      ensures ok <==> forall key <- stale :: world.removable(key)
    {
      var left := stale;
      while left != {}
        invariant left <= stale && bucket == old(bucket) - (stale - left)
        invariant forall key <- stale - left :: world.removable(key)
        decreases left
      {
        var key :| key in left;
        if !world.removable(key) {
          return false;
        }
        bucket := bucket - {key};
        left := left - {key};
      }
      ok := true;
    }

    /** The writing half of migrate: put, load, read back and compare, drop what is stale. */
    method CopyAndVerify(source: Source, payloads: map<string, Bytes>, replace: bool, world: World, codec: Codec) returns (ok: bool)
      requires Faithful(codec) && payloads.Keys == Pathnames(source.attachments) && (!replace ==> bucket == map[])
      modifies `tables, `bucket
      ensures ok ==> Matches(tables, source, codec) && Mirrors(bucket, source.attachments, payloads)
      ensures ok && replace ==> Rows(tables, FILLS) == []
      ensures Honest(world) ==> (ok <==> AllCleared(old(tables), replace))
    {
      hide TABLES, ATTACHMENTS, NAMES, TRUNCATED, FILLS, AllCleared, Agrees, Matches, Mirrors, Loaded, Honest;
      var before := bucket.Keys;
      ok := PutAll(source.attachments, payloads, world);
      assert Honest(world) ==> ok;
      if !ok {
        return;
      }
      ok := Load(source, replace, world);
      if !ok {
        return;
      }
      ok := HashesAgree(source, codec);
      if Honest(world) {
        AgreesIffCleared(old(tables), tables, source, replace, codec);
      }
      if !ok {
        return;
      }
      ok := ObjectsAgree(source.attachments, payloads, codec);
      assert Honest(world) ==> ok;
      if !ok {
        return;
      }
      if replace {
        var stale := before - payloads.Keys;
        ok := RemoveStale(stale, world);
        HonestRemoves(world, stale);
        if !ok {
          return;
        }
      }
      AgreementIsMatch(tables, source, codec);
      MirrorsFrom(bucket, source.attachments, payloads, codec);
    }

    /** migrate. A verified report means what it says, whatever the stores did with the writes. */
    method Migrate(source: Source, apply: bool, replace: bool, world: World, codec: Codec) returns (report: Report)
      requires Valid() && Faithful(codec)
      modifies this
      ensures report.Verified? ==>
        Intact(source) && Matches(tables, source, codec) && bucket.Keys == Pathnames(source.attachments)
      ensures report.Verified? ==>
        forall a <- source.attachments :: a.pathname in bucket && world.blobs(a.url) == Some(bucket[a.pathname])
      ensures report.Verified? ==> EveryTableMatches(tables, source, codec)
      ensures report.Verified? && replace ==> Rows(tables, "trade_executions") == []
      ensures report.Verified? && "object_key" in codec.columns(ATTACHMENTS) ==> RowsNameObjects(tables, bucket)
      ensures report.DryRun? <==> !apply && Intact(source) && Downloadable(source.attachments, world)
      ensures !apply || !Intact(source) || !Downloadable(source.attachments, world) || (!replace && !old(IsEmpty())) ==>
        !report.Verified? && tables == old(tables) && bucket == old(bucket) && bucketExists == old(bucketExists)
      // With honest stores an accepted run verifies exactly when no table keeps old rows.
      ensures Honest(world) && apply && Intact(source) && Downloadable(source.attachments, world) && (replace || old(IsEmpty())) ==>
        (report.Verified? <==> AllCleared(old(tables), replace))
    {
      hide TABLES, ATTACHMENTS, NAMES, AllCleared, Matches, Honest, RowsNameObjects, EveryTableMatches;
      var intact := ValidateSourceIntegrity(source);
      if !intact {
        return Failed;
      }
      if apply && !IsEmpty() && !replace {
        return Failed;
      }
      var payloads := Download(source.attachments, world);
      if payloads.None? {
        return Failed;
      }
      if !apply {
        return DryRun;
      }
      bucketExists := true;
      var ok := CopyAndVerify(source, payloads.value, replace, world, codec);
      if ok {
        MatchesMeans(tables, source, codec);
      }
      if ok && "object_key" in codec.columns(ATTACHMENTS) {
        VerifiedRowsNameObjects(tables, bucket, source, codec);
      }
      report := if ok then Verified else Failed;
    }
  }

  // ---- which tables are compared ----

  /** Nine tables agree with the source's table of the same name, and the attachments with the source's attachments. */
  ghost predicate EveryTableMatches(tables: map<string, seq<Row>>, source: Source, codec: Codec) {
    && SameTable(tables, source, "research_reviews", codec) && SameTable(tables, source, "trades", codec)
    && SameTable(tables, source, "daily_reviews", codec) && SameTable(tables, source, "trading_options", codec)
    && SameTable(tables, source, "trade_error_tags", codec) && SameTable(tables, source, "trading_settings", codec)
    && SameTable(tables, source, "import_batches", codec) && SameTable(tables, source, "quant_strategies", codec)
    && SameTable(tables, source, "quant_backtests", codec)
    && SameRows(Rows(tables, "trade_attachments"), AttachmentRows(source.attachments), codec.columns("trade_attachments"))
  }

  ghost predicate SameTable(tables: map<string, seq<Row>>, source: Source, name: string, codec: Codec) {
    SameRows(Rows(tables, name), Table(source, name), codec.columns(name))
  }

  lemma NamesInclude()
    ensures "research_reviews" in NAMES && "trades" in NAMES && "daily_reviews" in NAMES && "trading_options" in NAMES
    ensures "trade_error_tags" in NAMES && "trading_settings" in NAMES && "import_batches" in NAMES
    ensures "quant_strategies" in NAMES && "quant_backtests" in NAMES && "trade_attachments" in NAMES
  {
    assert NAMES[0] in NAMES && NAMES[1] in NAMES && NAMES[2] in NAMES && NAMES[3] in NAMES && NAMES[4] in NAMES;
    assert NAMES[5] in NAMES && NAMES[6] in NAMES && NAMES[7] in NAMES && NAMES[8] in NAMES && NAMES[9] in NAMES;
  }

  lemma TableMatches(tables: map<string, seq<Row>>, source: Source, codec: Codec, name: string)
    requires Matches(tables, source, codec) && name in NAMES
    ensures name != "trade_attachments" ==> SameTable(tables, source, name, codec)
    ensures name == "trade_attachments" ==> SameRows(Rows(tables, name), AttachmentRows(source.attachments), codec.columns(name))
  {
    hide NAMES, SameRows, Rows, Table;
  }

  lemma MatchesMeans(tables: map<string, seq<Row>>, source: Source, codec: Codec)
    requires Matches(tables, source, codec)
    ensures EveryTableMatches(tables, source, codec)
  {
    NamesInclude();
    hide NAMES, Matches, SameRows, Rows, SameTable, AttachmentRows;
    TableMatches(tables, source, codec, "research_reviews");
    TableMatches(tables, source, codec, "trades");
    TableMatches(tables, source, codec, "daily_reviews");
    TableMatches(tables, source, codec, "trading_options");
    TableMatches(tables, source, codec, "trade_error_tags");
    TableMatches(tables, source, codec, "trading_settings");
    TableMatches(tables, source, codec, "import_batches");
    TableMatches(tables, source, codec, "quant_strategies");
    TableMatches(tables, source, codec, "quant_backtests");
    TableMatches(tables, source, codec, "trade_attachments");
  }

  // ---- what the rows of attachments refer to ----

  lemma ProjectedCell(rows: seq<Row>, columns: seq<string>, i: nat, c: nat)
    requires i < |rows| && c < |columns|
    ensures Projected(rows, columns)[i][c] == Get(rows[i], columns[c])
  {
  }

  /** A cell of a compared column occurs in both tables or in neither. */
  lemma SameCells(a: seq<Row>, b: seq<Row>, columns: seq<string>, c: nat, i: nat) returns (j: nat)
    requires SameRows(a, b, columns) && c < |columns| && i < |a|
    ensures j < |b| && Get(b[j], columns[c]) == Get(a[i], columns[c])
  {
    var row := Projected(a, columns)[i];
    assert row in multiset(Projected(a, columns));
    assert row in multiset(Projected(b, columns));
    j :| 0 <= j < |b| && Projected(b, columns)[j] == row;
    ProjectedCell(a, columns, i, c);
    ProjectedCell(b, columns, j, c);
  }

  /** Where the object key is compared, as it is in the program, every attachment row names an object of the bucket, and
      every object of the bucket is named by an attachment row. */
  ghost predicate RowsNameObjects(tables: map<string, seq<Row>>, bucket: map<string, Bytes>) {
    && (forall row <- Rows(tables, ATTACHMENTS) :: exists key <- bucket :: Get(row, "object_key") == Text(key))
    && (forall key <- bucket :: exists row <- Rows(tables, ATTACHMENTS) :: Get(row, "object_key") == Text(key))
  }

  lemma VerifiedRowsNameObjects(tables: map<string, seq<Row>>, bucket: map<string, Bytes>, source: Source, codec: Codec)
    requires Matches(tables, source, codec) && bucket.Keys == Pathnames(source.attachments)
    requires "object_key" in codec.columns(ATTACHMENTS)
    ensures RowsNameObjects(tables, bucket)
  {
    var columns := codec.columns(ATTACHMENTS);
    var c :| 0 <= c < |columns| && columns[c] == "object_key";
    var rows, wanted := Rows(tables, ATTACHMENTS), AttachmentRows(source.attachments);
    assert SameRows(rows, wanted, columns) by {
      assert NAMES[9] == ATTACHMENTS && NAMES[9] in NAMES;
    }
    hide TABLES, NAMES, ATTACHMENTS, SameRows, Matches;
    forall row | row in rows ensures exists key <- bucket :: Get(row, "object_key") == Text(key) {
      var i :| 0 <= i < |rows| && rows[i] == row;
      var j := SameCells(rows, wanted, columns, c, i);
      assert source.attachments[j] in source.attachments;
      assert source.attachments[j].pathname in bucket;
    }
    forall key | key in bucket ensures exists row <- rows :: Get(row, "object_key") == Text(key) {
      assert key in Pathnames(source.attachments);
      var i :| 0 <= i < |source.attachments| && source.attachments[i].pathname == key;
      SameRowsSymmetric(rows, wanted, columns);
      var j := SameCells(wanted, rows, columns, c, i);
      assert rows[j] in rows;
    }
  }

  lemma SameRowsSymmetric(a: seq<Row>, b: seq<Row>, columns: seq<string>)
    requires SameRows(a, b, columns)
    ensures SameRows(b, a, columns)
  {
  }

  // ---- why a replacement can fail ----

  /** The two tables that a replacement copies but does not empty. */
  const QUANT := ["quant_strategies", "quant_backtests"]

  /** A replacement leaves nothing old in the compared tables exactly when the quant tables were empty. */
  lemma ReplacementClearsIff(tables: map<string, seq<Row>>)
    ensures AllCleared(tables, true) <==> forall name <- QUANT :: Rows(tables, name) == []
  {
    assert QUANT[0] in NAMES && QUANT[1] in NAMES;
    assert QUANT[0] !in TRUNCATED && QUANT[1] !in TRUNCATED;
    forall name | name in NAMES ensures name in TRUNCATED || name in QUANT {
      var i :| 0 <= i < |NAMES| && NAMES[i] == name;
      assert NAMES[7] == QUANT[0] && NAMES[8] == QUANT[1] && NAMES[9] == ATTACHMENTS;
    }
  }

  const HONEST := World(
    _ => None, (name, existing, rows) => Some(existing + rows), (key, payload) => Some(payload), _ => true)

  lemma HonestIsHonest()
    ensures Honest(HONEST)
  {
  }

  /** Replacing by an empty source, with honest stores, fails on a target with one strategy. */
  method ReplacementFails(codec: Codec) returns (target: Target, report: Report)
    requires Faithful(codec)
    ensures fresh(target) && report == Failed
  {
    var tables: map<string, seq<Row>> := map["quant_strategies" := [map[]]];
    target := new Target(tables, false, map[]);
    ReplacementClearsIff(tables);
    HonestIsHonest();
    EmptyIsIntact();
    assert "quant_strategies" in QUANT by { assert QUANT[0] == "quant_strategies"; }
    hide *;
    report := target.Migrate(Source(map[], []), true, true, HONEST, codec);
  }

  lemma EmptyIsIntact()
    ensures Intact(Source(map[], [])) && Downloadable([], HONEST)
  {
  }

  lemma HonestRemoves(world: World, stale: set<string>)
    ensures Honest(world) ==> forall key <- stale :: world.removable(key)
  {
  }

  lemma AgreementIsMatch(tables: map<string, seq<Row>>, source: Source, codec: Codec)
    requires Faithful(codec) && forall name <- NAMES :: Agrees(tables, source, name, codec)
    ensures Matches(tables, source, codec)
  {
    hide TABLES, ATTACHMENTS, NAMES;
    forall name | name in NAMES ensures SameRows(Rows(tables, name), Wanted(source, name), codec.columns(name)) {
      assert Agrees(tables, source, name, codec);
      EqualHashesSameRows(Rows(tables, name), Wanted(source, name), name, codec);
    }
  }

  lemma MirrorsFrom(bucket: map<string, Bytes>, attachments: seq<Attachment>, payloads: map<string, Bytes>, codec: Codec)
    requires Faithful(codec) && bucket.Keys == Pathnames(attachments) == payloads.Keys
    requires forall a <- attachments :: a.pathname in bucket && a.pathname in payloads
    requires forall a <- attachments :: codec.sha(bucket[a.pathname]) == codec.sha(payloads[a.pathname])
    ensures Mirrors(bucket, attachments, payloads)
  {
  }
}
