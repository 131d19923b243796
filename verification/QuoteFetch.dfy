/** One uncached fetch: a request per batch, a quote per symbol, and the union of what came back. */
module QuoteFetch {
  import opened Wrappers
  import opened QuoteBatches

  datatype Quote = Quote(name: string, value: string, change: Option<string>, percent: Option<string>, at: int)

  /** What parsing one symbol out of a response does: a quote, the expected error, or any other exception. */
  datatype Parsed = Parsed(quote: Quote) | QuoteError | OtherError

  datatype Reply = Unreachable | Body(parse: string -> Parsed)

  type Quotes = map<string, Quote>

  // ---- deduplication ----

  function Dedup(symbols: seq<string>): seq<string> {
    if symbols == [] then [] else
    var before, last := Dedup(symbols[..|symbols| - 1]), symbols[|symbols| - 1];
    if last in before then before else before + [last]
  }

  predicate Distinct(symbols: seq<string>) {
    forall i, j | 0 <= i < j < |symbols| :: symbols[i] != symbols[j]
  }

  lemma {:induction false} DedupKeepsOneEach(symbols: seq<string>)
    ensures Distinct(Dedup(symbols)) && (forall s :: s in Dedup(symbols) <==> s in symbols)
    ensures Distinct(symbols) ==> Dedup(symbols) == symbols
  {
    if symbols != [] {
      var n := |symbols| - 1;
      DedupKeepsOneEach(symbols[..n]);
      assert symbols == symbols[..n] + [symbols[n]];
    }
  }

  // ---- one batch ----

  /** What one batch contributes; None is an exception. A symbol that raises anything but the
      expected error takes its whole batch down, and so does a batch without a single quote. */
  ghost function BatchResult(batch: seq<string>, reply: Reply): (r: Option<Quotes>)
    ensures r.Some? ==> r.value != map[] && forall s <- r.value :: s in batch
  {
    if reply.Unreachable? || (exists s <- batch :: reply.parse(s).OtherError?) then None else
    var quotes := map s | s in batch && reply.parse(s).Parsed? :: reply.parse(s).quote;
    if quotes == map[] then None else Some(quotes)
  }

  /** Does a batch come back with something? It was reached, no symbol in it raised the unexpected, and some symbol parsed. */
  ghost predicate Succeeds(batch: seq<string>, reply: Reply) {
    reply.Body? && (forall s <- batch :: reply.parse(s) != OtherError) && exists s <- batch :: reply.parse(s).Parsed?
  }

  /** What a batch contributes, symbol by symbol: a symbol with the expected error is missing, and it alone. */
  lemma BatchMeans(batch: seq<string>, reply: Reply)
    ensures BatchResult(batch, reply).Some? <==> Succeeds(batch, reply)
    ensures Succeeds(batch, reply) ==>
      var quotes := BatchResult(batch, reply).value;
      && (forall s <- quotes :: s in batch)
      && forall s <- batch ::
           && (s in quotes <==> reply.parse(s) != QuoteError)
           && (s in quotes ==> reply.parse(s) == Parsed(quotes[s]))
  {
    if reply.Body? && forall s <- batch :: reply.parse(s) != OtherError {
      var quotes := map s | s in batch && reply.parse(s).Parsed? :: reply.parse(s).quote;
      assert quotes == map[] <==> forall s <- batch :: s !in quotes;
      assert forall s <- batch :: s in quotes <==> reply.parse(s).Parsed?;
    }
  }

  /** _parse_available_quotes. */
  method ParseAvailable(batch: seq<string>, parse: string -> Parsed) returns (r: Try<Quotes>)
    ensures r.Raised? <==> exists s <- batch :: parse(s).OtherError?
    ensures r.Ok? ==> r.value == map s | s in batch && parse(s).Parsed? :: parse(s).quote
  {
    var result: Quotes := map[];
    for i := 0 to |batch|
      invariant forall s <- batch[..i] :: !parse(s).OtherError?
      invariant result == map s | s in batch[..i] && parse(s).Parsed? :: parse(s).quote
    {
      assert batch[..i + 1] == batch[..i] + [batch[i]];
      match parse(batch[i])
      case Parsed(quote) => result := result[batch[i] := quote];
      case QuoteError =>
      case OtherError =>
        assert batch[i] in batch;
        return Raised;
    }
    assert batch[..|batch|] == batch;
    r := Ok(result);
  }

  /** _fetch_batch. */
  method FetchBatch(batch: seq<string>, reply: Reply) returns (r: Option<Quotes>)
    ensures r == BatchResult(batch, reply)
    ensures r.Some? <==> Succeeds(batch, reply)
    ensures r.Some? ==> forall s <- batch :: s in r.value <==> reply.parse(s) != QuoteError
    ensures r.Some? ==> forall s <- r.value :: s in batch && reply.parse(s) == Parsed(r.value[s])
  {
    BatchMeans(batch, reply);
    if reply.Unreachable? {
      return None;
    }
    var parsed := ParseAvailable(batch, reply.parse);
    if parsed.Raised? || parsed.value == map[] {
      return None;
    }
    r := Some(parsed.value);
  }

  // ---- gathering ----

  function Merged(results: seq<Option<Quotes>>): Quotes {
    if results == [] then map[] else
    var last := results[|results| - 1];
    Merged(results[..|results| - 1]) + if last.Some? then last.value else map[]
  }

  ghost predicate Disjoint(results: seq<Option<Quotes>>) {
    forall i, j | 0 <= i < j < |results| && results[i].Some? && results[j].Some? ::
      results[i].value.Keys !! results[j].value.Keys
  }

  ghost predicate Provides(result: Option<Quotes>, symbol: string, quote: Quote) {
    result.Some? && symbol in result.value && result.value[symbol] == quote
  }

  /** With disjoint results the union says about a symbol exactly what some result says. */
  lemma {:induction false} MergedLookup(results: seq<Option<Quotes>>, symbol: string, quote: Quote)
    requires Disjoint(results)
    ensures symbol in Merged(results) && Merged(results)[symbol] == quote
       <==> exists result <- results :: Provides(result, symbol, quote)
  {
    if results != [] {
      var n := |results| - 1;
      var before, last := results[..n], results[n];
      assert results == before + [last];
      MergedLookup(before, symbol, quote);
      if last.Some? && symbol in last.value {
        forall i | 0 <= i < n ensures !Provides(before[i], symbol, quote) {
          assert results[i] == before[i];
        }
        assert Provides(last, symbol, quote) <==> last.value[symbol] == quote;
      }
    }
  }

  /** The union does not depend on the order in which the batches are gathered. */
  lemma MergeOrderIrrelevant(a: seq<Option<Quotes>>, b: seq<Option<Quotes>>)
    requires Disjoint(a) && Disjoint(b) && multiset(a) == multiset(b)
    ensures Merged(a) == Merged(b)
  {
    MergedWithin(a, b);
    MergedWithin(b, a);
    assert Merged(a).Keys == Merged(b).Keys;
  }

  lemma MergedWithin(a: seq<Option<Quotes>>, b: seq<Option<Quotes>>)
    requires Disjoint(a) && Disjoint(b) && multiset(a) == multiset(b)
    ensures forall symbol <- Merged(a) :: symbol in Merged(b) && Merged(b)[symbol] == Merged(a)[symbol]
  {
    forall symbol | symbol in Merged(a) ensures symbol in Merged(b) && Merged(b)[symbol] == Merged(a)[symbol] {
      MergedLookup(a, symbol, Merged(a)[symbol]);
      var result :| result in a && Provides(result, symbol, Merged(a)[symbol]);
      assert result in multiset(b);
      MergedLookup(b, symbol, Merged(a)[symbol]);
    }
  }

  ghost function Results(batches: seq<seq<string>>, upstream: seq<string> -> Reply): seq<Option<Quotes>> {
    seq(|batches|, i requires 0 <= i < |batches| => BatchResult(batches[i], upstream(batches[i])))
  }

  /** Two batches of a deduplicated list share no symbol. */
  lemma BatchesAreDisjoint(batches: seq<seq<string>>, i: nat, j: nat, symbol: string)
    requires i < j < |batches| && Distinct(Flatten(batches)) && symbol in batches[i]
    ensures symbol !in batches[j]
  {
    BatchIsSlice(batches, i);
    BatchIsSlice(batches, j);
    CoverGrows(batches, i + 1, j);
  }

  lemma {:induction false} CoverGrows(batches: seq<seq<string>>, i: nat, j: nat)
    requires i <= j <= |batches|
    ensures Covered(batches, i) <= Covered(batches, j)
    decreases j - i
  {
    if i < j {
      CoverStep(batches, i);
      CoverGrows(batches, i + 1, j);
    }
  }

  /** Each result only has symbols of its own batch, and no two batches share one. */
  ghost predicate Matched(batches: seq<seq<string>>, results: seq<Option<Quotes>>) {
    && |results| == |batches|
    && (forall i, s | 0 <= i < |batches| && results[i].Some? && s in results[i].value :: s in batches[i])
    && (forall i, j, s | 0 <= i < j < |batches| && s in batches[i] :: s !in batches[j])
  }

  lemma ResultsMatch(batches: seq<seq<string>>, upstream: seq<string> -> Reply)
    requires Distinct(Flatten(batches))
    ensures Matched(batches, Results(batches, upstream))
  {
    forall i, j, s | 0 <= i < j < |batches| && s in batches[i] ensures s !in batches[j] {
      BatchesAreDisjoint(batches, i, j, s);
    }
  }

  lemma MatchedIsDisjoint(batches: seq<seq<string>>, results: seq<Option<Quotes>>)
    requires Matched(batches, results)
    ensures Disjoint(results)
  {
    forall i, j | 0 <= i < j < |results| && results[i].Some? && results[j].Some?
      ensures results[i].value.Keys !! results[j].value.Keys
    {
      forall s | s in results[i].value ensures s !in results[j].value {
        assert s in batches[i];
      }
    }
  }

  /** What the union says about a symbol depends on the batch it was sent in and on no other. */
  ghost predicate OwnBatchOnly(batches: seq<seq<string>>, results: seq<Option<Quotes>>, quotes: Quotes)
    requires |results| == |batches|
  {
    && (forall s <- quotes :: exists i :: 0 <= i < |batches| && s in batches[i])
    && (forall i, s | 0 <= i < |batches| && s in batches[i] ::
          (s in quotes <==> results[i].Some? && s in results[i].value) && (s in quotes ==> quotes[s] == results[i].value[s]))
  }

  lemma MergedIsOwnBatchOnly(batches: seq<seq<string>>, results: seq<Option<Quotes>>)
    requires Matched(batches, results)
    ensures OwnBatchOnly(batches, results, Merged(results))
  {
    hide Merged;
    var quotes := Merged(results);
    MatchedIsDisjoint(batches, results);
    forall s | s in quotes ensures exists i :: 0 <= i < |batches| && Provides(results[i], s, quotes[s]) {
      MergedLookup(results, s, quotes[s]);
    }
    forall i, s | 0 <= i < |batches| && results[i].Some? && s in results[i].value
      ensures s in quotes && quotes[s] == results[i].value[s]
    {
      assert Provides(results[i], s, results[i].value[s]) && results[i] in results;
      MergedLookup(results, s, results[i].value[s]);
    }
    forall i, s | 0 <= i < |batches| && s in batches[i] && s in quotes
      ensures results[i].Some? && s in results[i].value
    {
      var j :| 0 <= j < |batches| && Provides(results[j], s, quotes[s]);
      assert s in batches[j];
    }
  }

  /** Nothing comes back exactly when every batch failed. */
  lemma NothingMergedIffAllFailed(batches: seq<seq<string>>, results: seq<Option<Quotes>>)
    requires Matched(batches, results)
    requires forall i | 0 <= i < |results| && results[i].Some? :: results[i].value != map[]
    ensures Merged(results) == map[] <==> forall i | 0 <= i < |batches| :: results[i].None?
  {
    hide Merged;
    MergedIsOwnBatchOnly(batches, results);
    forall i | 0 <= i < |batches| && results[i].Some? ensures Merged(results) != map[] {
      var s :| s in results[i].value;
      assert s in batches[i] && s in Merged(results);
    }
    if Merged(results) != map[] {
      var s :| s in Merged(results);
    }
  }

  /** _fetch_uncached up to the cache write; None is the error raised when nothing came back. */
  method FetchUncached(symbols: seq<string>, t: Template, upstream: seq<string> -> Reply)
    returns (r: Option<Quotes>, batches: seq<seq<string>>)
    requires Distinct(symbols)
    ensures Splits(t, batches, symbols) && Maximal(t, batches)
    ensures r.None? <==> forall i | 0 <= i < |batches| :: Results(batches, upstream)[i].None?
    ensures r.Some? ==> OwnBatchOnly(batches, Results(batches, upstream), r.value) && (forall s <- r.value :: s in symbols)
    ensures r.None? <==> forall b <- batches :: !Succeeds(b, upstream(b))
    ensures r.Some? ==> Answered(batches, upstream, r.value)
  {
    batches := SplitSymbols(symbols, t);
    hide Splits, Maximal, OwnBatchOnly, Matched;
    ghost var results := Results(batches, upstream);
    var quotes: Quotes := map[];
    for i := 0 to |batches|
      invariant quotes == Merged(results[..i])
    {
      assert results[..i + 1][..i] == results[..i];
      var result := FetchBatch(batches[i], upstream(batches[i]));
      if result.Some? {
        quotes := quotes + result.value;
      }
    }
    assert results[..|batches|] == results;
    FlattenOfSplit(t, batches, symbols);
    ResultsMatch(batches, upstream);
    MergedIsOwnBatchOnly(batches, results);
    NothingMergedIffAllFailed(batches, results);
    OnlyRequested(batches, results, quotes);
    r := if quotes == map[] then None else Some(quotes);
    AnsweredBy(batches, upstream, quotes);
  }

  /** Each symbol is answered exactly when its batch succeeds and it parses, and as it parses. */
  ghost predicate Answered(batches: seq<seq<string>>, upstream: seq<string> -> Reply, quotes: Quotes) {
    forall b <- batches :: forall s <- b ::
      && (s in quotes <==> Succeeds(b, upstream(b)) && upstream(b).parse(s) != QuoteError)
      && (s in quotes ==> upstream(b).parse(s) == Parsed(quotes[s]))
  }

  lemma AnsweredBy(batches: seq<seq<string>>, upstream: seq<string> -> Reply, quotes: Quotes)
    requires OwnBatchOnly(batches, Results(batches, upstream), quotes)
    ensures Answered(batches, upstream, quotes)
    ensures (forall i | 0 <= i < |batches| :: Results(batches, upstream)[i].None?) <==> forall b <- batches :: !Succeeds(b, upstream(b))
  {
    var results := Results(batches, upstream);
    hide BatchResult;
    forall i | 0 <= i < |batches| ensures results[i].Some? <==> Succeeds(batches[i], upstream(batches[i])) {
      BatchMeans(batches[i], upstream(batches[i]));
    }
    forall b, s | b in batches && s in b
      ensures s in quotes <==> Succeeds(b, upstream(b)) && upstream(b).parse(s) != QuoteError
      ensures s in quotes ==> upstream(b).parse(s) == Parsed(quotes[s])
    {
      var i :| 0 <= i < |batches| && batches[i] == b;
      BatchMeans(b, upstream(b));
      assert results[i] == BatchResult(b, upstream(b));
    }
  }

  lemma FlattenOfSplit(t: Template, batches: seq<seq<string>>, symbols: seq<string>)
    requires Splits(t, batches, symbols)
    ensures Flatten(batches) == symbols
  {
  }

  lemma OnlyRequested(batches: seq<seq<string>>, results: seq<Option<Quotes>>, quotes: Quotes)
    requires |results| == |batches| && OwnBatchOnly(batches, results, quotes)
    ensures forall s <- quotes :: s in Flatten(batches)
  {
    forall s | s in quotes ensures s in Flatten(batches) {
      var i :| 0 <= i < |batches| && s in batches[i];
      BatchIsSlice(batches, i);
    }
  }
}
