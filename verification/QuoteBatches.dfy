/** Cutting a symbol list into requests, and putting the replies together again. */
module QuoteBatches {
  const MAX_URL_LENGTH := 1800

  /** A URL template around its single placeholder. */
  datatype Template = Template(prefix: string, suffix: string)

  function Join(batch: seq<string>): string {
    if batch == [] then "" else if |batch| == 1 then batch[0] else Join(batch[..|batch| - 1]) + "," + batch[|batch| - 1]
  }

  function Url(t: Template, batch: seq<string>): string {
    t.prefix + Join(batch) + t.suffix
  }

  predicate Fits(t: Template, batch: seq<string>) {
    |Url(t, batch)| <= MAX_URL_LENGTH
  }

  function Flatten(batches: seq<seq<string>>): seq<string> {
    if batches == [] then [] else Flatten(batches[..|batches| - 1]) + batches[|batches| - 1]
  }

  /** An order-preserving split in which every batch of several symbols fits; one symbol may not. */
  ghost predicate Splits(t: Template, batches: seq<seq<string>>, symbols: seq<string>) {
    && Flatten(batches) == symbols
    && (forall b <- batches :: b != [] && (|b| > 1 ==> Fits(t, b)))
  }

  ghost predicate Full(t: Template, batch: seq<string>, next: seq<string>) {
    next != [] && !Fits(t, batch + [next[0]])
  }

  /** No batch could have taken the first symbol of the next. */
  ghost predicate Maximal(t: Template, batches: seq<seq<string>>) {
    forall i, j | 0 <= i < j < |batches| && j == i + 1 :: Full(t, batches[i], batches[j])
  }

  /** The closed batches and the current one are a maximal split of what has been read. */
  ghost predicate Partial(t: Template, batches: seq<seq<string>>, current: seq<string>, read: seq<string>) {
    if current == [] then batches == [] && read == []
    else Splits(t, batches + [current], read) && Maximal(t, batches + [current])
  }

  /** _split_symbols. */
  method SplitSymbols(symbols: seq<string>, t: Template) returns (batches: seq<seq<string>>)
    ensures Splits(t, batches, symbols) && Maximal(t, batches)
    ensures forall other :: Splits(t, other, symbols) ==> |batches| <= |other|
  {
    hide Splits, Maximal, Url, Join;
    batches := [];
    var current: seq<string> := [];
    var prefixLength := |t.prefix| + |t.suffix|;
    var currentLength := prefixLength;
    UrlLength(t, [], "");
    for i := 0 to |symbols|
      invariant Partial(t, batches, current, symbols[..i])
      invariant currentLength == |Url(t, current)|
    {
      var symbol := symbols[i];
      var symbolLength := |symbol| + if current != [] then 1 else 0;
      assert symbols[..i + 1] == symbols[..i] + [symbol];
      UrlLength(t, current, symbol);
      UrlLength(t, [], symbol);
      if current != [] && currentLength + symbolLength > MAX_URL_LENGTH {
        CloseBatch(t, batches, current, symbol, symbols[..i]);
        assert [] + [symbol] == [symbol];
        batches := batches + [current];
        current, currentLength, symbolLength := [], prefixLength, |symbol|;
      } else {
        ExtendBatch(t, batches, current, symbol, symbols[..i]);
      }
      current := current + [symbol];
      currentLength := currentLength + symbolLength;
    }
    assert symbols[..|symbols|] == symbols;
    if current != [] {
      batches := batches + [current];
    } else {
      EmptySplits(t);
    }
    forall other | Splits(t, other, symbols) ensures |batches| <= |other| {
      GreedyIsOptimal(t, symbols, batches, other);
    }
  }

  lemma EmptySplits(t: Template)
    ensures Splits(t, [], []) && Maximal(t, [])
  {
  }

  lemma UrlLength(t: Template, batch: seq<string>, symbol: string)
    ensures |Url(t, [])| == |t.prefix| + |t.suffix|
    ensures |Url(t, batch + [symbol])| == |Url(t, batch)| + |symbol| + if batch != [] then 1 else 0
  {
    assert (batch + [symbol])[..|batch|] == batch;
  }

  lemma FlattenAppends(batches: seq<seq<string>>, batch: seq<string>)
    ensures Flatten(batches + [batch]) == Flatten(batches) + batch
  {
    assert (batches + [batch])[..|batches|] == batches;
  }

  lemma CloseBatch(t: Template, batches: seq<seq<string>>, current: seq<string>, symbol: string, read: seq<string>)
    requires current != [] && Partial(t, batches, current, read) && !Fits(t, current + [symbol])
    ensures Partial(t, batches + [current], [symbol], read + [symbol])
  {
    FlattenAppends(batches + [current], [symbol]);
    assert Full(t, current, [symbol]);
  }

  lemma ExtendBatch(t: Template, batches: seq<seq<string>>, current: seq<string>, symbol: string, read: seq<string>)
    requires Partial(t, batches, current, read) && (current != [] ==> Fits(t, current + [symbol]))
    ensures Partial(t, batches, current + [symbol], read + [symbol])
  {
    var before, after := batches + [current], batches + [current + [symbol]];
    FlattenAppends(batches, current);
    FlattenAppends(batches, current + [symbol]);
    forall i, j | 0 <= i < j < |after| && j == i + 1 ensures Full(t, after[i], after[j]) {
      assert Full(t, before[i], before[j]);
    }
    forall b | b in after ensures b != [] && (|b| > 1 ==> Fits(t, b)) {
      assert b == current + [symbol] || b in before;
    }
  }

  // ---- optimality ----

  function Weight(batch: seq<string>): nat {
    if batch == [] then 0 else Weight(batch[..|batch| - 1]) + |batch[|batch| - 1]| + 1
  }

  lemma {:induction false} JoinLength(batch: seq<string>)
    requires batch != []
    ensures |Join(batch)| + 1 == Weight(batch)
  {
    if |batch| > 1 {
      JoinLength(batch[..|batch| - 1]);
    } else {
      assert batch[..0] == [];
    }
  }

  lemma {:induction false} WeightSplits(a: seq<string>, b: seq<string>)
    ensures Weight(a + b) == Weight(a) + Weight(b)
  {
    if b == [] {
      assert a + b == a;
    } else {
      assert (a + b)[..|a + b| - 1] == a + b[..|b| - 1];
      WeightSplits(a, b[..|b| - 1]);
    }
  }

  /** A contiguous part of a batch that fits also fits. */
  lemma PartFits(t: Template, whole: seq<string>, from: nat, to: nat)
    requires from < to <= |whole| && Fits(t, whole)
    ensures Fits(t, whole[from..to])
  {
    assert whole == whole[..from] + (whole[from..to] + whole[to..]);
    WeightSplits(whole[..from], whole[from..to] + whole[to..]);
    WeightSplits(whole[from..to], whole[to..]);
    JoinLength(whole);
    JoinLength(whole[from..to]);
  }

  /** The characters of some symbols, without separators. */
  function Characters(batch: seq<string>): nat {
    if batch == [] then 0 else |batch[0]| + Characters(batch[1..])
  }

  lemma {:induction false} WeightIsCharacters(batch: seq<string>)
    ensures Weight(batch) == Characters(batch) + |batch|
  {
    if batch != [] {
      WeightIsCharacters(batch[1..]);
      assert batch == [batch[0]] + batch[1..];
      WeightSplits([batch[0]], batch[1..]);
      assert [batch[0]][..0] == [];
    }
  }

  /** A batch fits when the template, its symbols and a comma between each two have 1800 characters at most. */
  lemma FitsMeans(t: Template, batch: seq<string>)
    requires batch != []
    ensures Fits(t, batch) <==> |t.prefix| + Characters(batch) + (|batch| - 1) + |t.suffix| <= 1800
  {
    JoinLength(batch);
    WeightIsCharacters(batch);
  }

  function Covered(batches: seq<seq<string>>, j: nat): nat
    requires j <= |batches|
  {
    |Flatten(batches[..j])|
  }

  lemma {:induction false} CoverStep(batches: seq<seq<string>>, j: nat)
    requires j < |batches|
    ensures Flatten(batches[..j + 1]) == Flatten(batches[..j]) + batches[j]
    ensures Covered(batches, j + 1) == Covered(batches, j) + |batches[j]|
  {
    assert batches[..j + 1][..j] == batches[..j];
  }

  lemma {:induction false} CoverIsPrefix(batches: seq<seq<string>>, j: nat)
    requires j <= |batches|
    ensures Covered(batches, j) <= |Flatten(batches)|
    ensures Flatten(batches[..j]) == Flatten(batches)[..Covered(batches, j)]
    decreases |batches| - j
  {
    if j == |batches| {
      assert batches[..j] == batches;
    } else {
      CoverStep(batches, j);
      CoverIsPrefix(batches, j + 1);
    }
  }

  /** Batch j is the slice of the symbols between the j-th and the next cover. */
  lemma BatchIsSlice(batches: seq<seq<string>>, j: nat)
    requires j < |batches|
    ensures Covered(batches, j) <= Covered(batches, j + 1) <= |Flatten(batches)|
    ensures batches[j] == Flatten(batches)[Covered(batches, j)..Covered(batches, j + 1)]
  {
    CoverStep(batches, j);
    CoverIsPrefix(batches, j);
    CoverIsPrefix(batches, j + 1);
    var symbols, a, b := Flatten(batches), Covered(batches, j), Covered(batches, j + 1);
    assert symbols[..b] == symbols[..a] + batches[j];
    assert symbols[a..b] == symbols[..b][a..];
  }

  /** After any number of batches the greedy split has covered at least as much as any other. */
  lemma {:induction false} GreedyStaysAhead(t: Template, symbols: seq<string>, greedy: seq<seq<string>>,
                                            other: seq<seq<string>>, j: nat)
    requires Splits(t, greedy, symbols) && Maximal(t, greedy) && Splits(t, other, symbols)
    requires j < |greedy| && j <= |other|
    ensures Covered(other, j) <= Covered(greedy, j)
  {
    if j > 0 {
      var i := j - 1;
      GreedyStaysAhead(t, symbols, greedy, other, i);
      assert Full(t, greedy[i], greedy[j]) && greedy[i] in greedy && greedy[i] != [] && other[i] in other;
      hide Covered, Fits, Splits, Maximal;
      if Covered(other, j) > Covered(greedy, j) {
        OverrunFits(t, greedy, other, i);
      }
    }
  }

  /** If the other split's batch starts no later and ends later than the greedy one, the greedy
      batch had room for another symbol. */
  lemma OverrunFits(t: Template, greedy: seq<seq<string>>, other: seq<seq<string>>, i: nat)
    requires i + 1 < |greedy| && i < |other| && Flatten(greedy) == Flatten(other)
    requires greedy[i] != [] && greedy[i + 1] != [] && (|other[i]| > 1 ==> Fits(t, other[i]))
    requires Covered(other, i) <= Covered(greedy, i) && Covered(other, i + 1) > Covered(greedy, i + 1)
    ensures Fits(t, greedy[i] + [greedy[i + 1][0]])
  {
    hide *;
    var symbols := Flatten(greedy);
    var a, b, c, d := Covered(other, i), Covered(other, i + 1), Covered(greedy, i), Covered(greedy, i + 1);
    SlicesAt(greedy, i);
    NextStarts(greedy, i);
    SlicesAt(other, i);
    LongerFits(t, symbols, a, b, c, d, other[i], greedy[i], greedy[i + 1][0]);
  }

  lemma LongerFits(t: Template, symbols: seq<string>, a: nat, b: nat, c: nat, d: nat,
                   longer: seq<string>, batch: seq<string>, next: string)
    requires a <= c < d < b <= |symbols| && longer == symbols[a..b] && batch == symbols[c..d] && next == symbols[d]
    requires |longer| > 1 ==> Fits(t, longer)
    ensures Fits(t, batch + [next])
  {
    hide *;
    SliceOfSlice(symbols, a, b, c, d, next);
    PartFits(t, longer, c - a, d + 1 - a);
  }

  lemma SlicesAt(batches: seq<seq<string>>, i: nat)
    requires i < |batches|
    ensures Covered(batches, i + 1) == Covered(batches, i) + |batches[i]| && Covered(batches, i + 1) <= |Flatten(batches)|
    ensures batches[i] == Flatten(batches)[Covered(batches, i)..Covered(batches, i + 1)]
  {
    hide Covered, Flatten;
    CoverStep(batches, i);
    BatchIsSlice(batches, i);
  }

  lemma NextStarts(batches: seq<seq<string>>, i: nat)
    requires i + 1 < |batches| && batches[i + 1] != []
    ensures Covered(batches, i + 1) < |Flatten(batches)| && batches[i + 1][0] == Flatten(batches)[Covered(batches, i + 1)]
  {
    hide Covered, Flatten;
    SlicesAt(batches, i + 1);
  }

  lemma SliceOfSlice(symbols: seq<string>, a: nat, b: nat, c: nat, d: nat, next: string)
    requires a <= c <= d < b <= |symbols| && next == symbols[d]
    ensures symbols[c..d] + [next] == symbols[a..b][c - a..d + 1 - a]
  {
    assert symbols[c..d] + [next] == symbols[c..d + 1];
    var slice := symbols[a..b];
    forall k | c <= k < d + 1 ensures slice[k - a] == symbols[k] {}
    var part, direct := slice[c - a..d + 1 - a], symbols[c..d + 1];
    forall k | 0 <= k < |part| ensures part[k] == direct[k] {
      assert part[k] == slice[c - a + k];
    }
    assert part == direct;
  }

  /** No split with fitting batches has fewer of them than the greedy one. */
  lemma GreedyIsOptimal(t: Template, symbols: seq<string>, greedy: seq<seq<string>>, other: seq<seq<string>>)
    requires Splits(t, greedy, symbols) && Maximal(t, greedy) && Splits(t, other, symbols)
    ensures |greedy| <= |other|
  {
    if |other| < |greedy| {
      var j := |other|;
      assert greedy[j] in greedy && greedy[j] != [];
      assert other[..j] == other;
      CoverStep(greedy, j);
      CoverIsPrefix(greedy, j + 1);
      GreedyStaysAhead(t, symbols, greedy, other, j);
    }
  }
}
