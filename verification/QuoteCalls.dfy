/** What one call of `fetch` does, in terms of the symbols it is called with. */
module QuoteCalls {
  import opened Wrappers
  import opened QuoteFetch
  import opened QuoteCache

  /** The symbols asked for, each once, in the order of their first occurrence: what has been asked for up to any point
      is what some beginning of the key holds. */
  ghost predicate KeyOf(key: Key, symbols: seq<string>) {
    && (forall i, j | 0 <= i < j < |key| :: key[i] != key[j])
    && (forall s :: s in key <==> s in symbols)
    && (forall k | 0 <= k <= |symbols| :: Begins(key, symbols[..k]))
  }

  ghost predicate Begins(key: Key, asked: seq<string>) {
    exists m :: 0 <= m <= |key| && SameMembers(key[..m], asked)
  }

  ghost predicate SameMembers(a: seq<string>, b: seq<string>) {
    forall s :: s in a <==> s in b
  }

  lemma {:induction false} DedupGrows(symbols: seq<string>, k: nat)
    requires k <= |symbols|
    ensures |Dedup(symbols[..k])| <= |Dedup(symbols)| && Dedup(symbols)[..|Dedup(symbols[..k])|] == Dedup(symbols[..k])
    decreases |symbols| - k
  {
    if k == |symbols| {
      assert symbols[..k] == symbols;
    } else {
      DedupGrows(symbols, k + 1);
      assert symbols[..k + 1][..k] == symbols[..k];
      var shorter, longer := Dedup(symbols[..k]), Dedup(symbols[..k + 1]);
      assert longer[..|shorter|] == shorter;
      assert Dedup(symbols)[..|shorter|] == Dedup(symbols)[..|longer|][..|shorter|];
    }
  }

  /** A call's key is that of its symbols. */
  lemma DedupIsKeyOf(symbols: seq<string>)
    ensures KeyOf(Dedup(symbols), symbols)
  {
    var key := Dedup(symbols);
    DedupKeepsOneEach(symbols);
    forall k | 0 <= k <= |symbols| ensures Begins(key, symbols[..k]) {
      DedupGrows(symbols, k);
      DedupKeepsOneEach(symbols[..k]);
      assert SameMembers(key[..|Dedup(symbols[..k])|], symbols[..k]);
    }
  }

  /** No other key is. */
  lemma {:induction false} KeyIsDedup(key: Key, symbols: seq<string>)
    requires KeyOf(key, symbols)
    ensures key == Dedup(symbols)
  {
    if symbols == [] {
      HasMember(key);
    } else {
      var n := |symbols| - 1;
      var before, last := symbols[..n], symbols[n];
      assert symbols == before + [last];
      if last in before {
        forall k | 0 <= k <= n ensures Begins(key, before[..k]) {
          assert before[..k] == symbols[..k];
        }
        assert KeyOf(key, before);
        KeyIsDedup(key, before);
      } else {
        var m := LastIsApart(key, symbols);
        KeyIsDedup(key[..m], before);
        assert key == key[..m] + [last];
      }
    }
  }

  lemma HasMember(key: Key)
    ensures key == [] || exists s :: s in key
  {
    if key != [] {
      assert key[0] in key;
    }
  }

  lemma HoldsItsOwn(key: Key, l: nat)
    requires l <= |key|
    ensures forall i | 0 <= i < l :: key[i] in key[..l]
  {
    forall i | 0 <= i < l ensures key[i] in key[..l] {
      assert key[..l][i] == key[i];
    }
  }

  lemma DistinctDiffer(key: Key, m: nat, s: string)
    requires forall i, j | 0 <= i < j < |key| :: key[i] != key[j]
    ensures m + 1 < |key| ==> exists i :: m <= i < |key| && key[i] != s
  {
    if m + 1 < |key| {
      assert key[m] != key[m + 1];
    }
  }

  /** A symbol that is asked for last, and not before, ends the key. */
  lemma LastIsApart(key: Key, symbols: seq<string>) returns (m: nat)
    requires KeyOf(key, symbols) && symbols != [] && symbols[|symbols| - 1] !in symbols[..|symbols| - 1]
    ensures |key| == m + 1 && key[m] == symbols[|symbols| - 1] && KeyOf(key[..m], symbols[..|symbols| - 1])
  {
    var n := |symbols| - 1;
    var before, last := symbols[..n], symbols[n];
    assert symbols == before + [last];
    assert Begins(key, symbols[..n]);
    m :| 0 <= m <= |key| && SameMembers(key[..m], symbols[..n]);
    assert last in key && last !in key[..m];
    forall i | m <= i < |key| ensures key[i] == last {
      assert key[i] in symbols;
      assert forall j | 0 <= j < m :: key[..m][j] == key[j];
      assert key[i] !in key[..m];
    }
    DistinctDiffer(key, m, last);
    assert key == key[..m] + key[m..];
    forall k | 0 <= k <= n ensures Begins(key[..m], before[..k]) {
      assert Begins(key, symbols[..k]);
      var l :| 0 <= l <= |key| && SameMembers(key[..l], symbols[..k]);
      HoldsItsOwn(key, l);
      assert last !in symbols[..k] by {
        assert forall j | 0 <= j < k :: symbols[..k][j] == before[j];
      }
      assert l <= m;
      assert key[..m][..l] == key[..l] && before[..k] == symbols[..k];
      assert SameMembers(key[..m][..l], before[..k]);
    }
  }

  /** A call without symbols is answered with nothing and starts nothing. Any other adds one call for the key of its symbols:
      answered by the cache entry of that key while it is fresh, else waiting on the task of that key under way,
      else on a new one, which is the only thing it starts. */
  lemma FetchEffect(w: World, symbols: seq<string>)
    ensures var w' := Step(w, Event.Fetch(symbols));
      && (symbols == [] ==> w' == w.(calls := w.calls + [NoSymbols]))
      && (symbols != [] ==> exists key :: KeyOf(key, symbols) && Answers(w, w', key))
  {
    if symbols != [] {
      DedupIsKeyOf(symbols);
      hide KeyOf;
      var key := Dedup(symbols);
      assert Answers(w, Step(w, Event.Fetch(symbols)), key);
    }
  }

  predicate Answers(w: World, w': World, key: Key) {
    if key in w.cache && w.now < w.cache[key].at + w.ttl then
      w' == w.(calls := w.calls + [FromCache(key, w.cache[key], w.now)])
    else if key in w.inflight then
      w' == w.(calls := w.calls + [Waiting(key, w.inflight[key])])
    else
      var started := Task(key, w.now, None, w.now, false);
      w' == w.(calls := w.calls + [Waiting(key, |w.tasks|)], tasks := w.tasks + [started], inflight := w.inflight[key := |w.tasks|])
  }

  /** The call made at step n: what it was made for, and that it is answered for nothing else. */
  lemma {:induction false} CallKeepsSymbols(trace: seq<World>, n: nat, m: nat, symbols: seq<string>)
    requires Reachable(trace) && n < m < |trace| && symbols != []
    requires trace[n + 1] == Step(trace[n], Event.Fetch(symbols))
    ensures var c := |trace[n].calls|;
      c < |trace[m].calls| && (trace[m].calls[c].Cancelled? || (!trace[m].calls[c].NoSymbols? && KeyOf(trace[m].calls[c].key, symbols)))
  {
    hide KeyOf, Step, Next;
    var c := |trace[n].calls|;
    if m == n + 1 {
      FetchEffect(trace[n], symbols);
    } else {
      CallKeepsSymbols(trace, n, m - 1, symbols);
      assert Next(trace[m - 1], trace[m]);
      StepKeepsKey(trace[m - 1], trace[m], c, symbols);
    }
  }

  lemma StepKeepsKey(w: World, w': World, c: nat, symbols: seq<string>)
    requires Next(w, w') && c < |w.calls|
    requires w.calls[c].Cancelled? || (!w.calls[c].NoSymbols? && KeyOf(w.calls[c].key, symbols))
    ensures c < |w'.calls| && (w'.calls[c].Cancelled? || (!w'.calls[c].NoSymbols? && KeyOf(w'.calls[c].key, symbols)))
  {
    var e :| Enabled(w, e) && w' == Step(w, e);
    hide Step, Enabled, KeyOf;
    CallsAreStable(w, e, c);
    if !w.calls[c].Cancelled? {
      KindIsStable(w, e, c);
    }
  }

  lemma KindIsStable(w: World, e: Event, c: nat)
    requires Enabled(w, e) && c < |w.calls| && !w.calls[c].NoSymbols? && !w.calls[c].Cancelled?
    ensures c < |Step(w, e).calls| && !Step(w, e).calls[c].NoSymbols?
  {
  }

  /** A caller that asked for symbols is answered, if it is, by a delivery for the key of exactly these symbols that is
      younger than the TTL, or by the outcome of a task for that key. */
  lemma AnswersAreForSymbols(trace: seq<World>, n: nat, m: nat, symbols: seq<string>)
    requires Reachable(trace) && n < m < |trace| && symbols != []
    requires trace[n + 1] == Step(trace[n], Event.Fetch(symbols))
    ensures |trace[n].calls| < |trace[m].calls|
    ensures var w, call := trace[m], trace[m].calls[|trace[n].calls|];
      && !call.NoSymbols?
      && (call.FromCache? ==>
            && KeyOf(call.key, symbols) && call.entry.at <= call.answeredAt < call.entry.at + w.ttl
            && exists i :: DeliveredBy(w, call.key, call.entry, i))
      && (call.FromTask? ==>
            KeyOf(call.key, symbols) && call.task < |w.tasks| && w.tasks[call.task].key == call.key
            && w.tasks[call.task].outcome == Some(call.outcome))
  {
    hide KeyOf;
    CallKeepsSymbols(trace, n, m, symbols);
    AnswersAreGenuine(trace, m, |trace[n].calls|);
  }

  // ---- the other steps ----

  /** A waiting call that resumes has the outcome of its task; one that is cancelled has none; nothing else changes. */
  lemma ResumeEffect(w: World, c: nat)
    ensures Enabled(w, Resume(c)) ==>
      var waiting := w.calls[c];
      Step(w, Resume(c)) == w.(calls := w.calls[c := FromTask(waiting.key, waiting.task, w.tasks[waiting.task].outcome.value)])
    ensures Enabled(w, Cancel(c)) ==> Step(w, Cancel(c)) == w.(calls := w.calls[c := Cancelled])
    ensures Enabled(w, Resume(c)) <==>
      && c < |w.calls| && w.calls[c].Waiting? && w.calls[c].task < |w.tasks| && w.tasks[w.calls[c].task].outcome != None
  {
  }

  /** A task that ends has its outcome at the present moment; its quotes, if it delivers some, are the entry of its key from then on. */
  lemma FinishEffect(w: World, task: nat, outcome: Outcome)
    requires Enabled(w, Event.Finish(task, outcome))
    ensures var w', key := Step(w, Event.Finish(task, outcome)), w.tasks[task].key;
      && w'.tasks == w.tasks[task := w.tasks[task].(outcome := Some(outcome), finishedAt := w.now)]
      && w'.cache == (if outcome == Errored then w.cache else w.cache[key := Entry(w.now, outcome.quotes)])
      && w'.inflight == w.inflight && w'.calls == w.calls && w'.now == w.now
  {
  }

  /** A call that waits for a finished task can always resume, and then is answered for good. */
  lemma {:induction false} ResumedIsAnswered(trace: seq<World>, n: nat, m: nat, c: nat)
    requires Reachable(trace) && n < m < |trace| && Enabled(trace[n], Resume(c)) && trace[n + 1] == Step(trace[n], Resume(c))
    ensures c < |trace[m].calls| && trace[m].calls[c].FromTask?
    ensures trace[m].calls[c].key == trace[n].calls[c].key
    ensures Some(trace[m].calls[c].outcome) == trace[n].tasks[trace[n].calls[c].task].outcome
  {
    hide Step, Next, Enabled;
    ResumeEffect(trace[n], c);
    if m > n + 1 {
      ResumedIsAnswered(trace, n, m - 1, c);
      assert Next(trace[m - 1], trace[m]);
      AnswerStays(trace[m - 1], trace[m], c);
    }
  }

  lemma AnswerStays(w: World, w': World, c: nat)
    requires Next(w, w') && c < |w.calls| && w.calls[c].FromTask?
    ensures c < |w'.calls| && w'.calls[c] == w.calls[c]
  {
    var e :| Enabled(w, e) && w' == Step(w, e);
    hide Step;
    CallsAreStable(w, e, c);
  }
}
