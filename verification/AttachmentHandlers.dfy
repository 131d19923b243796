/** The attachment handlers, each run on its own. Every run is recorded as a trace of the steps of Attachments,
    so what holds of all traces holds of the handlers. */
module AttachmentHandlers {
  import opened Wrappers
  import opened Attachments

  /** What the environment does to one request: which put fails and whether it stored its object all the
      same, whether the commit fails, and how each removal ends. */
  datatype Faults = Faults(putFailsAt: Option<nat>, stored: bool, commitFails: bool, removals: nat -> Removal)

  predicate Within(from: Key, k: Key, to: Key) {
    from <= k < to
  }

  function Span(from: Key, to: Key): set<Key> {
    set k | from <= k < to && Within(from, k, to)
  }

  ghost predicate Cleans(faults: Faults) {
    !faults.stored && forall i: nat :: faults.removals(i).Gone?
  }

  predicate PutsAll(faults: Faults, files: nat) {
    !(faults.putFailsAt.Some? && faults.putFailsAt.value < files)
  }

  /** Does a removal take its object, reported or not? */
  predicate Takes(outcome: Removal) {
    match outcome
    case Gone => true
    case Swallowed(gone) => gone
    case Escaped(gone) => gone
  }

  /** Is the i-th removal tried? It is unless an error of an earlier one was not swallowed. */
  ghost predicate Reached(outcomes: nat -> Removal, i: nat) {
    forall j: nat | j < i :: !outcomes(j).Escaped?
  }

  /** What the first n removals take. */
  ghost function Taken(keys: seq<Key>, outcomes: nat -> Removal, n: nat): set<Key>
    requires n <= |keys|
  {
    if n == 0 then {} else
    Taken(keys, outcomes, n - 1) + if Reached(outcomes, n - 1) && Takes(outcomes(n - 1)) then {keys[n - 1]} else {}
  }

  lemma {:induction false} TakenIsOfKeys(keys: seq<Key>, outcomes: nat -> Removal, n: nat)
    requires n <= |keys|
    ensures Taken(keys, outcomes, n) <= Elements(keys)
    ensures (forall i: nat :: outcomes(i).Gone?) ==> Taken(keys, outcomes, n) == Elements(keys[..n])
    ensures keys[..|keys|] == keys
  {
    if n > 0 {
      TakenIsOfKeys(keys, outcomes, n - 1);
      assert keys[..n] == keys[..n - 1] + [keys[n - 1]];
    }
  }

  /** An error that is not swallowed ends the removals. */
  lemma NothingMoreTaken(keys: seq<Key>, outcomes: nat -> Removal, i: nat)
    requires i < |keys| && outcomes(i).Escaped?
    ensures Taken(keys, outcomes, |keys|) == Taken(keys, outcomes, i + 1)
  {
    NothingTakenAfter(keys, outcomes, i, |keys|);
  }

  lemma {:induction false} NothingTakenAfter(keys: seq<Key>, outcomes: nat -> Removal, i: nat, n: nat)
    requires i < n <= |keys| && outcomes(i).Escaped?
    ensures Taken(keys, outcomes, n) == Taken(keys, outcomes, i + 1)
  {
    if n > i + 1 {
      NothingTakenAfter(keys, outcomes, i, n - 1);
      assert !Reached(outcomes, n - 1);
    }
  }

  /** The only request of a handler that runs alone. */
  const SELF: nat := 0

  class Stores {
    var memos: set<nat>
    var rows: map<Key, Owner>
    var bucket: set<Key>
    var nextKey: Key
    var nextMemo: nat
    ghost var log: seq<World>

    /** The log is a trace of steps that ends in the present stores, with the given requests running. */
    ghost predicate At(requests: map<nat, Request>)
      reads this
    {
      Reachable(log) && log[|log| - 1] == World(memos, rows, bucket, requests, nextKey, nextMemo)
    }

    ghost predicate Valid()
      reads this
    {
      At(map[])
    }

    constructor ()
      ensures Valid() && memos == {} && rows == map[] && bucket == {}
    {
      memos, rows, bucket, nextKey, nextMemo := {}, map[], {}, 0, 0;
      log := [EMPTY];
    }

    /** Records a step; the stores have changed, or are about to, as it says. */
    ghost method Record(e: Event)
      requires Reachable(log) && Enabled(log[|log| - 1], e) && !Misreported(log[|log| - 1], e)
      modifies `log
      ensures Reachable(log) && log == old(log) + [Step(old(log)[|old(log)| - 1], e)]
    {
      assert Next(log[|log| - 1], Step(log[|log| - 1], e));
      log := log + [Step(log[|log| - 1], e)];
    }

    /** The loop that removes objects one by one; an error the helper does not swallow ends it. */
    method RemoveObjects(keys: seq<Key>, outcomes: nat -> Removal)
      requires At(map[SELF := Removing(keys)])
      modifies `bucket, `log
      ensures Valid() && old(log) <= log
      ensures bucket <= old(bucket) && old(bucket) - Elements(keys) <= bucket
      ensures (forall i: nat :: outcomes(i).Gone?) ==> bucket == old(bucket) - Elements(keys)
      ensures bucket == old(bucket) - Taken(keys, outcomes, |keys|)
    {
      assert keys[0..] == keys;
      for i := 0 to |keys|
        invariant At(map[SELF := Removing(keys[i..])]) && old(log) <= log
        invariant Reached(outcomes, i) && bucket == old(bucket) - Taken(keys, outcomes, i)
      {
        RemovalStep(World(memos, rows, bucket, map[SELF := Removing(keys[i..])], nextKey, nextMemo), keys, i, outcomes(i));
        hide Step, Enabled, Misreported, Reachable;
        Record(Remove(SELF, outcomes(i)));
        if outcomes(i).Gone? || outcomes(i).gone {
          bucket := bucket - {keys[i]};
        }
        if outcomes(i).Escaped? {
          NothingMoreTaken(keys, outcomes, i);
          TakenIsOfKeys(keys, outcomes, |keys|);
          return;
        }
      }
      TakenIsOfKeys(keys, outcomes, |keys|);
      ReturnStep(World(memos, rows, bucket, map[SELF := Removing(keys[|keys|..])], nextKey, nextMemo));
      assert keys[..|keys|] == keys;
      hide Step, Enabled, Misreported, Reachable;
      Record(Return(SELF));
    }

    /** The loop that puts the files, with its compensation. */
    method PutFiles(owner: Owner, creating: bool, files: nat, faults: Faults) returns (ok: bool, objectKeys: seq<Key>)
      requires At(map[SELF := Uploading(owner, creating, files, [])])
      modifies `bucket, `nextKey, `log
      ensures old(log) <= log && ok == PutsAll(faults, files)
      ensures ok ==> At(map[SELF := Uploading(owner, creating, 0, objectKeys)])
      ensures ok ==> Elements(objectKeys) == Span(old(nextKey), nextKey) && nextKey == old(nextKey) + files
      ensures ok ==> bucket == old(bucket) + Span(old(nextKey), nextKey)
      ensures !ok ==> Valid() && old(bucket) <= bucket && (Cleans(faults) ==> bucket == old(bucket))
    {
      FreshKeys();
      hide Span, Within, Elements;
      SpanOfNone(nextKey);
      objectKeys := [];
      for i := 0 to files
        invariant At(map[SELF := Uploading(owner, creating, files - i, objectKeys)]) && old(log) <= log
        invariant nextKey == old(nextKey) + i && PutsAll(faults, i)
        invariant |objectKeys| == i && forall j | 0 <= j < i :: objectKeys[j] == old(nextKey) + j
        invariant bucket == old(bucket) + Span(old(nextKey), nextKey)
      {
        hide Reachable, Cleans;
        SpanGrows(old(nextKey), nextKey);
        if faults.putFailsAt == Some(i) {
          SpanOf(objectKeys, old(nextKey));
          FailPut(owner, creating, files - i, objectKeys, faults, old(bucket), old(nextKey));
          return false, objectKeys;
        }
        var objectKey := PutFile(owner, creating, files - i, objectKeys);
        objectKeys := objectKeys + [objectKey];
      }
      SpanOf(objectKeys, old(nextKey));
      ok := true;
    }

    /** One put that succeeds. */
    method PutFile(owner: Owner, creating: bool, left: nat, ghost objectKeys: seq<Key>) returns (objectKey: Key)
      requires left > 0 && At(map[SELF := Uploading(owner, creating, left, objectKeys)])
      modifies `bucket, `nextKey, `log
      ensures At(map[SELF := Uploading(owner, creating, left - 1, objectKeys + [objectKey])]) && old(log) <= log
      ensures objectKey == old(nextKey) && nextKey == old(nextKey) + 1 && bucket == old(bucket) + {objectKey}
    {
      PutSteps(World(memos, rows, bucket, map[SELF := Uploading(owner, creating, left, objectKeys)], nextKey, nextMemo),
               owner, creating, left, objectKeys, false);
      hide Step, Enabled, Misreported, Reachable;
      objectKey := nextKey;
      Record(Put(SELF));
      bucket := bucket + {objectKey};
      nextKey := nextKey + 1;
    }

    /** One that fails, and with it the upload. */
    method FailPut(ghost owner: Owner, ghost creating: bool, ghost left: nat, objectKeys: seq<Key>, faults: Faults,
                   ghost original: set<Key>, ghost from: Key)
      requires left > 0 && At(map[SELF := Uploading(owner, creating, left, objectKeys)])
      requires Elements(objectKeys) == Span(from, nextKey) && bucket == original + Span(from, nextKey)
      requires from <= nextKey && forall k <- original :: k < from
      modifies `bucket, `nextKey, `log
      ensures Valid() && old(log) <= log && original <= bucket && (Cleans(faults) ==> bucket == original)
    {
      PutSteps(World(memos, rows, bucket, map[SELF := Uploading(owner, creating, left, objectKeys)], nextKey, nextMemo),
               owner, creating, left, objectKeys, faults.stored);
      hide Step, Enabled, Misreported, Reachable, Cleans, Span, Elements;
      ghost var put := Span(from, nextKey);
      SpanGrows(from, nextKey);
      var objectKey := nextKey;
      Record(PutFails(SELF, faults.stored));
      nextKey := nextKey + 1;
      if faults.stored {
        bucket := bucket + {objectKey};
      }
      ghost var before := bucket;
      RemoveObjects(objectKeys, faults.removals);
      Restored(original, before, bucket, put, objectKey, faults);
    }

    /** Every key in the bucket has been handed out. */
    lemma FreshKeys()
      requires Reachable(log) && log[|log| - 1].bucket == bucket && log[|log| - 1].nextKey == nextKey
      ensures forall k <- bucket :: k < nextKey
    {
      BucketKeysAreOld(log, |log| - 1);
    }

    /** The commit of an upload, and the compensation when it fails. */
    method CommitUpload(owner: Owner, creating: bool, objectKeys: seq<Key>, faults: Faults) returns (ok: bool)
      requires At(map[SELF := Uploading(owner, creating, 0, objectKeys)])
      requires owner.MemoRow? && !creating ==> owner.memo in memos
      modifies `bucket, `rows, `memos, `log
      ensures Valid() && old(log) <= log && ok == !faults.commitFails
      ensures ok ==> rows == old(rows) + (map k | k in objectKeys :: owner) && bucket == old(bucket)
      ensures ok ==> memos == if creating && owner.MemoRow? then old(memos) + {owner.memo} else old(memos)
      ensures !ok ==> rows == old(rows) && memos == old(memos)
      ensures !ok ==> bucket <= old(bucket) && old(bucket) - Elements(objectKeys) <= bucket
      ensures !ok && Cleans(faults) ==> bucket == old(bucket) - Elements(objectKeys)
    {
      ghost var w := World(memos, rows, bucket, map[SELF := Uploading(owner, creating, 0, objectKeys)], nextKey, nextMemo);
      CommitUploadSteps(w, owner, creating, objectKeys);
      hide Step, Enabled, Misreported, Reachable;
      if faults.commitFails {
        Record(CommitFails(SELF, false));
        RemoveObjects(objectKeys, faults.removals);
        return false;
      }
      Record(Commit(SELF));
      rows := rows + (map k | k in objectKeys :: owner);
      if creating && owner.MemoRow? {
        memos := memos + {owner.memo};
      }
      ok := true;
    }

    /** memo_upload_attachments: all rows and objects, or no row and, unless the environment
        interferes with the clean-up, no object either. */
    method UploadAttachments(memo: nat, files: nat, faults: Faults) returns (ok: bool)
      requires Valid()
      modifies `bucket, `rows, `memos, `nextKey, `log
      ensures Valid() && old(log) <= log && memos == old(memos)
      ensures ok <==> memo in memos && |KeysOf(old(rows), MemoRow(memo))| + files <= 12
                      && PutsAll(faults, files) && !faults.commitFails
      ensures ok ==> Added(old(rows), old(bucket), old(nextKey), rows, bucket, MemoRow(memo), files)
      ensures !ok ==> rows == old(rows) && old(bucket) <= bucket && (Cleans(faults) ==> bucket == old(bucket))
    {
      if memo !in memos || |KeysOf(rows, MemoRow(memo))| + files > MAX_MEMO_ATTACHMENTS {
        return false;
      }
      FreshKeys();
      UploadStarts(World(memos, rows, bucket, map[], nextKey, nextMemo), memo, files);
      hide Step, Enabled, Misreported, Reachable, Cleans, PutsAll;
      Record(UploadToMemo(SELF, memo, files));
      var done, objectKeys := PutFiles(MemoRow(memo), false, files, faults);
      if !done {
        return false;
      }
      ok := CommitUpload(MemoRow(memo), false, objectKeys, faults);
      UploadEnds(old(rows), old(bucket), old(nextKey), files, objectKeys, MemoRow(memo), bucket, ok, faults);
    }

    /** memo_create: the memo with all its files, or neither memo nor row. */
    method CreateMemo(files: nat, faults: Faults) returns (ok: bool)
      requires Valid()
      modifies this
      ensures Valid() && old(log) <= log
      ensures ok <==> files <= 12 && PutsAll(faults, files) && !faults.commitFails
      ensures ok ==> memos == old(memos) + {old(nextMemo)}
      ensures ok ==> Added(old(rows), old(bucket), old(nextKey), rows, bucket, MemoRow(old(nextMemo)), files)
      ensures !ok ==> memos == old(memos) && rows == old(rows) && old(bucket) <= bucket && (Cleans(faults) ==> bucket == old(bucket))
    {
      if files > MAX_MEMO_ATTACHMENTS {
        return false;
      }
      FreshKeys();
      CreateStarts(World(memos, rows, bucket, map[], nextKey, nextMemo), files);
      hide Step, Enabled, Misreported, Reachable, Cleans, PutsAll;
      Record(Event.CreateMemo(SELF, files));
      var memo := nextMemo;
      nextMemo := nextMemo + 1;
      var done, objectKeys := PutFiles(MemoRow(memo), true, files, faults);
      if !done {
        return false;
      }
      ok := CommitUpload(MemoRow(memo), true, objectKeys, faults);
      UploadEnds(old(rows), old(bucket), old(nextKey), files, objectKeys, MemoRow(memo), bucket, ok, faults);
    }

    /** attachment_create: one file for a trade that has fewer than ten. */
    method CreateAttachment(trade: nat, faults: Faults) returns (ok: bool)
      requires Valid()
      modifies `bucket, `rows, `memos, `nextKey, `log
      ensures Valid() && old(log) <= log && memos == old(memos)
      ensures ok <==> |KeysOf(old(rows), TradeRow(trade))| < 10 && PutsAll(faults, 1) && !faults.commitFails
      ensures ok ==> Added(old(rows), old(bucket), old(nextKey), rows, bucket, TradeRow(trade), 1)
      ensures !ok ==> rows == old(rows) && old(bucket) <= bucket && (Cleans(faults) ==> bucket == old(bucket))
    {
      if |KeysOf(rows, TradeRow(trade))| >= MAX_TRADE_ATTACHMENTS {
        return false;
      }
      FreshKeys();
      AttachmentStarts(World(memos, rows, bucket, map[], nextKey, nextMemo), trade);
      hide Step, Enabled, Misreported, Reachable, Cleans, PutsAll;
      Record(UploadToTrade(SELF, trade));
      var done, objectKeys := PutFiles(TradeRow(trade), false, 1, faults);
      if !done {
        return false;
      }
      ok := CommitUpload(TradeRow(trade), false, objectKeys, faults);
      UploadEnds(old(rows), old(bucket), old(nextKey), 1, objectKeys, TradeRow(trade), bucket, ok, faults);
    }

    /** memo_delete: the rows go first, in one commit, and then their objects. */
    method DeleteMemo(memo: nat, loaded: seq<Key>, faults: Faults) returns (ok: bool)
      requires Valid() && Elements(loaded) == KeysOf(rows, MemoRow(memo))
      modifies `bucket, `rows, `memos, `log
      ensures Valid() && old(log) <= log
      ensures ok <==> memo in old(memos) && !faults.commitFails
      ensures !ok ==> rows == old(rows) && bucket == old(bucket) && memos == old(memos)
      ensures ok ==> rows == old(rows) - Elements(loaded) && memos == old(memos) - {memo}
      ensures ok ==> bucket <= old(bucket) && old(bucket) - Elements(loaded) <= bucket
      ensures ok && Cleans(faults) ==> bucket == old(bucket) - Elements(loaded)
    {
      if memo !in memos {
        return false;
      }
      DeleteMemoSteps(World(memos, rows, bucket, map[], nextKey, nextMemo), memo, loaded);
      hide Step, Enabled, Misreported, Reachable;
      Record(Event.DeleteMemo(SELF, memo, loaded));
      if faults.commitFails {
        Record(CommitFails(SELF, false));
        return false;
      }
      Record(Commit(SELF));
      rows, memos := rows - KeysOf(rows, MemoRow(memo)), memos - {memo};
      RemoveObjects(loaded, faults.removals);
      ok := true;
    }

    /** attachment_delete. */
    method DeleteAttachment(key: Key, faults: Faults) returns (ok: bool)
      requires Valid()
      modifies `bucket, `rows, `log
      ensures Valid() && old(log) <= log
      ensures ok <==> key in old(rows) && old(rows)[key].TradeRow? && !faults.commitFails
      ensures !ok ==> rows == old(rows) && bucket == old(bucket)
      ensures ok ==> rows == old(rows) - {key} && bucket <= old(bucket) && old(bucket) - {key} <= bucket
      ensures ok && Cleans(faults) ==> bucket == old(bucket) - {key}
    {
      if !(key in rows && rows[key].TradeRow?) {
        return false;
      }
      DeleteAttachmentSteps(World(memos, rows, bucket, map[], nextKey, nextMemo), key);
      hide Step, Enabled, Misreported, Reachable;
      Record(Event.DeleteAttachment(SELF, key));
      if faults.commitFails {
        Record(CommitFails(SELF, false));
        return false;
      }
      Record(Commit(SELF));
      rows := rows - {key};
      RemoveObjects([key], faults.removals);
      ok := true;
    }
  }

  /** Exactly `files` new keys, with their rows and objects. */
  ghost predicate Added(rows: map<Key, Owner>, bucket: set<Key>, nextKey: Key,
                        rows': map<Key, Owner>, bucket': set<Key>, owner: Owner, files: nat) {
    var added := Span(nextKey, nextKey + files);
    rows' == rows + (map k | k in added :: owner) && bucket' == bucket + added && bucket !! added
  }

  lemma BucketKeysAreOld(trace: seq<World>, n: nat)
    requires Reachable(trace) && n < |trace|
    ensures forall k <- trace[n].bucket :: k < trace[n].nextKey
  {
    ReachableInv(trace, n);
    forall k | k in trace[n].bucket ensures k < trace[n].nextKey {
      assert KeyInv(trace[n], k);
    }
  }

  lemma SpanOf(keys: seq<Key>, from: Key)
    requires forall j | 0 <= j < |keys| :: keys[j] == from + j
    ensures Elements(keys) == Span(from, from + |keys|)
  {
    forall k | k in Span(from, from + |keys|) ensures k in keys {
      assert keys[k - from] == k;
    }
  }

  lemma SpanOfNone(from: Key)
    ensures Span(from, from) == {}
  {
  }

  lemma SpanGrows(from: Key, to: Key)
    requires from <= to
    ensures Span(from, to + 1) == Span(from, to) + {to}
    ensures forall k <- Span(from, to) :: from <= k < to
  {
  }

  /** What is left of the bucket when a put has failed and the objects put before it were removed. */
  lemma Restored(original: set<Key>, before: set<Key>, after: set<Key>, put: set<Key>, failed: Key, faults: Faults)
    requires forall k <- original :: k !in put && k != failed
    requires before == original + put + (if faults.stored then {failed} else {})
    requires before - put <= after && (forall i: nat :: faults.removals(i).Gone?) ==> after == before - put
    requires before - put <= after
    ensures original <= after && (Cleans(faults) ==> after == original)
  {
  }

  lemma UploadEnds(rows: map<Key, Owner>, bucket: set<Key>, from: Key, files: nat, keys: seq<Key>, owner: Owner,
                   after: set<Key>, ok: bool, faults: Faults)
    requires Elements(keys) == Span(from, from + files) && forall k <- bucket :: k < from
    requires ok ==> after == bucket + Span(from, from + files)
    requires !ok ==> bucket + Span(from, from + files) - Elements(keys) <= after
    requires !ok && Cleans(faults) ==> after == bucket + Span(from, from + files) - Elements(keys)
    ensures ok ==> Added(rows, bucket, from, rows + (map k | k in keys :: owner), after, owner, files)
    ensures !ok ==> bucket <= after && (Cleans(faults) ==> after == bucket)
  {
    assert forall k :: k in keys <==> k in Elements(keys);
  }

  // ---- the steps the handlers take ----

  lemma RemovalStep(w: World, keys: seq<Key>, i: nat, outcome: Removal)
    requires i < |keys| && w.requests == map[SELF := Removing(keys[i..])]
    ensures Enabled(w, Remove(SELF, outcome)) && !Misreported(w, Remove(SELF, outcome))
    ensures Step(w, Remove(SELF, outcome)) ==
      w.(bucket := if outcome.Gone? || outcome.gone then w.bucket - {keys[i]} else w.bucket,
         requests := if outcome.Escaped? then map[] else map[SELF := Removing(keys[i + 1..])])
    ensures Elements(keys[..i + 1]) == Elements(keys[..i]) + {keys[i]}
    ensures Elements(keys[..i + 1]) <= Elements(keys)
  {
    assert keys[i..][0] == keys[i] && keys[i..][1..] == keys[i + 1..];
    assert keys[..i + 1] == keys[..i] + [keys[i]];
    assert w.requests - {SELF} == map[];
  }

  lemma ReturnStep(w: World)
    requires w.requests == map[SELF := Removing([])]
    ensures Enabled(w, Return(SELF)) && !Misreported(w, Return(SELF))
    ensures Step(w, Return(SELF)) == w.(requests := map[])
  {
  }

  lemma PutSteps(w: World, owner: Owner, creating: bool, left: nat, put: seq<Key>, stored: bool)
    requires left > 0 && w.requests == map[SELF := Uploading(owner, creating, left, put)]
    ensures Enabled(w, Put(SELF)) && !Misreported(w, Put(SELF))
    ensures Step(w, Put(SELF)) ==
      w.(bucket := w.bucket + {w.nextKey}, nextKey := w.nextKey + 1,
         requests := map[SELF := Uploading(owner, creating, left - 1, put + [w.nextKey])])
    ensures Enabled(w, PutFails(SELF, stored)) && !Misreported(w, PutFails(SELF, stored))
    ensures Step(w, PutFails(SELF, stored)) ==
      w.(bucket := if stored then w.bucket + {w.nextKey} else w.bucket, nextKey := w.nextKey + 1,
         requests := map[SELF := Removing(put)])
  {
  }

  lemma CommitUploadSteps(w: World, owner: Owner, creating: bool, put: seq<Key>)
    requires w.requests == map[SELF := Uploading(owner, creating, 0, put)]
    requires owner.MemoRow? && !creating ==> owner.memo in w.memos
    ensures Enabled(w, Commit(SELF)) && !Misreported(w, Commit(SELF))
    ensures Step(w, Commit(SELF)) ==
      w.(rows := w.rows + (map k | k in put :: owner), requests := map[],
         memos := if creating && owner.MemoRow? then w.memos + {owner.memo} else w.memos)
    ensures Enabled(w, CommitFails(SELF, false)) && !Misreported(w, CommitFails(SELF, false))
    ensures Step(w, CommitFails(SELF, false)) == w.(requests := map[SELF := Removing(put)])
  {
    assert w.requests - {SELF} == map[];
  }

  lemma UploadStarts(w: World, memo: nat, files: nat)
    requires w.requests == map[] && memo in w.memos && |KeysOf(w.rows, MemoRow(memo))| + files <= MAX_MEMO_ATTACHMENTS
    ensures Enabled(w, UploadToMemo(SELF, memo, files)) && !Misreported(w, UploadToMemo(SELF, memo, files))
    ensures Step(w, UploadToMemo(SELF, memo, files)) == w.(requests := map[SELF := Uploading(MemoRow(memo), false, files, [])])
  {
  }

  lemma CreateStarts(w: World, files: nat)
    requires w.requests == map[] && files <= MAX_MEMO_ATTACHMENTS
    ensures Enabled(w, CreateMemo(SELF, files)) && !Misreported(w, CreateMemo(SELF, files))
    ensures Step(w, CreateMemo(SELF, files)) ==
      w.(requests := map[SELF := Uploading(MemoRow(w.nextMemo), true, files, [])], nextMemo := w.nextMemo + 1)
  {
  }

  lemma AttachmentStarts(w: World, trade: nat)
    requires w.requests == map[] && |KeysOf(w.rows, TradeRow(trade))| < MAX_TRADE_ATTACHMENTS
    ensures Enabled(w, UploadToTrade(SELF, trade)) && !Misreported(w, UploadToTrade(SELF, trade))
    ensures Step(w, UploadToTrade(SELF, trade)) == w.(requests := map[SELF := Uploading(TradeRow(trade), false, 1, [])])
  {
  }

  /** Reading, and committing or failing to commit, a delete. */
  lemma DeleteSteps(w: World, target: Target, keys: seq<Key>)
    requires w.requests == map[SELF := Deleting(target)]
    requires if target.WholeMemo? then keys == target.loaded else keys == [target.key]
    ensures Enabled(w, Commit(SELF)) && !Misreported(w, Commit(SELF))
    ensures Step(w, Commit(SELF)) ==
      w.(rows := w.rows - Doomed(w, target), requests := map[SELF := Removing(keys)],
         memos := if target.WholeMemo? then w.memos - {target.memo} else w.memos)
    ensures Enabled(w, CommitFails(SELF, false)) && !Misreported(w, CommitFails(SELF, false))
    ensures Step(w, CommitFails(SELF, false)) == w.(requests := map[])
  {
    assert w.requests - {SELF} == map[];
  }

  lemma DeleteMemoSteps(w: World, memo: nat, loaded: seq<Key>)
    requires w.requests == map[] && memo in w.memos && Elements(loaded) == KeysOf(w.rows, MemoRow(memo))
    ensures var e, w' := DeleteMemo(SELF, memo, loaded), w.(requests := map[SELF := Deleting(WholeMemo(memo, loaded))]);
      && Enabled(w, e) && !Misreported(w, e) && Step(w, e) == w'
      && Enabled(w', Commit(SELF)) && !Misreported(w', Commit(SELF))
      && Step(w', Commit(SELF)) == w.(rows := w.rows - KeysOf(w.rows, MemoRow(memo)), memos := w.memos - {memo},
                                      requests := map[SELF := Removing(loaded)])
      && Enabled(w', CommitFails(SELF, false)) && !Misreported(w', CommitFails(SELF, false))
      && Step(w', CommitFails(SELF, false)) == w
  {
    var w' := w.(requests := map[SELF := Deleting(WholeMemo(memo, loaded))]);
    DeleteSteps(w', WholeMemo(memo, loaded), loaded);
    assert Step(w, DeleteMemo(SELF, memo, loaded)) == w';
  }

  lemma DeleteAttachmentSteps(w: World, key: Key)
    requires w.requests == map[] && key in w.rows && w.rows[key].TradeRow?
    ensures var e, w' := DeleteAttachment(SELF, key), w.(requests := map[SELF := Deleting(OneAttachment(key))]);
      && Enabled(w, e) && !Misreported(w, e) && Step(w, e) == w'
      && Enabled(w', Commit(SELF)) && !Misreported(w', Commit(SELF))
      && Step(w', Commit(SELF)) == w.(rows := w.rows - {key}, requests := map[SELF := Removing([key])])
      && Enabled(w', CommitFails(SELF, false)) && !Misreported(w', CommitFails(SELF, false))
      && Step(w', CommitFails(SELF, false)) == w
  {
    var w' := w.(requests := map[SELF := Deleting(OneAttachment(key))]);
    DeleteSteps(w', OneAttachment(key), [key]);
    assert Doomed(w', OneAttachment(key)) == {key};
    assert Step(w, DeleteAttachment(SELF, key)) == w';
  }
}
