/** Objects that no row refers to and no request will remove: which steps leave one behind, and that it stays. */
module Orphans {
  import opened Attachments

  ghost predicate Orphan(w: World, k: Key) {
    k in w.bucket && k !in w.rows && forall id <- w.requests :: k !in Mentions(w.requests[id])
  }

  /** Does no other request have the key in hand? */
  predicate Alone(w: World, id: nat, k: Key) {
    forall other <- w.requests :: other != id ==> k !in Mentions(w.requests[other])
  }

  /** Is the object in the bucket without a row, and in no hands but this request's? */
  predicate Last(w: World, id: nat, k: Key) {
    k in w.bucket && k !in w.rows && Alone(w, id, k)
  }

  /** The steps that leave nothing behind. A failed put must not have stored its object; a removal that fails, and
      a death, must not be of the last request to have in hand an object that is still there without a row; and
      a delete must not take a row whose object neither it nor any other request has in hand. */
  predicate Clean(w: World, e: Event)
    requires Enabled(w, e)
  {
    match e
    case PutFails(_, stored) => !stored
    case Remove(id, Swallowed(gone)) =>
      var keys := w.requests[id].keys;
      gone || keys[0] in keys[1..] || !Last(w, id, keys[0])
    case Remove(id, Escaped(gone)) =>
      var keys := w.requests[id].keys;
      forall k <- keys :: Last(w, id, k) ==> gone && k == keys[0]
    case Die(id) => forall k <- Mentions(w.requests[id]) :: !Last(w, id, k)
    case Commit(id) =>
      w.requests[id].Deleting? ==>
        forall k <- Doomed(w, w.requests[id].target) - Mentions(w.requests[id]) :: !Alone(w, id, k)
    case CommitFails(id, happened) =>
      w.requests[id].Deleting? ==>
        && (forall k <- Mentions(w.requests[id]) :: !Last(w, id, k))
        && (happened ==> forall k <- Doomed(w, w.requests[id].target) :: !Alone(w, id, k))
    case _ => true
  }

  /** A step creates an orphan exactly when it is not clean. */
  lemma StepLeavesOrphanIff(w: World, e: Event)
    requires Inv(w) && Enabled(w, e) && !Misreported(w, e)
    ensures (exists k :: Orphan(Step(w, e), k) && !Orphan(w, k)) <==> !Clean(w, e)
  {
    hide Inv;
    StepIsOnlyBy(w, e);
    match e
    case PutFails(id, stored) => PutFailsOrphan(w, id, stored);
    case Remove(id, outcome) => RemoveOrphan(w, id, outcome);
    case Die(id) => DieOrphan(w, id);
    case Commit(id) => CommitOrphan(w, id);
    case CommitFails(id, happened) => CommitFailsOrphan(w, id, happened);
    case _ => OtherOrphan(w, e);
  }

  /** What a step makes of a key, by what the stepping request has in hand afterwards. */
  lemma OrphanAfter(w: World, w': World, id: nat, k: Key)
    requires OnlyBy(w, w', id)
    ensures Orphan(w', k) <==>
      k in w'.bucket && k !in w'.rows && Alone(w, id, k) && (id in w'.requests ==> k !in Mentions(w'.requests[id]))
    ensures Orphan(w, k) <==> k in w.bucket && k !in w.rows && Alone(w, id, k) && (id in w.requests ==> k !in Mentions(w.requests[id]))
  {
  }

  lemma PutFailsOrphan(w: World, id: nat, stored: bool)
    requires Inv(w) && Enabled(w, PutFails(id, stored))
    ensures (exists k :: Orphan(Step(w, PutFails(id, stored)), k) && !Orphan(w, k)) <==> stored
  {
    var w' := Step(w, PutFails(id, stored));
    StepIsOnlyBy(w, PutFails(id, stored));
    assert KeyInv(w, w.nextKey) && w.nextKey !in w.bucket && w.nextKey !in w.rows;
    forall other ensures !Mentioned(w, other, w.nextKey) {
      assert Proper(w, other, w.nextKey);
    }
    forall other | other in w.requests ensures w.nextKey !in Mentions(w.requests[other]) {
      assert !Mentioned(w, other, w.nextKey);
    }
    assert Alone(w, id, w.nextKey) && !Mentioned(w, id, w.nextKey);
    forall k ensures Orphan(w', k) && !Orphan(w, k) <==> stored && k == w.nextKey {
      OrphanAfter(w, w', id, k);
    }
    assert stored ==> Orphan(w', w.nextKey) && !Orphan(w, w.nextKey);
  }

  lemma RemoveOrphan(w: World, id: nat, outcome: Removal)
    requires Enabled(w, Remove(id, outcome))
    ensures (exists k :: Orphan(Step(w, Remove(id, outcome)), k) && !Orphan(w, k)) <==> !Clean(w, Remove(id, outcome))
  {
    var w' := Step(w, Remove(id, outcome));
    var keys := w.requests[id].keys;
    StepIsOnlyBy(w, Remove(id, outcome));
    assert forall k :: k in keys <==> k == keys[0] || k in keys[1..];
    forall k ensures Orphan(w', k) && !Orphan(w, k) <==> k in keys && Last(w, id, k) && Dropped(keys, outcome, k) {
      OrphanAfter(w, w', id, k);
    }
    if Last(w, id, keys[0]) && Dropped(keys, outcome, keys[0]) {
      assert Orphan(w', keys[0]) && !Orphan(w, keys[0]);
    }
  }

  /** Which of its keys a request lets go of, the object still there. */
  predicate Dropped(keys: seq<Key>, outcome: Removal, k: Key)
    requires keys != []
  {
    match outcome
    case Gone => false
    case Swallowed(gone) => !gone && k == keys[0] && k !in keys[1..]
    case Escaped(gone) => !(gone && k == keys[0])
  }

  lemma DieOrphan(w: World, id: nat)
    requires Enabled(w, Die(id))
    ensures (exists k :: Orphan(Step(w, Die(id)), k) && !Orphan(w, k)) <==> !Clean(w, Die(id))
  {
    StepIsOnlyBy(w, Die(id));
    forall k ensures Orphan(Step(w, Die(id)), k) && !Orphan(w, k) <==> k in Mentions(w.requests[id]) && Last(w, id, k) {
      OrphanAfter(w, Step(w, Die(id)), id, k);
    }
  }

  lemma CommitOrphan(w: World, id: nat)
    requires Inv(w) && Enabled(w, Commit(id))
    ensures (exists k :: Orphan(Step(w, Commit(id)), k) && !Orphan(w, k)) <==> !Clean(w, Commit(id))
  {
    var w' := Step(w, Commit(id));
    StepIsOnlyBy(w, Commit(id));
    var r := w.requests[id];
    forall k ensures Orphan(w', k) && !Orphan(w, k) <==>
      r.Deleting? && k in Doomed(w, r.target) - Mentions(r) && Alone(w, id, k)
    {
      assert KeyInv(w, k);
      OrphanAfter(w, w', id, k);
    }
  }

  lemma CommitFailsOrphan(w: World, id: nat, happened: bool)
    requires Inv(w) && Enabled(w, CommitFails(id, happened)) && !Misreported(w, CommitFails(id, happened))
    ensures (exists k :: Orphan(Step(w, CommitFails(id, happened)), k) && !Orphan(w, k)) <==> !Clean(w, CommitFails(id, happened))
  {
    var w' := Step(w, CommitFails(id, happened));
    StepIsOnlyBy(w, CommitFails(id, happened));
    var r := w.requests[id];
    forall k ensures Orphan(w', k) && !Orphan(w, k) <==>
      r.Deleting? && ((k in Mentions(r) && Last(w, id, k)) || (happened && k in Doomed(w, r.target) && Alone(w, id, k)))
    {
      assert KeyInv(w, k);
      OrphanAfter(w, w', id, k);
    }
  }

  lemma OtherOrphan(w: World, e: Event)
    requires Inv(w) && Enabled(w, e)
    requires !e.PutFails? && !e.Remove? && !e.Die? && !e.Commit? && !e.CommitFails?
    ensures forall k :: Orphan(Step(w, e), k) ==> Orphan(w, k)
  {
    StepIsOnlyBy(w, e);
    forall k | Orphan(Step(w, e), k) ensures Orphan(w, k) {
      OrphanAfter(w, Step(w, e), e.id, k);
    }
  }

  // ---- idle systems ----

  /** With no request running the bucket holds the committed keys and the orphans, and nothing else. */
  lemma QuiescentBucket(trace: seq<World>, n: nat)
    requires Reachable(trace) && n < |trace| && trace[n].requests == map[]
    ensures forall k :: k in trace[n].bucket <==> k in trace[n].rows || Orphan(trace[n], k)
    ensures trace[n].bucket == trace[n].rows.Keys <==> forall k :: !Orphan(trace[n], k)
  {
    CommittedRowsHaveObjects(trace, n);
    var w := trace[n];
    forall k ensures Orphan(w, k) <==> k in w.bucket && k !in w.rows {
    }
  }

  /** If every step so far was clean, there are no orphans, and an idle system's bucket is exactly its committed rows. */
  lemma {:induction false} CleanHistoryLeavesNothing(trace: seq<World>, events: seq<Event>, n: nat)
    requires Reachable(trace) && n < |trace| == |events| + 1
    requires forall i | 0 <= i < |events| ::
      Enabled(trace[i], events[i]) && !Misreported(trace[i], events[i]) && Clean(trace[i], events[i])
      && trace[i + 1] == Step(trace[i], events[i])
    ensures forall k :: !Orphan(trace[n], k)
    ensures trace[n].requests == map[] ==> trace[n].bucket == trace[n].rows.Keys
  {
    hide Step, Clean, Enabled, Inv, Misreported, Orphan;
    if n > 0 {
      CleanHistoryLeavesNothing(trace, events, n - 1);
      ReachableInv(trace, n - 1);
      StepLeavesOrphanIff(trace[n - 1], events[n - 1]);
    } else {
      NothingAtFirst();
    }
    if trace[n].requests == map[] {
      QuiescentBucket(trace, n);
    }
  }

  lemma NothingAtFirst()
    ensures forall k :: !Orphan(EMPTY, k)
  {
  }

  /** Nothing ever picks an orphan up again. */
  lemma OrphanStays(w: World, e: Event, k: Key)
    requires Inv(w) && Enabled(w, e) && Orphan(w, k)
    ensures Orphan(Step(w, e), k)
  {
    assert KeyInv(w, k);
    StepIsOnlyBy(w, e);
    OrphanAfter(w, Step(w, e), e.id, k);
  }

  lemma {:induction false} OrphansAreForever(trace: seq<World>, n: nat, m: nat, k: Key)
    requires Reachable(trace) && n <= m < |trace| && Orphan(trace[n], k)
    ensures Orphan(trace[m], k)
    decreases m - n
  {
    hide Step, Orphan, Inv;
    if n < m {
      OrphansAreForever(trace, n, m - 1, k);
      ReachableInv(trace, m - 1);
      assert Next(trace[m - 1], trace[m]);
      var e :| Enabled(trace[m - 1], e) && !Misreported(trace[m - 1], e) && trace[m] == Step(trace[m - 1], e);
      OrphanStays(trace[m - 1], e, k);
    }
  }

  // ---- the memo race ----

  /** A delete that has read its rows, and an upload to the same memo about to commit. */
  predicate Racing(w: World, upload: nat, delete: nat, memo: nat) {
    && upload != delete && memo in w.memos && Is(w, upload) && Is(w, delete)
    && w.requests[delete].Deleting? && w.requests[delete].target.WholeMemo? && w.requests[delete].target.memo == memo
    && w.requests[upload].Uploading? && w.requests[upload].owner == MemoRow(memo)
    && w.requests[upload].left == 0 && !w.requests[upload].creating && w.requests[upload].put != []
  }

  /** Both can succeed, the upload first. The cascade then takes the new rows, and their objects are orphans. */
  lemma DeleteAndUploadRace(w: World, upload: nat, delete: nat, memo: nat)
    requires Inv(w) && Racing(w, upload, delete, memo)
    ensures Enabled(w, Commit(upload)) && Enabled(Step(w, Commit(upload)), Commit(delete))
    ensures var w' := Step(Step(w, Commit(upload)), Commit(delete));
      forall k <- w.requests[upload].put :: Orphan(w', k)
  {
    var put := w.requests[upload].put;
    var between := Step(w, Commit(upload));
    var w' := Step(between, Commit(delete));
    StepIsOnlyBy(w, Commit(upload));
    StepIsOnlyBy(between, Commit(delete));
    forall k | k in put ensures Orphan(w', k) {
      assert KeyInv(w, k);
      assert Mentioned(w, upload, k);
      assert Proper(w, upload, k);
      assert between.rows[k] == MemoRow(memo);
      forall id | id in w'.requests ensures k !in Mentions(w'.requests[id]) {
        assert id != upload && !Mentioned(w, id, k);
      }
    }
  }

  const CREATING := World({}, map[], {}, map[0 := Uploading(MemoRow(0), true, 0, [])], 0, 1)
  const CREATED := World({0}, map[], {}, map[], 0, 1)
  const DELETING := World({0}, map[], {}, map[2 := Deleting(WholeMemo(0, []))], 0, 1)
  const UPLOADING :=
    World({0}, map[], {}, map[2 := Deleting(WholeMemo(0, [])), 1 := Uploading(MemoRow(0), false, 1, [])], 0, 1)
  const RACING :=
    World({0}, map[], {0}, map[2 := Deleting(WholeMemo(0, [])), 1 := Uploading(MemoRow(0), false, 0, [0])], 1, 1)

  /** The race is reached: a memo is created, a delete reads that it has no attachments, and an upload to it puts one.
      The same state is one where the upload's commit can be misreported. */
  lemma RaceIsReachable() returns (trace: seq<World>)
    ensures Reachable(trace) && Racing(trace[|trace| - 1], 1, 2, 0)
    ensures Enabled(trace[|trace| - 1], CommitFails(1, true)) && Misreported(trace[|trace| - 1], CommitFails(1, true))
  {
    trace := [EMPTY, CREATING, CREATED, DELETING, UPLOADING, RACING];
    MemoCreated();
    DeleteReads();
    UploadPuts();
    assert Racing(RACING, 1, 2, 0);
    assert Enabled(RACING, CommitFails(1, true)) && Misreported(RACING, CommitFails(1, true));
    hide *;
  }

  lemma MemoCreated()
    ensures Next(EMPTY, CREATING) && Next(CREATING, CREATED)
  {
    Takes(EMPTY, CreateMemo(0, 0), CREATING);
    assert CREATING.requests - {0} == map[];
    Takes(CREATING, Commit(0), CREATED);
  }

  lemma DeleteReads()
    ensures Next(CREATED, DELETING)
  {
    assert KeysOf(map[], MemoRow(0)) == {} == Elements([]);
    Takes(CREATED, DeleteMemo(2, 0, []), DELETING);
  }

  lemma UploadPuts()
    ensures Next(DELETING, UPLOADING) && Next(UPLOADING, RACING)
  {
    assert KeysOf(map[], MemoRow(0)) == {};
    Takes(DELETING, UploadToMemo(1, 0, 1), UPLOADING);
    assert [] + [0] == [0];
    Takes(UPLOADING, Put(1), RACING);
  }

  lemma Takes(w: World, e: Event, w': World)
    requires Enabled(w, e) && !Misreported(w, e) && w' == Step(w, e)
    ensures Next(w, w')
  {
  }
}
