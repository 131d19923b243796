/** Attachment rows in the database and objects in the bucket, with no transaction across the two.
    Every handler is cut into the steps between which other requests, failures and deaths can fall. */
module Attachments {

  /** Object keys contain a fresh UUID; here they are numbered. */
  type Key = nat

  datatype Owner = MemoRow(memo: nat) | TradeRow(trade: nat)

  /** What a delete request read before its commit. */
  datatype Target = WholeMemo(memo: nat, loaded: seq<Key>) | OneAttachment(key: Key)

  datatype Request =
    | Uploading(owner: Owner, creating: bool, left: nat, put: seq<Key>)  // still `left` files to put, then commit
    | Deleting(target: Target)                                          // rows read, delete not yet committed
    | Removing(keys: seq<Key>)                                           // compensating, or cleaning up after a delete

  datatype World = World(memos: set<nat>, rows: map<Key, Owner>, bucket: set<Key>, requests: map<nat, Request>,
                         nextKey: Key, nextMemo: nat)

  datatype Removal = Gone | Swallowed(gone: bool) | Escaped(gone: bool)

  datatype Event =
    | CreateMemo(id: nat, files: nat)
    | UploadToMemo(id: nat, memo: nat, files: nat)
    | UploadToTrade(id: nat, trade: nat)
    | DeleteMemo(id: nat, memo: nat, loaded: seq<Key>)
    | DeleteAttachment(id: nat, key: Key)
    | Put(id: nat)
    | PutFails(id: nat, stored: bool)
    | Commit(id: nat)
    | CommitFails(id: nat, happened: bool)  // raises; `happened` when it took effect all the same
    | Remove(id: nat, outcome: Removal)
    | Return(id: nat)
    | Die(id: nat)

  const MAX_MEMO_ATTACHMENTS := 12
  const MAX_TRADE_ATTACHMENTS := 10

  function KeysOf(rows: map<Key, Owner>, owner: Owner): set<Key> {
    set k | k in rows && rows[k] == owner
  }

  function Elements(keys: seq<Key>): set<Key> {
    set k | k in keys
  }

  /** Every key a request has in hand: to commit, to delete or to remove. */
  function Mentions(r: Request): set<Key> {
    match r
    case Uploading(_, _, _, put) => Elements(put)
    case Removing(keys) => Elements(keys)
    case Deleting(WholeMemo(_, loaded)) => Elements(loaded)
    case Deleting(OneAttachment(key)) => {key}
  }

  predicate Is(w: World, id: nat) {
    id in w.requests
  }

  /** Attachments of a memo deleted meanwhile violate the foreign key. */
  predicate CanCommit(w: World, id: nat) {
    && Is(w, id)
    && match w.requests[id]
       case Uploading(owner, creating, left, _) => left == 0 && (owner.MemoRow? && !creating ==> owner.memo in w.memos)
       case Deleting(_) => true
       case Removing(_) => false
  }

  predicate Enabled(w: World, e: Event) {
    match e
    case CreateMemo(id, files) => !Is(w, id) && files <= MAX_MEMO_ATTACHMENTS
    case UploadToMemo(id, memo, files) =>
      !Is(w, id) && memo in w.memos && |KeysOf(w.rows, MemoRow(memo))| + files <= MAX_MEMO_ATTACHMENTS
    case UploadToTrade(id, trade) =>
      // SELECT ... FOR UPDATE waits for any other upload to the same trade to end its transaction.
      && !Is(w, id) && (forall other <- w.requests :: !(w.requests[other].Uploading? && w.requests[other].owner == TradeRow(trade)))
      && |KeysOf(w.rows, TradeRow(trade))| < MAX_TRADE_ATTACHMENTS
    case DeleteMemo(id, memo, loaded) => !Is(w, id) && memo in w.memos && Elements(loaded) == KeysOf(w.rows, MemoRow(memo))
    case DeleteAttachment(id, key) => !Is(w, id) && key in w.rows && w.rows[key].TradeRow?
    case Put(id) => Is(w, id) && w.requests[id].Uploading? && w.requests[id].left > 0
    case PutFails(id, _) => Is(w, id) && w.requests[id].Uploading? && w.requests[id].left > 0
    case Commit(id) => CanCommit(w, id)
    case CommitFails(id, happened) => Is(w, id) && !w.requests[id].Removing? && (happened ==> CanCommit(w, id))
    case Remove(id, _) => Is(w, id) && w.requests[id].Removing? && w.requests[id].keys != []
    case Return(id) => Is(w, id) && w.requests[id] == Removing([])
    case Die(id) => Is(w, id)
  }

  function Start(w: World, id: nat, r: Request): World {
    w.(requests := w.requests[id := r])
  }

  function End(w: World, id: nat): World {
    w.(requests := w.requests - {id})
  }

  function Discard(w: World, key: Key, gone: bool): World {
    if gone then w.(bucket := w.bucket - {key}) else w
  }

  /** The rows a delete takes: the cascade takes every row of the memo, read earlier or not. */
  function Doomed(w: World, target: Target): set<Key> {
    match target
    case WholeMemo(memo, _) => KeysOf(w.rows, MemoRow(memo))
    case OneAttachment(key) => {key} * w.rows.Keys
  }

  /** What a commit does to the database. */
  function Written(w: World, r: Request): World {
    match r
    case Uploading(owner, creating, _, put) =>
      w.(rows := w.rows + (map k | k in put :: owner), memos := if creating && owner.MemoRow? then w.memos + {owner.memo} else w.memos)
    case Deleting(target) =>
      w.(rows := w.rows - Doomed(w, target), memos := if target.WholeMemo? then w.memos - {target.memo} else w.memos)
    case Removing(_) => w
  }

  function Step(w: World, e: Event): World
    requires Enabled(w, e)
  {
    match e
    case CreateMemo(id, files) =>
      Start(w, id, Uploading(MemoRow(w.nextMemo), true, files, [])).(nextMemo := w.nextMemo + 1)
    case UploadToMemo(id, memo, files) => Start(w, id, Uploading(MemoRow(memo), false, files, []))
    case UploadToTrade(id, trade) => Start(w, id, Uploading(TradeRow(trade), false, 1, []))
    case DeleteMemo(id, memo, loaded) => Start(w, id, Deleting(WholeMemo(memo, loaded)))
    case DeleteAttachment(id, key) => Start(w, id, Deleting(OneAttachment(key)))
    case Put(id) =>
      var r := w.requests[id];
      Start(w, id, r.(left := r.left - 1, put := r.put + [w.nextKey])).(bucket := w.bucket + {w.nextKey}, nextKey := w.nextKey + 1)
    case PutFails(id, stored) =>
      // The key of a failed put is not on the list that compensation removes.
      var failed := Start(w, id, Removing(w.requests[id].put)).(nextKey := w.nextKey + 1);
      if stored then failed.(bucket := w.bucket + {w.nextKey}) else failed
    case Commit(id) =>
      var r, written := w.requests[id], Written(w, w.requests[id]);
      (match r
       case Deleting(WholeMemo(_, loaded)) => Start(written, id, Removing(loaded))
       case Deleting(OneAttachment(key)) => Start(written, id, Removing([key]))
       case _ => End(written, id))
    case CommitFails(id, happened) =>
      var r := w.requests[id];
      var left := if happened then Written(w, r) else w;
      if r.Uploading? then Start(left, id, Removing(r.put)) else End(left, id)
    case Remove(id, outcome) =>
      var keys := w.requests[id].keys;
      (match outcome
       case Gone => Start(Discard(w, keys[0], true), id, Removing(keys[1..]))
       case Swallowed(gone) => Start(Discard(w, keys[0], gone), id, Removing(keys[1..]))
       case Escaped(gone) => End(Discard(w, keys[0], gone), id))
    case Return(id) => End(w, id)
    case Die(id) => End(w, id)
  }

  /** The one step that the compensation of an upload does not survive: a commit of rows that takes effect
      and is reported as failed. */
  predicate Misreported(w: World, e: Event)
    requires Enabled(w, e)
  {
    e.CommitFails? && e.happened && w.requests[e.id].Uploading? && w.requests[e.id].put != []
  }

  const EMPTY := World({}, map[], {}, map[], 0, 0)

  /** Any sequence of steps, each when it can happen and none a misreported commit. */
  ghost predicate Reachable(trace: seq<World>) {
    && trace != [] && trace[0] == EMPTY
    && forall i, j | 0 <= i < j < |trace| && j == i + 1 :: Next(trace[i], trace[j])
  }

  ghost predicate Next(w: World, w': World) {
    exists e :: Enabled(w, e) && !Misreported(w, e) && w' == Step(w, e)
  }

  // ---- the invariant ----

  predicate Mentioned(w: World, id: nat, k: Key) {
    id in w.requests && k in Mentions(w.requests[id])
  }

  /** What one request may have to do with one key, given where the key is. */
  predicate Proper(w: World, id: nat, k: Key) {
    Mentioned(w, id, k) ==>
      && k < w.nextKey
      && match w.requests[id]
         case Uploading(_, _, _, _) => k in w.bucket && k !in w.rows
         case Removing(_) => k !in w.rows
         case Deleting(WholeMemo(memo, _)) => k in w.rows ==> w.rows[k] == MemoRow(memo)
         case Deleting(OneAttachment(_)) => true
  }

  /** An upload shares what it has put with no other request. */
  ghost predicate Unshared(w: World, k: Key) {
    forall id, other | Mentioned(w, id, k) && Mentioned(w, other, k) && w.requests[id].Uploading? :: id == other
  }

  /** A committed row's object exists, and keys are handed out once. */
  predicate Placed(w: World, k: Key) {
    (k in w.rows || k in w.bucket ==> k < w.nextKey) && (k in w.rows ==> k in w.bucket)
  }

  ghost predicate KeyInv(w: World, k: Key) {
    Placed(w, k) && Unshared(w, k) && forall id :: Proper(w, id, k)
  }

  ghost predicate Inv(w: World) {
    forall k :: KeyInv(w, k)
  }

  /** A step of one request leaves what the others have to do with a key alone. */
  ghost predicate OnlyBy(w: World, w': World, id: nat) {
    forall other | other != id ::
      && (other in w.requests <==> other in w'.requests)
      && (other in w.requests ==> w.requests[other] == w'.requests[other])
  }

  lemma StepIsOnlyBy(w: World, e: Event)
    requires Enabled(w, e)
    ensures OnlyBy(w, Step(w, e), e.id)
  {
  }

  /** A key whose place no one changed and which the request does not newly mention or let go of. */
  lemma Untouched(w: World, w': World, id: nat, k: Key)
    requires KeyInv(w, k) && OnlyBy(w, w', id) && w.nextKey <= w'.nextKey
    requires (k in w.bucket <==> k in w'.bucket) && (k in w.rows <==> k in w'.rows)
    requires k in w.rows ==> w.rows[k] == w'.rows[k]
    requires Mentioned(w', id, k) ==> Mentioned(w, id, k) && w'.requests[id].Uploading? == w.requests[id].Uploading?
    requires Mentioned(w', id, k) ==> w'.requests[id].Removing? == w.requests[id].Removing?
    requires Mentioned(w', id, k) && w'.requests[id].Deleting? ==> w'.requests[id] == w.requests[id]
    ensures KeyInv(w', k)
  {
    forall other ensures Proper(w', other, k) {
      assert Proper(w, other, k);
    }
    forall x, y | Mentioned(w', x, k) && Mentioned(w', y, k) && w'.requests[x].Uploading? ensures x == y {
      assert Mentioned(w, x, k) && Mentioned(w, y, k);
    }
  }

  /** A key that some other request may still mention, once its own request's part is settled. */
  lemma Settled(w: World, w': World, id: nat, k: Key)
    requires KeyInv(w, k) && OnlyBy(w, w', id) && w.nextKey <= w'.nextKey
    requires Placed(w', k) && Proper(w', id, k)
    requires forall other | other != id && Mentioned(w, other, k) ::
      && !w.requests[other].Uploading? && !(Mentioned(w', id, k) && w'.requests[id].Uploading?)
      && (k in w'.rows ==> k in w.rows && w.rows[k] == w'.rows[k])
    ensures KeyInv(w', k)
  {
    forall other ensures Proper(w', other, k) {
      assert Proper(w, other, k);
      assert other != id && Mentioned(w', other, k) ==> Mentioned(w, other, k);
    }
    forall x, y | Mentioned(w', x, k) && Mentioned(w', y, k) && w'.requests[x].Uploading? ensures x == y {
      assert x != id ==> Mentioned(w, x, k);
      assert y != id ==> Mentioned(w, y, k);
    }
  }

  lemma StartKeepsInv(w: World, e: Event)
    requires Inv(w) && Enabled(w, e)
    requires e.CreateMemo? || e.UploadToMemo? || e.UploadToTrade? || e.DeleteMemo? || e.DeleteAttachment?
    ensures Inv(Step(w, e))
  {
    var w' := Step(w, e);
    StepIsOnlyBy(w, e);
    forall k ensures KeyInv(w', k) {
      assert KeyInv(w, k);
      if Mentioned(w', e.id, k) {
        forall other | other != e.id && Mentioned(w, other, k) ensures !w.requests[other].Uploading? {
          assert Proper(w, other, k);
        }
        Settled(w, w', e.id, k);
      } else {
        Untouched(w, w', e.id, k);
      }
    }
  }

  lemma PutKeepsInv(w: World, id: nat)
    requires Inv(w) && Enabled(w, Put(id))
    ensures Inv(Step(w, Put(id)))
  {
    var w' := Step(w, Put(id));
    StepIsOnlyBy(w, Put(id));
    forall k ensures KeyInv(w', k) {
      assert KeyInv(w, k);
      if k == w.nextKey {
        forall other | other != id ensures !Mentioned(w, other, k) {
          assert Proper(w, other, k);
        }
        Settled(w, w', id, k);
      } else {
        Untouched(w, w', id, k);
      }
    }
  }

  /** Switching to compensation: what was put is still answered for. */
  lemma CompensationKeepsInv(w: World, w': World, id: nat)
    requires Inv(w) && id in w.requests && w.requests[id].Uploading?
    requires w' == Start(w, id, Removing(w.requests[id].put))
    ensures Inv(w')
  {
    forall k ensures KeyInv(w', k) {
      assert KeyInv(w, k);
      assert Proper(w, id, k);
      if Mentioned(w, id, k) {
        forall other | other != id ensures !Mentioned(w, other, k) {}
        Settled(w, w', id, k);
      } else {
        Untouched(w, w', id, k);
      }
    }
  }

  lemma PutFailsKeepsInv(w: World, id: nat, stored: bool)
    requires Inv(w) && Enabled(w, PutFails(id, stored))
    ensures Inv(Step(w, PutFails(id, stored)))
  {
    var compensating := Start(w, id, Removing(w.requests[id].put));
    CompensationKeepsInv(w, compensating, id);
    var w' := Step(w, PutFails(id, stored));
    forall k ensures KeyInv(w', k) {
      assert KeyInv(compensating, k);
      if k == w.nextKey {
        forall other ensures !Mentioned(compensating, other, k) {
          assert Proper(compensating, other, k);
        }
        Settled(compensating, w', id, k);
      } else {
        Untouched(compensating, w', id, k);
      }
    }
  }

  lemma CommitUploadKeepsInv(w: World, id: nat)
    requires Inv(w) && Enabled(w, Commit(id)) && w.requests[id].Uploading?
    ensures Inv(Step(w, Commit(id)))
  {
    var w' := Step(w, Commit(id));
    StepIsOnlyBy(w, Commit(id));
    forall k ensures KeyInv(w', k) {
      assert KeyInv(w, k);
      assert Proper(w, id, k);
      if Mentioned(w, id, k) {
        forall other | other != id ensures !Mentioned(w, other, k) {}
        Settled(w, w', id, k);
      } else {
        Untouched(w, w', id, k);
      }
    }
  }

  lemma CommitDeleteKeepsInv(w: World, id: nat)
    requires Inv(w) && Enabled(w, Commit(id)) && w.requests[id].Deleting?
    ensures Inv(Step(w, Commit(id)))
  {
    var w' := Step(w, Commit(id));
    StepIsOnlyBy(w, Commit(id));
    forall k ensures KeyInv(w', k) {
      assert KeyInv(w, k);
      assert Proper(w, id, k);
      if Mentioned(w, id, k) {
        Settled(w, w', id, k);
      } else if k in w.rows && k !in w'.rows {
        forall other | Mentioned(w, other, k) ensures !w.requests[other].Uploading? {
          assert Proper(w, other, k);
        }
        Settled(w, w', id, k);
      } else {
        Untouched(w, w', id, k);
      }
    }
  }

  lemma CommitFailsKeepsInv(w: World, id: nat, happened: bool)
    requires Inv(w) && Enabled(w, CommitFails(id, happened)) && !Misreported(w, CommitFails(id, happened))
    ensures Inv(Step(w, CommitFails(id, happened)))
  {
    var w' := Step(w, CommitFails(id, happened));
    if w.requests[id].Uploading? && !happened {
      CompensationKeepsInv(w, w', id);
    } else {
      StepIsOnlyBy(w, CommitFails(id, happened));
      forall k ensures KeyInv(w', k) {
        assert KeyInv(w, k);
        if k in w.rows && k !in w'.rows {
          forall other | Mentioned(w, other, k) ensures !w.requests[other].Uploading? {
            assert Proper(w, other, k);
          }
          Settled(w, w', id, k);
        } else {
          Untouched(w, w', id, k);
        }
      }
    }
  }

  lemma RemoveKeepsInv(w: World, id: nat, outcome: Removal)
    requires Inv(w) && Enabled(w, Remove(id, outcome))
    ensures Inv(Step(w, Remove(id, outcome)))
  {
    var w' := Step(w, Remove(id, outcome));
    StepIsOnlyBy(w, Remove(id, outcome));
    var keys := w.requests[id].keys;
    assert forall k :: k in keys <==> k == keys[0] || k in keys[1..];
    forall k ensures KeyInv(w', k) {
      assert KeyInv(w, k);
      assert Proper(w, id, k);
      if Mentioned(w, id, k) {
        Settled(w, w', id, k);
      } else {
        Untouched(w, w', id, k);
      }
    }
  }

  lemma EndKeepsInv(w: World, e: Event)
    requires Inv(w) && Enabled(w, e) && (e.Die? || e.Return?)
    ensures Inv(Step(w, e))
  {
    var w' := Step(w, e);
    StepIsOnlyBy(w, e);
    forall k ensures KeyInv(w', k) {
      assert KeyInv(w, k);
      assert Proper(w, e.id, k);
      if Mentioned(w, e.id, k) {
        Settled(w, w', e.id, k);
      } else {
        Untouched(w, w', e.id, k);
      }
    }
  }

  lemma StepKeepsInv(w: World, e: Event)
    requires Inv(w) && Enabled(w, e) && !Misreported(w, e)
    ensures Inv(Step(w, e))
  {
    hide Step, Inv;
    match e
    case Put(id) => PutKeepsInv(w, id);
    case PutFails(id, stored) => PutFailsKeepsInv(w, id, stored);
    case Commit(id) => if w.requests[id].Uploading? { CommitUploadKeepsInv(w, id); } else { CommitDeleteKeepsInv(w, id); }
    case CommitFails(id, happened) => CommitFailsKeepsInv(w, id, happened);
    case Remove(id, outcome) => RemoveKeepsInv(w, id, outcome);
    case Return(_) => EndKeepsInv(w, e);
    case Die(_) => EndKeepsInv(w, e);
    case _ => StartKeepsInv(w, e);
  }

  lemma {:induction false} ReachableInv(trace: seq<World>, n: nat)
    requires Reachable(trace) && n < |trace|
    ensures Inv(trace[n])
  {
    if n > 0 {
      ReachableInv(trace, n - 1);
      assert Next(trace[n - 1], trace[n]);
      var e :| Enabled(trace[n - 1], e) && !Misreported(trace[n - 1], e) && trace[n] == Step(trace[n - 1], e);
      StepKeepsInv(trace[n - 1], e);
    }
  }

  // ---- the guarantees ----

  /** At every step of every interleaving each committed row's object is in the bucket. */
  lemma CommittedRowsHaveObjects(trace: seq<World>, n: nat)
    requires Reachable(trace) && n < |trace|
    ensures trace[n].rows.Keys <= trace[n].bucket
  {
    ReachableInv(trace, n);
    forall k | k in trace[n].rows ensures k in trace[n].bucket {
      assert KeyInv(trace[n], k);
    }
  }

  /** A misreported commit is exactly what safety cannot bear: after it, the first removal of its compensation
      takes the object of a committed row. */
  lemma MisreportedCommitBreaksSafety(w: World, e: Event)
    requires Inv(w) && Enabled(w, e) && Misreported(w, e)
    ensures var between, removal := Step(w, e), Remove(e.id, Gone);
      Enabled(between, removal) && !(Step(between, removal).rows.Keys <= Step(between, removal).bucket)
  {
    var key := w.requests[e.id].put[0];
    var after := Step(Step(w, e), Remove(e.id, Gone));
    assert key in after.rows && key !in after.bucket;
  }

  // ---- the attachment limit of a trade ----

  predicate Busy(w: World, id: nat, trade: nat) {
    id in w.requests && w.requests[id].Uploading? && w.requests[id].owner == TradeRow(trade)
  }

  function Files(r: Request): nat
    requires r.Uploading?
  {
    |r.put| + r.left
  }

  /** The row lock lets one upload per trade run, which puts one object. */
  ghost predicate Limited(w: World, trade: nat) {
    && |KeysOf(w.rows, TradeRow(trade))| <= MAX_TRADE_ATTACHMENTS
    && (forall id | Busy(w, id, trade) ::
          |KeysOf(w.rows, TradeRow(trade))| < MAX_TRADE_ATTACHMENTS && Files(w.requests[id]) <= 1)
    && (forall id, other | Busy(w, id, trade) && Busy(w, other, trade) :: id == other)
  }

  lemma SubsetCard<T>(a: set<T>, b: set<T>)
    requires a <= b
    ensures |a| <= |b|
  {
    if a != {} {
      var x :| x in a;
      SubsetCard(a - {x}, b - {x});
    }
  }

  lemma StepKeepsLimited(w: World, e: Event, trade: nat)
    requires Limited(w, trade) && Enabled(w, e)
    ensures Limited(Step(w, e), trade)
  {
    StepIsOnlyBy(w, e);
    if Writes(e) && Busy(w, e.id, trade) {
      CommitKeepsLimited(w, e, trade);
    } else if e.UploadToTrade? && e.trade == trade {
      LockGivesOne(w, e.id, trade);
    } else {
      OtherStepsAddNoRows(w, e, trade);
      LimitedStays(w, Step(w, e), e.id, trade);
    }
  }

  /** A commit that takes effect, whatever it reports. */
  predicate Writes(e: Event) {
    e.Commit? || (e.CommitFails? && e.happened)
  }

  lemma CommitKeepsLimited(w: World, e: Event, trade: nat)
    requires Limited(w, trade) && Enabled(w, e) && Writes(e) && Busy(w, e.id, trade)
    ensures Limited(Step(w, e), trade)
  {
    StepIsOnlyBy(w, e);
    CommitAddsPut(w, e, trade);
    hide Step, Enabled, KeysOf, Elements;
    var w' := Step(w, e);
    AddsAtMostOne(KeysOf(w.rows, TradeRow(trade)), KeysOf(w'.rows, TradeRow(trade)), w.requests[e.id].put);
    forall other ensures !Busy(w', other, trade) {
      assert other != e.id ==> !Busy(w, other, trade);
    }
  }

  lemma AddsAtMostOne(before: set<Key>, after: set<Key>, put: seq<Key>)
    requires after <= before + Elements(put) && |put| <= 1
    ensures |after| <= |before| + 1
  {
    SubsetCard(after, before + Elements(put));
    assert Elements(put) == if put == [] then {} else {put[0]};
  }

  lemma CommitAddsPut(w: World, e: Event, trade: nat)
    requires Enabled(w, e) && Writes(e) && Busy(w, e.id, trade)
    ensures KeysOf(Step(w, e).rows, TradeRow(trade)) <= KeysOf(w.rows, TradeRow(trade)) + Elements(w.requests[e.id].put)
    ensures !Busy(Step(w, e), e.id, trade)
  {
  }

  lemma LockGivesOne(w: World, id: nat, trade: nat)
    requires Limited(w, trade) && Enabled(w, UploadToTrade(id, trade))
    ensures Limited(Step(w, UploadToTrade(id, trade)), trade)
  {
    var w' := Step(w, UploadToTrade(id, trade));
    forall other | Busy(w', other, trade) ensures other == id {
      assert other != id ==> Busy(w, other, trade);
    }
  }

  lemma OtherStepsAddNoRows(w: World, e: Event, trade: nat)
    requires Enabled(w, e) && !(Writes(e) && Busy(w, e.id, trade)) && !(e.UploadToTrade? && e.trade == trade)
    ensures KeysOf(Step(w, e).rows, TradeRow(trade)) <= KeysOf(w.rows, TradeRow(trade))
    ensures Busy(Step(w, e), e.id, trade) ==>
      Busy(w, e.id, trade) && Files(Step(w, e).requests[e.id]) == Files(w.requests[e.id])
  {
  }

  lemma LimitedStays(w: World, w': World, id: nat, trade: nat)
    requires Limited(w, trade) && OnlyBy(w, w', id)
    requires KeysOf(w'.rows, TradeRow(trade)) <= KeysOf(w.rows, TradeRow(trade))
    requires Busy(w', id, trade) ==> Busy(w, id, trade) && Files(w'.requests[id]) == Files(w.requests[id])
    ensures Limited(w', trade)
  {
    SubsetCard(KeysOf(w'.rows, TradeRow(trade)), KeysOf(w.rows, TradeRow(trade)));
    forall other | Busy(w', other, trade) ensures Busy(w, other, trade) {
    }
  }

  /** Under every interleaving a trade has at most ten attachments. */
  lemma {:induction false} TradeAttachmentsAreLimited(trace: seq<World>, n: nat, trade: nat)
    requires Reachable(trace) && n < |trace|
    ensures Limited(trace[n], trade) && |KeysOf(trace[n].rows, TradeRow(trade))| <= 10
  {
    if n > 0 {
      TradeAttachmentsAreLimited(trace, n - 1, trade);
      assert Next(trace[n - 1], trace[n]);
      var e :| Enabled(trace[n - 1], e) && !Misreported(trace[n - 1], e) && trace[n] == Step(trace[n - 1], e);
      StepKeepsLimited(trace[n - 1], e, trade);
    }
  }
}
