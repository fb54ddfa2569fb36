/**
 * DefaultAsyncService, its store-facing half: the recovery collection as a
 * sequence of documents, the writes that submitting, completing, failing
 * and rejecting a task make to it, the claim that picks a record to
 * recover, and the recovery pass that replays every claimable record. The
 * executor is reduced to the ordered list of tasks handed to it.
 */
module AsyncTaskService {
  import opened Wrappers
  import opened Api
  import opened RecoveryRecords
  import opened AsyncTasks
  import Seqs

  /** AsyncServiceConfiguration. */
  datatype AsyncConfig = AsyncConfig(
    serviceSignature: string,
    persistRejectedTasks: bool,
    processingThreadPoolSize: int,
    asyncTasksMaxQueueSize: int,
    recoveryPollTime: int,
    failureRecoveryTimeout: int,
    maxTaskFailures: int)

  const DefaultAsyncConfig := AsyncConfig("", true, 4, 1000, 3000, -1, 3)

  /** The executor's work queue: a direct hand-off, or a bounded array queue. */
  datatype TaskQueue = SynchronousHandoff | Bounded(capacity: nat)

  datatype Executor = Executor(threads: nat, queue: TaskQueue)

  /**
   * The thread-count test and `createExecutor`: no executor without threads;
   * otherwise a fixed pool whose queue is a hand-off when the configured
   * size is not positive and a bounded queue of that size when it is.
   */
  function ExecutorFor(threadCount: int, maxQueueSize: int): (e: Option<Executor>)
    ensures e.None? <==> threadCount <= 0
    ensures e.Some? ==> e.value.threads == threadCount
    ensures e.Some? ==> (e.value.queue == SynchronousHandoff <==> maxQueueSize <= 0)
    ensures e.Some? && maxQueueSize > 0 ==> e.value.queue == Bounded(maxQueueSize)
  {
    if threadCount <= 0 then None
    else if maxQueueSize <= 0 then Some(Executor(threadCount, SynchronousHandoff))
    else Some(Executor(threadCount, Bounded(maxQueueSize)))
  }

  /** The error a failed recovery-record write is wrapped in. */
  const WriteFailure := ServiceError(Some(CannotWriteRecoveryRecord), map[])

  predicate HasId(records: seq<RecordDoc>, id: ObjectId) {
    exists i :: 0 <= i < |records| && records[i].id == id
  }

  /** The `_id` index: no two documents share an id. */
  ghost predicate UniqueIds(records: seq<RecordDoc>) {
    forall i, j :: 0 <= i < j < |records| ==> records[i].id != records[j].id
  }

  /** The index of the matching document with the smallest id, if any matches. */
  function Oldest(records: seq<RecordDoc>, q: Query): (r: Option<nat>)
    ensures r.Some? ==> r.value < |records| && Matches(q, records[r.value])
    ensures r.Some? ==> forall j :: 0 <= j < |records| && Matches(q, records[j]) ==> records[r.value].id <= records[j].id
    ensures r.None? <==> forall j :: 0 <= j < |records| ==> !Matches(q, records[j])
    decreases |records|
  {
    if records == [] then None
    else
      var n := |records| - 1;
      var best := Oldest(records[..n], q);
      assert forall j :: 0 <= j < n ==> records[..n][j] == records[j];
      if !Matches(q, records[n]) then best
      else if best.Some? && records[best.value].id <= records[n].id then best
      else Some(n)
  }

  /**
   * `findOneAndUpdate(query, update)` sorted by ascending id, without
   * upsert: the oldest matching document, updated, and the collection
   * after; nothing, and the collection as it was, when none matches.
   */
  function FindOneAndUpdate(records: seq<RecordDoc>, q: Query, u: Update): (r: (Option<RecordDoc>, seq<RecordDoc>))
    ensures r.0.None? <==> Oldest(records, q).None?
    ensures r.0.None? ==> r.1 == records
    ensures r.0.Some? ==> var i := Oldest(records, q).value;
      r.0.value == Apply(u, records[i]) && r.1 == records[i := r.0.value]
  {
    var i := Oldest(records, q);
    if i.None? then (None, records)
    else (Some(Apply(u, records[i.value])), records[i.value := Apply(u, records[i.value])])
  }

  /** An update keeps every id, so it keeps them unique. */
  lemma UpdateKeepsIds(records: seq<RecordDoc>, q: Query, u: Update)
    requires UniqueIds(records)
    ensures UniqueIds(FindOneAndUpdate(records, q, u).1)
    ensures forall id :: HasId(FindOneAndUpdate(records, q, u).1, id) <==> HasId(records, id)
  {
    var after := FindOneAndUpdate(records, q, u).1;
    assert forall j :: 0 <= j < |records| ==> after[j].id == records[j].id;
  }

  /** `deleteOne(findById(id))`: the first document with that id goes; the rest keep their order. */
  function DeleteOne(records: seq<RecordDoc>, id: ObjectId): (r: seq<RecordDoc>)
    ensures HasId(records, id) ==> |r| == |records| - 1
    ensures !HasId(records, id) ==> r == records
    ensures forall d :: d in r ==> d in records
    decreases |records|
  {
    if records == [] then []
    else if records[0].id == id then records[1..]
    else
      var rest := DeleteOne(records[1..], id);
      assert HasId(records, id) <==> HasId(records[1..], id) by {
        if HasId(records, id) {
          var i :| 0 <= i < |records| && records[i].id == id;
          assert records[1..][i - 1].id == id;
        }
        if HasId(records[1..], id) {
          var i :| 0 <= i < |records[1..]| && records[1..][i].id == id;
          assert records[i + 1].id == id;
        }
      }
      [records[0]] + rest
  }

  /** With unique ids, completing a task removes its document and only that one. */
  lemma {:induction false} DeleteOneRemovesExactly(records: seq<RecordDoc>, id: ObjectId)
    requires UniqueIds(records)
    ensures UniqueIds(DeleteOne(records, id))
    ensures forall d :: d in DeleteOne(records, id) <==> d in records && d.id != id
    decreases |records|
  {
    if records != [] {
      var rest := records[1..];
      UniqueTail(records);
      if records[0].id != id {
        DeleteOneRemovesExactly(rest, id);
        var after := DeleteOne(records, id);
        assert after == [records[0]] + DeleteOne(rest, id);
        UniqueCons(records[0], DeleteOne(rest, id));
      }
    }
  }

  /** The tail of an id-unique list is id-unique and holds no document with the head's id. */
  lemma UniqueTail(records: seq<RecordDoc>)
    requires records != [] && UniqueIds(records)
    ensures UniqueIds(records[1..])
    ensures forall d :: d in records[1..] ==> d.id != records[0].id
  {
    var rest := records[1..];
    forall i, j | 0 <= i < j < |rest| ensures rest[i].id != rest[j].id {
      assert rest[i] == records[i + 1] && rest[j] == records[j + 1];
    }
    forall d | d in rest ensures d.id != records[0].id {
      var j :| 0 <= j < |rest| && rest[j] == d;
      assert records[j + 1] == d;
    }
  }

  /** A document put in front of an id-unique list that lacks its id keeps the list id-unique. */
  lemma UniqueCons(head: RecordDoc, rest: seq<RecordDoc>)
    requires UniqueIds(rest)
    requires forall d :: d in rest ==> d.id != head.id
    ensures UniqueIds([head] + rest)
  {
    var all := [head] + rest;
    forall i, j | 0 <= i < j < |all| ensures all[i].id != all[j].id {
      assert all[j] == rest[j - 1];
      if i > 0 {
        assert all[i] == rest[i - 1];
      }
    }
  }

  /**
   * The claim (`getTaskToRecover` without upsert): when a failure timeout is
   * configured, the oldest timed-out record of the type; failing that, the
   * oldest eligible one. The claimed record is stamped PROCESSING by this
   * service at `now`.
   */
  function Claim(records: seq<RecordDoc>, typeId: Short, signature: string, timeout: int, maxFails: int, now: int)
    : (r: (Option<RecordDoc>, seq<RecordDoc>))
  {
    var stamp := AsProcessing(signature, now);
    var timedOut := if timeout > 0 then FindOneAndUpdate(records, FindTimedOut(typeId, timeout, now), stamp)
      else (None, records);
    if timedOut.0.Some? then timedOut
    else FindOneAndUpdate(records, FindEligible(typeId, maxFails), stamp)
  }

  /** Whether a claim at `now` could pick the record. */
  predicate Claimable(d: RecordDoc, typeId: Short, timeout: int, maxFails: int, now: int) {
    (timeout > 0 && Matches(FindTimedOut(typeId, timeout, now), d)) || Matches(FindEligible(typeId, maxFails), d)
  }

  /** How many records a claim at `now` could pick. */
  function ClaimableCount(records: seq<RecordDoc>, typeId: Short, timeout: int, maxFails: int, now: int): nat
    decreases |records|
  {
    if records == [] then 0
    else
      var n := |records| - 1;
      ClaimableCount(records[..n], typeId, timeout, maxFails, now) + (if Claimable(records[n], typeId, timeout, maxFails, now) then 1 else 0)
  }

  /** Replacing a claimable record by one that is not removes exactly one from the count. */
  lemma {:induction false} CountDropsByOne(records: seq<RecordDoc>, i: nat, d: RecordDoc, typeId: Short, timeout: int, maxFails: int, now: int)
    requires i < |records|
    requires Claimable(records[i], typeId, timeout, maxFails, now) && !Claimable(d, typeId, timeout, maxFails, now)
    ensures ClaimableCount(records[i := d], typeId, timeout, maxFails, now) + 1 == ClaimableCount(records, typeId, timeout, maxFails, now)
    decreases |records|
  {
    var n := |records| - 1;
    var after := records[i := d];
    if i < n {
      assert after[..n] == records[..n][i := d];
      CountDropsByOne(records[..n], i, d, typeId, timeout, maxFails, now);
    } else {
      assert after[..n] == records[..n];
    }
  }

  /** A record a claim has just stamped is not claimable again at the same instant. */
  lemma StampedNotClaimable(d: RecordDoc, signature: string, typeId: Short, timeout: int, maxFails: int, now: int)
    ensures !Claimable(Apply(AsProcessing(signature, now), d), typeId, timeout, maxFails, now)
  {
    if timeout > 0 {
      ClaimedNotReclaimable(d, signature, now, typeId, maxFails, timeout);
    }
  }

  /** With no claimable record the count is zero. */
  lemma {:induction false} NoneClaimableCountsZero(records: seq<RecordDoc>, typeId: Short, timeout: int, maxFails: int, now: int)
    requires forall j :: 0 <= j < |records| ==> !Claimable(records[j], typeId, timeout, maxFails, now)
    ensures ClaimableCount(records, typeId, timeout, maxFails, now) == 0
    decreases |records|
  {
    if records != [] {
      var n := |records| - 1;
      assert forall j :: 0 <= j < n ==> records[..n][j] == records[j];
      NoneClaimableCountsZero(records[..n], typeId, timeout, maxFails, now);
    }
  }

  /** The claim took the record at `i`, which was claimable, and stamped it. */
  predicate ClaimedAt(records: seq<RecordDoc>, i: int, claimed: RecordDoc, after: seq<RecordDoc>,
                      typeId: Short, signature: string, timeout: int, maxFails: int, now: int) {
    && 0 <= i < |records| && Claimable(records[i], typeId, timeout, maxFails, now)
    && claimed == Apply(AsProcessing(signature, now), records[i]) && after == records[i := claimed]
  }

  /** No record could be claimed at `now`. */
  predicate NoneClaimable(records: seq<RecordDoc>, typeId: Short, timeout: int, maxFails: int, now: int) {
    forall j :: 0 <= j < |records| ==> !Claimable(records[j], typeId, timeout, maxFails, now)
  }

  /**
   * What a claim promises: nothing is claimed exactly when nothing is
   * claimable, and then nothing changes; otherwise one claimable record is
   * stamped PROCESSING under this signature at `now`, every other record is
   * untouched, ids stay unique, and since the stamped record cannot be
   * claimed again at the same instant the claimable count drops by one.
   */
  lemma ClaimSpec(records: seq<RecordDoc>, typeId: Short, signature: string, timeout: int, maxFails: int, now: int)
    requires UniqueIds(records)
    ensures var c := Claim(records, typeId, signature, timeout, maxFails, now);
      c.0.None? <==> NoneClaimable(records, typeId, timeout, maxFails, now)
    ensures var c := Claim(records, typeId, signature, timeout, maxFails, now);
      c.0.None? ==> c.1 == records && ClaimableCount(records, typeId, timeout, maxFails, now) == 0
    ensures var c := Claim(records, typeId, signature, timeout, maxFails, now);
      c.0.Some? ==> (exists i :: ClaimedAt(records, i, c.0.value, c.1, typeId, signature, timeout, maxFails, now))
    ensures var c := Claim(records, typeId, signature, timeout, maxFails, now);
      && UniqueIds(c.1)
      && (c.0.Some? ==> ClaimableCount(c.1, typeId, timeout, maxFails, now) + 1 == ClaimableCount(records, typeId, timeout, maxFails, now))
  {
    var c := Claim(records, typeId, signature, timeout, maxFails, now);
    if c.0.Some? {
      var i := ClaimIndex(records, typeId, signature, timeout, maxFails, now);
      StampedNotClaimable(records[i], signature, typeId, timeout, maxFails, now);
      CountDropsByOne(records, i, c.0.value, typeId, timeout, maxFails, now);
    } else {
      ClaimNothing(records, typeId, signature, timeout, maxFails, now);
      NoneClaimableCountsZero(records, typeId, timeout, maxFails, now);
    }
  }

  /** Where a claim that found something took its record from. */
  lemma ClaimIndex(records: seq<RecordDoc>, typeId: Short, signature: string, timeout: int, maxFails: int, now: int) returns (i: nat)
    requires UniqueIds(records)
    requires Claim(records, typeId, signature, timeout, maxFails, now).0.Some?
    ensures var c := Claim(records, typeId, signature, timeout, maxFails, now);
      ClaimedAt(records, i, c.0.value, c.1, typeId, signature, timeout, maxFails, now) && UniqueIds(c.1)
  {
    var stamp := AsProcessing(signature, now);
    var tq, eq := FindTimedOut(typeId, timeout, now), FindEligible(typeId, maxFails);
    if timeout > 0 && Oldest(records, tq).Some? {
      i := Oldest(records, tq).value;
      UpdateKeepsIds(records, tq, stamp);
    } else {
      i := Oldest(records, eq).value;
      UpdateKeepsIds(records, eq, stamp);
    }
  }

  /** A claim that found nothing saw nothing claimable and changed nothing. */
  lemma ClaimNothing(records: seq<RecordDoc>, typeId: Short, signature: string, timeout: int, maxFails: int, now: int)
    requires Claim(records, typeId, signature, timeout, maxFails, now).0.None?
    ensures NoneClaimable(records, typeId, timeout, maxFails, now)
    ensures Claim(records, typeId, signature, timeout, maxFails, now).1 == records
  {
    var tq, eq := FindTimedOut(typeId, timeout, now), FindEligible(typeId, maxFails);
    assert Oldest(records, eq).None?;
    assert timeout > 0 ==> Oldest(records, tq).None?;
  }

  /**
   * The claim as written: both queries pass `upsert(true)`, so a query with
   * no match inserts a document made of the query's equality fields and the
   * update, and returns it. The inserted document has no priority, failure
   * count or payload (0, 0 and null here).
   */
  function UpsertingFindOneAndUpdate(records: seq<RecordDoc>, q: Query, u: Update, newId: ObjectId): (r: (RecordDoc, seq<RecordDoc>))
    requires u.AsProcessing? && !q.FindById?
    ensures Oldest(records, q).None? ==> r.1 == records + [r.0] && r.0.id == newId && r.0.data.None?
  {
    var found := FindOneAndUpdate(records, q, u);
    if found.0.Some? then (found.0.value, found.1)
    else
      var invented := RecordDoc(newId, q.typeId, 0, Processing, Some(u.signature), u.now, 0, None);
      (invented, records + [invented])
  }

  /** `getTaskToRecover` as written: the null check after the two queries. */
  function ClaimAsWritten(records: seq<RecordDoc>, typeId: Short, signature: string, timeout: int, maxFails: int, now: int, newId: ObjectId)
    : (Option<RecordDoc>, seq<RecordDoc>)
  {
    var stamp := AsProcessing(signature, now);
    var timedOut: (Option<RecordDoc>, seq<RecordDoc>) :=
      if timeout > 0 then
        var (d, after) := UpsertingFindOneAndUpdate(records, FindTimedOut(typeId, timeout, now), stamp, newId);
        (Some(d), after)
      else (None, records);
    if timedOut.0.Some? then timedOut
    else
      var (d, after) := UpsertingFindOneAndUpdate(records, FindEligible(typeId, maxFails), stamp, newId);
      (Some(d), after)
  }

  /**
   * The claim as written never comes back empty: on a collection with
   * nothing to recover it invents a PROCESSING record without payload and
   * stores it, so the recovery loop, which stops only on an empty claim,
   * never stops (and replaying the invented record dereferences its
   * missing payload). With a timeout configured, eligible records are never
   * reached at all.
   */
  lemma UpsertClaimNeverEmpty(records: seq<RecordDoc>, typeId: Short, signature: string, timeout: int, maxFails: int, now: int, newId: ObjectId)
    ensures ClaimAsWritten(records, typeId, signature, timeout, maxFails, now, newId).0.Some?
    ensures (forall j :: 0 <= j < |records| ==> !Claimable(records[j], typeId, timeout, maxFails, now)) ==>
      var (claimed, after) := ClaimAsWritten(records, typeId, signature, timeout, maxFails, now, newId);
      && after == records + [claimed.value] && claimed.value.data.None?
      && claimed.value.state == Processing && claimed.value.id == newId
    ensures timeout > 0 ==>
      var upsert := UpsertingFindOneAndUpdate(records, FindTimedOut(typeId, timeout, now), AsProcessing(signature, now), newId);
      ClaimAsWritten(records, typeId, signature, timeout, maxFails, now, newId) == (Some(upsert.0), upsert.1)
  {
  }

  /**
   * One recovery pass with the clock held at `now`, as the claims it makes:
   * the records claimed, in claim order, and the collection once a claim
   * comes back empty. Each claim lowers the claimable count, so the pass ends.
   */
  function RecoveryPass(records: seq<RecordDoc>, typeId: Short, signature: string, timeout: int, maxFails: int, now: int)
    : (seq<RecordDoc>, seq<RecordDoc>)
    requires UniqueIds(records)
    decreases ClaimableCount(records, typeId, timeout, maxFails, now)
  {
    ClaimSpec(records, typeId, signature, timeout, maxFails, now);
    var c := Claim(records, typeId, signature, timeout, maxFails, now);
    if c.0.None? then ([], records)
    else
      var rest := RecoveryPass(c.1, typeId, signature, timeout, maxFails, now);
      ([c.0.value] + rest.0, rest.1)
  }

  /** What is left of a recovery pass once a claim has returned `claimed` and left `records`. */
  ghost function PassFrom(claimed: Option<RecordDoc>, records: seq<RecordDoc>, typeId: Short, signature: string, timeout: int, maxFails: int, now: int): (seq<RecordDoc>, seq<RecordDoc>)
    requires UniqueIds(records)
  {
    if claimed.None? then ([], records)
    else
      var rest := RecoveryPass(records, typeId, signature, timeout, maxFails, now);
      ([claimed.value] + rest.0, rest.1)
  }

  /** A recovery pass is one claim followed by what is left of the pass; each claim that finds a record uses one up. */
  lemma PassFromClaim(records: seq<RecordDoc>, typeId: Short, signature: string, timeout: int, maxFails: int, now: int)
    requires UniqueIds(records)
    ensures var c := Claim(records, typeId, signature, timeout, maxFails, now);
      && UniqueIds(c.1)
      && RecoveryPass(records, typeId, signature, timeout, maxFails, now) == PassFrom(c.0, c.1, typeId, signature, timeout, maxFails, now)
      && (c.0.Some? ==> ClaimableCount(c.1, typeId, timeout, maxFails, now) < ClaimableCount(records, typeId, timeout, maxFails, now))
  {
    ClaimSpec(records, typeId, signature, timeout, maxFails, now);
  }

  /** A record as a claim at `now` leaves it: stamped if it was claimable, else as it was. */
  function StampIfClaimable(d: RecordDoc, typeId: Short, signature: string, timeout: int, maxFails: int, now: int): RecordDoc {
    if Claimable(d, typeId, timeout, maxFails, now) then Apply(AsProcessing(signature, now), d) else d
  }

  /** Every record claimable at `now` stamped PROCESSING under `signature`, the others as they were. */
  function StampClaimable(records: seq<RecordDoc>, typeId: Short, signature: string, timeout: int, maxFails: int, now: int)
    : seq<RecordDoc>
  {
    seq(|records|, j requires 0 <= j < |records| => StampIfClaimable(records[j], typeId, signature, timeout, maxFails, now))
  }

  /** The records claimable at `now`, stamped, in collection order. */
  function ClaimedDocs(records: seq<RecordDoc>, typeId: Short, signature: string, timeout: int, maxFails: int, now: int)
    : seq<RecordDoc>
    decreases |records|
  {
    if records == [] then []
    else
      var n := |records| - 1;
      ClaimedDocs(records[..n], typeId, signature, timeout, maxFails, now)
        + (if Claimable(records[n], typeId, timeout, maxFails, now) then [Apply(AsProcessing(signature, now), records[n])] else [])
  }

  /** Stamping the claimed record changes nothing in what a whole pass leaves behind. */
  lemma ClaimStepKeepsStamped(records: seq<RecordDoc>, i: nat, typeId: Short, signature: string, timeout: int, maxFails: int, now: int)
    requires i < |records| && Claimable(records[i], typeId, timeout, maxFails, now)
    ensures var after := records[i := Apply(AsProcessing(signature, now), records[i])];
      StampClaimable(after, typeId, signature, timeout, maxFails, now) == StampClaimable(records, typeId, signature, timeout, maxFails, now)
  {
    StampedNotClaimable(records[i], signature, typeId, timeout, maxFails, now);
  }

  /** Stamping the last record, when it is the one claimed, takes it out of those still to be claimed. */
  lemma ClaimLastClaimedDocs(records: seq<RecordDoc>, typeId: Short, signature: string, timeout: int, maxFails: int, now: int)
    requires records != [] && Claimable(records[|records| - 1], typeId, timeout, maxFails, now)
    ensures var n := |records| - 1;
      var s := Apply(AsProcessing(signature, now), records[n]);
      multiset(ClaimedDocs(records[n := s], typeId, signature, timeout, maxFails, now)) + multiset{s}
        == multiset(ClaimedDocs(records, typeId, signature, timeout, maxFails, now))
  {
    var n := |records| - 1;
    var s := Apply(AsProcessing(signature, now), records[n]);
    StampedNotClaimable(records[n], signature, typeId, timeout, maxFails, now);
    assert records[n := s][..n] == records[..n];
  }

  /** Stamping the claimed record takes exactly that stamped record out of those still to be claimed. */
  lemma {:induction false} ClaimStepClaimedDocs(records: seq<RecordDoc>, i: nat, typeId: Short, signature: string, timeout: int, maxFails: int, now: int)
    requires i < |records| && Claimable(records[i], typeId, timeout, maxFails, now)
    ensures var s := Apply(AsProcessing(signature, now), records[i]);
      multiset(ClaimedDocs(records[i := s], typeId, signature, timeout, maxFails, now)) + multiset{s}
        == multiset(ClaimedDocs(records, typeId, signature, timeout, maxFails, now))
    decreases |records|
  {
    var n := |records| - 1;
    if i < n {
      var s := Apply(AsProcessing(signature, now), records[i]);
      var after := records[i := s];
      assert after[..n] == records[..n][i := s] && after[n] == records[n];
      var last := if Claimable(records[n], typeId, timeout, maxFails, now) then [Apply(AsProcessing(signature, now), records[n])] else [];
      assert ClaimedDocs(after, typeId, signature, timeout, maxFails, now)
        == ClaimedDocs(records[..n][i := s], typeId, signature, timeout, maxFails, now) + last;
      assert ClaimedDocs(records, typeId, signature, timeout, maxFails, now)
        == ClaimedDocs(records[..n], typeId, signature, timeout, maxFails, now) + last;
      ClaimStepClaimedDocs(records[..n], i, typeId, signature, timeout, maxFails, now);
    } else {
      ClaimLastClaimedDocs(records, typeId, signature, timeout, maxFails, now);
    }
  }

  /** With nothing claimable there is nothing to stamp and nothing to claim. */
  lemma {:induction false} NothingToStamp(records: seq<RecordDoc>, typeId: Short, signature: string, timeout: int, maxFails: int, now: int)
    requires NoneClaimable(records, typeId, timeout, maxFails, now)
    ensures StampClaimable(records, typeId, signature, timeout, maxFails, now) == records
    ensures ClaimedDocs(records, typeId, signature, timeout, maxFails, now) == []
    decreases |records|
  {
    if records != [] {
      var n := |records| - 1;
      assert forall j :: 0 <= j < n ==> records[..n][j] == records[j];
      NothingToStamp(records[..n], typeId, signature, timeout, maxFails, now);
    }
  }

  /**
   * What a recovery pass promises: it claims every record that was
   * claimable, each exactly once and stamped PROCESSING under this
   * signature at `now`; every other record stays as it was, ids stay
   * unique, and nothing claimable is left.
   */
  lemma {:induction false} RecoveryPassSpec(records: seq<RecordDoc>, typeId: Short, signature: string, timeout: int, maxFails: int, now: int)
    requires UniqueIds(records)
    ensures var (replayed, after) := RecoveryPass(records, typeId, signature, timeout, maxFails, now);
      && after == StampClaimable(records, typeId, signature, timeout, maxFails, now)
      && multiset(replayed) == multiset(ClaimedDocs(records, typeId, signature, timeout, maxFails, now))
      && |replayed| == ClaimableCount(records, typeId, timeout, maxFails, now)
      && UniqueIds(after) && NoneClaimable(after, typeId, timeout, maxFails, now)
    decreases ClaimableCount(records, typeId, timeout, maxFails, now)
  {
    ClaimSpec(records, typeId, signature, timeout, maxFails, now);
    var c := Claim(records, typeId, signature, timeout, maxFails, now);
    if c.0.None? {
      NothingToStamp(records, typeId, signature, timeout, maxFails, now);
    } else {
      var i :| ClaimedAt(records, i, c.0.value, c.1, typeId, signature, timeout, maxFails, now);
      RecoveryPassSpec(c.1, typeId, signature, timeout, maxFails, now);
      ClaimStepKeepsStamped(records, i, typeId, signature, timeout, maxFails, now);
      ClaimStepClaimedDocs(records, i, typeId, signature, timeout, maxFails, now);
    }
  }

  /** A replay task for the worker `w`, holding a record read back as `d`, its type looked up from `d`. */
  predicate ReplayOf(t: RecoverableAsyncTask, d: RecordDoc, w: object)
    reads if t.kind.ReplayTask? then {t.kind.record} else {}
  {
    t.kind.ReplayTask? && t.kind.record.doc == d && t.worker == w && t.taskType == FromId(d.typeId)
  }

  /** The record objects a list of replay tasks hold. */
  function ReplayRecords(tasks: seq<RecoverableAsyncTask>): set<RecoveryRecord> {
    set k | 0 <= k < |tasks| && tasks[k].kind.ReplayTask? :: tasks[k].kind.record
  }

  /** `tasks` are replay tasks for `w` of the documents `docs`, one each and in order. */
  ghost predicate Replays(tasks: seq<RecoverableAsyncTask>, docs: seq<RecordDoc>, w: object)
    reads ReplayRecords(tasks)
  {
    |tasks| == |docs| && forall k :: 0 <= k < |tasks| ==> ReplayOf(tasks[k], docs[k], w)
  }

  /** DefaultAsyncService. */
  class DefaultAsyncService {
    const config: AsyncConfig
    const signature: string
    const executor: Option<Executor> := ExecutorFor(config.processingThreadPoolSize, config.asyncTasksMaxQueueSize)
    /** A recovery timer is scheduled only with an executor and a poll time that is not negative. */
    const hasRecoveryTimer: bool
    /** The recovery collection. */
    var records: seq<RecordDoc>
    /** The tasks handed to the executor, in order. */
    var dispatched: seq<RecoverableAsyncTask>
    var workerTaskTypeId: Short
    var worker: Option<object>

    ghost predicate Valid()
      reads this
    {
      UniqueIds(records)
    }

    /**
     * The constructor, over an existing collection: the configured signature
     * or else the runtime's name, an executor when threads are configured,
     * and a recovery timer when there is an executor to feed.
     */
    constructor (config: AsyncConfig, runtimeName: string, stored: seq<RecordDoc>)
      requires UniqueIds(stored)
      ensures Valid() && records == stored && dispatched == [] && worker.None? && workerTaskTypeId == 0
      ensures this.config == config
      ensures signature == if config.serviceSignature == [] then runtimeName else config.serviceSignature
      ensures executor == ExecutorFor(config.processingThreadPoolSize, config.asyncTasksMaxQueueSize)
      ensures hasRecoveryTimer <==> executor.Some? && config.recoveryPollTime >= 0
    {
      this.config := config;
      this.signature := if config.serviceSignature == [] then runtimeName else config.serviceSignature;
      var made := ExecutorFor(config.processingThreadPoolSize, config.asyncTasksMaxQueueSize);
      this.hasRecoveryTimer := made.Some? && config.recoveryPollTime >= 0;
      this.records := stored;
      this.dispatched := [];
      this.workerTaskTypeId := 0;
      this.worker := None;
    }

    /** `isProcessingLocally`. */
    predicate IsProcessingLocally(): (r: bool)
      ensures r <==> config.processingThreadPoolSize > 0
    {
      executor.Some?
    }

    /**
     * `submitTask`: fetch (or build) the task's record, mark it PROCESSING
     * by this service when it will run here, write it, and only then hand
     * the task to the executor. A rejected write (an id already stored, or
     * a write the server does not acknowledge) raises
     * CANNOT_WRITE_RECOVERY_RECORD and the task does not run.
     */
    method SubmitTask(task: RecoverableAsyncTask, newId: ObjectId, now: int, acknowledged: bool) returns (r: Outcome<Failure>)
      requires Valid() && task.Valid()
      modifies this, task, task.Footprint()
      ensures Valid() && task.Valid()
      ensures unchanged(`workerTaskTypeId) && unchanged(`worker)
      ensures var built := old(task.PendingRecord(newId, now));
        var written := if IsProcessingLocally() then Marked(built, signature) else built;
        && task.recoveryRecord.Some? && task.recoveryRecord.value.doc == written
        && (r.Fail? <==> HasId(old(records), written.id) || !acknowledged)
        && (r.Fail? ==> r.error == WriteFailure && records == old(records) && dispatched == old(dispatched))
        && (r.Pass? ==> records == old(records) + [written])
        && (r.Pass? ==> dispatched == old(dispatched) + (if IsProcessingLocally() then [task] else []))
    {
      var record := task.GetRecoveryRecord(newId, now);
      if IsProcessingLocally() {
        record.MarkAsProcessing(signature);
      }
      var doc := record.doc;
      if HasId(records, doc.id) || !acknowledged {
        return Fail(WriteFailure);
      }
      assert UniqueIds(records + [doc]) by {
        forall i, j | 0 <= i < j < |records| + 1 ensures (records + [doc])[i].id != (records + [doc])[j].id {
          if j == |records| {
            assert (records + [doc])[i] == records[i];
          }
        }
      }
      records := records + [doc];
      if IsProcessingLocally() {
        dispatched := dispatched + [task];
      }
      r := Pass;
    }

    /** `taskComplete`: delete the task's record. */
    method TaskComplete(task: RecoverableAsyncTask, newId: ObjectId, now: int)
      requires Valid() && task.Valid()
      modifies this, task
      ensures Valid() && task.Valid()
      ensures unchanged(`dispatched) && unchanged(`workerTaskTypeId) && unchanged(`worker)
      ensures records == DeleteOne(old(records), old(task.PendingRecord(newId, now)).id)
      ensures forall d :: d in records <==> d in old(records) && d.id != old(task.PendingRecord(newId, now)).id
    {
      var record := task.GetRecoveryRecord(newId, now);
      DeleteOneRemovesExactly(records, record.doc.id);
      records := DeleteOne(records, record.doc.id);
    }

    /** `taskFailed`: mark the task's record FAILED at `now` and count the failure. */
    method TaskFailed(task: RecoverableAsyncTask, newId: ObjectId, now: int)
      requires Valid() && task.Valid()
      modifies this, task
      ensures Valid() && task.Valid()
      ensures unchanged(`dispatched) && unchanged(`workerTaskTypeId) && unchanged(`worker)
      ensures records == FindOneAndUpdate(old(records), FindById(old(task.PendingRecord(newId, now)).id), AsFailed(now)).1
    {
      var record := task.GetRecoveryRecord(newId, now);
      UpdateKeepsIds(records, FindById(record.doc.id), AsFailed(now));
      records := FindOneAndUpdate(records, FindById(record.doc.id), AsFailed(now)).1;
    }

    /**
     * `taskRejected`: when rejected tasks are persisted and the task does not
     * insist on running, its record goes back to AVAILABLE; otherwise the task
     * runs inline (`call` is what it hands its worker, `runThrew` whether that
     * threw) and its outcome is reported as the executor would, which
     * dereferences null when there is no executor.
     */
    method TaskRejected(task: RecoverableAsyncTask, newId: ObjectId, now: int, runThrew: bool)
      returns (call: Option<WorkerCall>, r: Outcome<Failure>)
      requires Valid() && task.Valid()
      modifies this, task
      ensures Valid() && task.Valid()
      ensures unchanged(`dispatched) && unchanged(`workerTaskTypeId) && unchanged(`worker)
      ensures var id := old(task.PendingRecord(newId, now)).id;
        config.persistRejectedTasks && !task.SynchronousOnReject() ==>
          && call.None? && r.Pass?
          && records == FindOneAndUpdate(old(records), FindById(id), AsAvailable(now)).1
      ensures var id := old(task.PendingRecord(newId, now)).id;
        !(config.persistRejectedTasks && !task.SynchronousOnReject()) ==>
          && call == Some(task.Run())
          && (executor.None? ==> r == Fail(NullDereference) && records == old(records))
          && (executor.Some? && runThrew ==> r.Pass? && records == FindOneAndUpdate(old(records), FindById(id), AsFailed(now)).1)
          && (executor.Some? && !runThrew ==> r.Pass? && records == DeleteOne(old(records), id))
    {
      if config.persistRejectedTasks && !task.SynchronousOnReject() {
        var record := task.GetRecoveryRecord(newId, now);
        UpdateKeepsIds(records, FindById(record.doc.id), AsAvailable(now));
        records := FindOneAndUpdate(records, FindById(record.doc.id), AsAvailable(now)).1;
        return None, Pass;
      }
      call := Some(task.Run());
      if executor.None? {
        return call, Fail(NullDereference);
      }
      if runThrew {
        TaskFailed(task, newId, now);
      } else {
        TaskComplete(task, newId, now);
      }
      r := Pass;
    }

    /** `registerRecoveryService`: one type and one worker, replacing any earlier registration. */
    method RegisterRecoveryService(taskType: TaskType, w: object)
      modifies this
      ensures workerTaskTypeId == TypeId(taskType) && worker == Some(w)
      ensures unchanged(`records) && unchanged(`dispatched)
    {
      workerTaskTypeId := TypeId(taskType);
      worker := Some(w);
    }

    /** `getTaskToRecover`, without the upsert flag (see ClaimAsWritten for the flag's effect). */
    method GetTaskToRecover(now: int) returns (claimed: Option<RecordDoc>)
      requires Valid()
      modifies `records
      ensures Valid()
      ensures (claimed, records) == Claim(old(records), workerTaskTypeId, signature, config.failureRecoveryTimeout, config.maxTaskFailures, now)
    {
      ClaimSpec(records, workerTaskTypeId, signature, config.failureRecoveryTimeout, config.maxTaskFailures, now);
      var stamp := AsProcessing(signature, now);
      var document: Option<RecordDoc> := None;
      var after := records;
      if config.failureRecoveryTimeout > 0 {
        var found := FindOneAndUpdate(records, FindTimedOut(workerTaskTypeId, config.failureRecoveryTimeout, now), stamp);
        document, after := found.0, found.1;
      }
      if document.None? {
        var found := FindOneAndUpdate(records, FindEligible(workerTaskTypeId, config.maxTaskFailures), stamp);
        document, after := found.0, found.1;
      }
      records := after;
      claimed := document;
    }

    /**
     * One turn of the claim loop: the executor accepts a replay task for the
     * document `d`, rebuilt as a record, then the next claim is made.
     */
    method ReplayAndClaim(w: object, d: RecordDoc, now: int, ghost tasks: seq<RecoverableAsyncTask>, ghost docs: seq<RecordDoc>)
      returns (task: RecoverableAsyncTask, next: Option<RecordDoc>)
      requires Valid() && Replays(tasks, docs, w)
      modifies `records, `dispatched
      ensures Valid()
      ensures dispatched == old(dispatched) + [task] && Replays(tasks + [task], docs + [d], w)
      ensures (next, records) == Claim(old(records), workerTaskTypeId, signature, config.failureRecoveryTimeout, config.maxTaskFailures, now)
    {
      var record := new RecoveryRecord.FromDocument(d);
      task := new RecoverableAsyncTask.Replay(w, record);
      dispatched := dispatched + [task];
      assert ReplayOf(task, d, w);
      assert forall k :: 0 <= k < |tasks| ==> (tasks + [task])[k] == tasks[k];
      assert Replays(tasks + [task], docs + [d], w);
      next := GetTaskToRecover(now);
    }

    /** The claim loop of `recoverTasks`: replay what each claim returns until one comes back empty. */
    method ReplayClaimed(w: object, now: int) returns (replayed: seq<RecordDoc>)
      requires Valid() && worker == Some(w)
      modifies `records, `dispatched
      ensures Valid()
      ensures (replayed, records) == RecoveryPass(old(records), workerTaskTypeId, signature, config.failureRecoveryTimeout, config.maxTaskFailures, now)
      ensures |old(dispatched)| <= |dispatched| && dispatched[..|old(dispatched)|] == old(dispatched)
      ensures Replays(dispatched[|old(dispatched)|..], replayed, w)
    {
      var typeId, timeout, maxFails := workerTaskTypeId, config.failureRecoveryTimeout, config.maxTaskFailures;
      ghost var spec := RecoveryPass(records, typeId, signature, timeout, maxFails, now);
      ghost var tasks: seq<RecoverableAsyncTask> := [];
      replayed := [];
      PassFromClaim(records, typeId, signature, timeout, maxFails, now);
      var recoveredTask := GetTaskToRecover(now);
      while recoveredTask.Some?
        invariant Valid() && worker == Some(w) && workerTaskTypeId == typeId
        invariant dispatched == old(dispatched) + tasks && Replays(tasks, replayed, w)
        invariant var rest := PassFrom(recoveredTask, records, typeId, signature, timeout, maxFails, now);
          replayed + rest.0 == spec.0 && rest.1 == spec.1
        decreases ClaimableCount(records, typeId, timeout, maxFails, now) + (if recoveredTask.Some? then 1 else 0)
      {
        PassFromClaim(records, typeId, signature, timeout, maxFails, now);
        var claimed := recoveredTask.value;
        var task;
        task, recoveredTask := ReplayAndClaim(w, claimed, now, tasks, replayed);
        Seqs.AppendAssoc(old(dispatched), tasks, [task]);
        Seqs.AppendAssoc(replayed, [claimed], PassFrom(recoveredTask, records, typeId, signature, timeout, maxFails, now).0);
        tasks := tasks + [task];
        replayed := replayed + [claimed];
      }
      assert replayed + [] == replayed;
      assert dispatched[..|old(dispatched)|] == old(dispatched) && dispatched[|old(dispatched)|..] == tasks;
    }

    /**
     * `recoverTasks`, one timer firing with the clock held at `now`: while a
     * worker is registered, claim records and hand a replay task for each to
     * the executor until a claim comes back empty. The pass is the
     * RecoveryPass of the collection: every claimable record is replayed
     * once, stamped, and nothing claimable is left. Without a timer the
     * synchronized block dereferences null.
     */
    method RecoverTasks(now: int) returns (r: Outcome<Failure>, replayed: seq<RecordDoc>)
      requires Valid()
      modifies this
      ensures Valid()
      ensures unchanged(`workerTaskTypeId) && unchanged(`worker)
      ensures r.Fail? <==> !hasRecoveryTimer
      ensures r.Fail? || worker.None? ==> records == old(records) && dispatched == old(dispatched) && replayed == []
      ensures r.Pass? && worker.Some? ==>
        (replayed, records) == RecoveryPass(old(records), workerTaskTypeId, signature, config.failureRecoveryTimeout, config.maxTaskFailures, now)
      ensures r.Pass? && worker.Some? ==>
        && records == StampClaimable(old(records), workerTaskTypeId, signature, config.failureRecoveryTimeout, config.maxTaskFailures, now)
        && multiset(replayed) == multiset(ClaimedDocs(old(records), workerTaskTypeId, signature, config.failureRecoveryTimeout, config.maxTaskFailures, now))
        && |replayed| == ClaimableCount(old(records), workerTaskTypeId, config.failureRecoveryTimeout, config.maxTaskFailures, now)
        && NoneClaimable(records, workerTaskTypeId, config.failureRecoveryTimeout, config.maxTaskFailures, now)
      ensures |dispatched| == |old(dispatched)| + |replayed| && dispatched[..|old(dispatched)|] == old(dispatched)
      ensures worker.Some? ==> Replays(dispatched[|old(dispatched)|..], replayed, worker.value)
    {
      replayed := [];
      if !hasRecoveryTimer {
        return Fail(NullDereference), replayed;
      }
      r := Pass;
      if worker.None? {
        return;
      }
      var w := worker.value;
      ghost var start := records;
      replayed := ReplayClaimed(w, now);
      RecoveryPassSpec(start, workerTaskTypeId, signature, config.failureRecoveryTimeout, config.maxTaskFailures, now);
    }
  }
}
