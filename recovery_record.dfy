/**
 * RecoveryRecord, AsyncTaskType and AsyncTaskState: the document the async
 * service keeps for every queued task, the updates it applies to that
 * document, and the queries that select a document to recover. Wall-clock
 * time is a parameter `now` (milliseconds).
 */
module RecoveryRecords {
  import opened Wrappers
  import opened Api

  /** A Java `short`. */
  type Short = x: int | -0x8000 <= x < 0x8000

  const PriorityLow: Short := -0x8000
  const PriorityNormal: Short := 0
  const PriorityHigh: Short := 0x7fff

  /** AsyncTaskType: the one kind of task there is. */
  datatype TaskType = FeedPostFanout

  /** `id()`: the type's id, which `fromId` maps back to the type. */
  function TypeId(t: TaskType): (r: Short)
    ensures FromId(r) == Some(t)
  {
    match t
    case FeedPostFanout => 0
  }

  /** `fromId`: the type whose id is `typeId`, or null when there is none. */
  function FromId(typeId: Short): (r: Option<TaskType>)
    ensures r.Some? <==> typeId == 0
  {
    if typeId == 0 then Some(FeedPostFanout) else None
  }

  /** Whatever type `fromId` finds carries the id it was asked for. */
  lemma TypeIdInvertsFromId(typeId: Short)
    ensures FromId(typeId).Some? ==> TypeId(FromId(typeId).value) == typeId
  {
  }

  /** AsyncTaskState. Nothing in the service ever writes COMPLETE or DEAD. */
  datatype TaskState = Available | Processing | Complete | Failed | Dead

  /** The payload under `_d`; a key mapped to None holds a stored null. */
  type RecoveryData = map<string, Option<Value>>

  /**
   * The stored document: `_id`, `_t`, `_p`, `_s`, `_w` (absent until a
   * worker claims it), `_l`, `_f` and `_d` (absent when built without data).
   */
  datatype RecordDoc = RecordDoc(
    id: ObjectId,
    typeId: Short,
    priority: Short,
    state: TaskState,
    worker: Option<string>,
    lastTimestamp: int,
    failedCount: int,
    data: Option<RecoveryData>)

  /** The filters of `findTimedOut`, `findEligible` and `findById`. */
  datatype Query =
    | FindTimedOut(typeId: Short, timeout: int, now: int)
    | FindEligible(typeId: Short, maxFails: int)
    | FindById(id: ObjectId)

  predicate Matches(q: Query, r: RecordDoc) {
    match q
    case FindTimedOut(typeId, timeout, now) =>
      r.typeId == typeId && r.state == Processing && r.lastTimestamp < now - timeout
    case FindEligible(typeId, maxFails) =>
      r.typeId == typeId && r.state != Processing && r.failedCount < maxFails
    case FindById(id) => r.id == id
  }

  /**
   * `new RecoveryRecord(typeId, priority, data)` given the new ObjectId and
   * the clock: AVAILABLE, never failed, unclaimed, so any recovery pass for
   * its type that allows at least one failure may pick it up, and no
   * timeout can catch it.
   */
  function NewRecord(id: ObjectId, typeId: Short, priority: Short, data: Option<RecoveryData>, now: int): (r: RecordDoc)
    ensures r.id == id && r.typeId == typeId && r.priority == priority && r.data == data
    ensures r.lastTimestamp == now && r.worker.None?
    ensures forall maxFails :: maxFails > 0 ==> Matches(FindEligible(typeId, maxFails), r)
    ensures forall timeout, later :: !Matches(FindTimedOut(typeId, timeout, later), r)
  {
    RecordDoc(id, typeId, priority, Available, None, now, 0, data)
  }

  /** `markAsProcessing(signature)` on the in-memory document: the clock and the failure count are left alone. */
  function Marked(r: RecordDoc, signature: string): RecordDoc {
    r.(state := Processing, worker := Some(signature))
  }

  /** The update documents `updateAsFailed`, `updateAsAvailable` and `updateAsProcessing`, each stamped with `now`. */
  datatype Update =
    | AsFailed(now: int)
    | AsAvailable(now: int)
    | AsProcessing(signature: string, now: int)

  /**
   * Applying one update: the identity, type, priority and payload stay, the
   * clock is stamped, only a failure adds (exactly one) to the count, and
   * no update ends in COMPLETE or DEAD.
   */
  function Apply(u: Update, r: RecordDoc): (r': RecordDoc)
    ensures r'.id == r.id && r'.typeId == r.typeId && r'.priority == r.priority && r'.data == r.data
    ensures r'.lastTimestamp == u.now
    ensures r'.failedCount == r.failedCount + (if u.AsFailed? then 1 else 0)
    ensures r'.state != Complete && r'.state != Dead
  {
    match u
    case AsFailed(now) => r.(state := Failed, lastTimestamp := now, failedCount := r.failedCount + 1)
    case AsAvailable(now) => r.(state := Available, lastTimestamp := now)
    case AsProcessing(signature, now) => r.(state := Processing, worker := Some(signature), lastTimestamp := now)
  }

  /** A history of updates, oldest first. */
  function ApplyAll(us: seq<Update>, r: RecordDoc): RecordDoc
    decreases |us|
  {
    if us == [] then r else ApplyAll(us[1..], Apply(us[0], r))
  }

  /** How many of the updates are failures. */
  function Failures(us: seq<Update>): nat
    decreases |us|
  {
    if us == [] then 0 else (if us[0].AsFailed? then 1 else 0) + Failures(us[1..])
  }

  /** Over any history the failure count grows by exactly the number of failures, and the record keeps its identity. */
  lemma {:induction false} ApplyAllCounts(us: seq<Update>, r: RecordDoc)
    ensures ApplyAll(us, r).failedCount == r.failedCount + Failures(us)
    ensures ApplyAll(us, r).id == r.id && ApplyAll(us, r).typeId == r.typeId
    ensures ApplyAll(us, r).priority == r.priority && ApplyAll(us, r).data == r.data
    decreases |us|
  {
    if us != [] {
      ApplyAllCounts(us[1..], Apply(us[0], r));
    }
  }

  /** No history of updates leaves a record COMPLETE or DEAD that was not so already. */
  lemma {:induction false} ApplyAllNeverRetires(us: seq<Update>, r: RecordDoc)
    requires r.state != Complete && r.state != Dead
    ensures ApplyAll(us, r).state != Complete && ApplyAll(us, r).state != Dead
    decreases |us|
  {
    if us != [] {
      ApplyAllNeverRetires(us[1..], Apply(us[0], r));
    }
  }

  /**
   * A record that has used up its failures is never eligible again, whatever
   * happens to it: DEAD is never written, so the count is the only way out.
   */
  lemma ExhaustedNeverEligible(us: seq<Update>, r: RecordDoc, typeId: Short, maxFails: int)
    requires r.failedCount >= maxFails
    ensures !Matches(FindEligible(typeId, maxFails), ApplyAll(us, r))
  {
    ApplyAllCounts(us, r);
  }

  /** The two recovery queries never select the same record. */
  lemma EligibleAndTimedOutDisjoint(r: RecordDoc, typeId: Short, maxFails: int, timeout: int, now: int)
    ensures !(Matches(FindEligible(typeId, maxFails), r) && Matches(FindTimedOut(typeId, timeout, now), r))
  {
  }

  /** A record just claimed at `now` matches neither recovery query at `now`, for any timeout that is not negative. */
  lemma ClaimedNotReclaimable(r: RecordDoc, signature: string, now: int, typeId: Short, maxFails: int, timeout: int)
    requires timeout >= 0
    ensures !Matches(FindEligible(typeId, maxFails), Apply(AsProcessing(signature, now), r))
    ensures !Matches(FindTimedOut(typeId, timeout, now), Apply(AsProcessing(signature, now), r))
  {
  }

  /** A RecoveryRecord object: its document, which `markAsProcessing` changes in place. */
  class RecoveryRecord {
    var doc: RecordDoc

    /** `new RecoveryRecord(typeId, priority, data)`. */
    constructor (id: ObjectId, typeId: Short, priority: Short, data: Option<RecoveryData>, now: int)
      ensures doc == NewRecord(id, typeId, priority, data, now)
    {
      doc := NewRecord(id, typeId, priority, data, now);
    }

    /** `new RecoveryRecord(document)`: a record read back from the collection. */
    constructor FromDocument(document: RecordDoc)
      ensures doc == document
    {
      doc := document;
    }

    /** `markAsProcessing(signature)`. */
    method MarkAsProcessing(signature: string)
      modifies this
      ensures doc == Marked(old(doc), signature)
      ensures doc.state == Processing && doc.failedCount == old(doc).failedCount
      ensures doc.lastTimestamp == old(doc).lastTimestamp
    {
      doc := doc.(state := Processing, worker := Some(signature));
    }
  }
}
