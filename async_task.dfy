/**
 * RecoverableAsyncTask and its two kinds: AsyncPostTask, a post waiting to
 * be fanned out, which builds its recovery record on first request; and
 * AsyncReplayTask, a task rebuilt from a record read back from the
 * recovery collection.
 */
module AsyncTasks {
  import opened Wrappers
  import opened Api
  import opened Validators
  import opened RecoveryRecords

  /** The payload keys of a post task: the sender's id and the content's id. */
  const SenderKey := "u"
  const ContentIdKey := "c"

  /** AsyncPostTask's `buildRecoveryData`. */
  function PostData(sender: User, content: Content): (d: RecoveryData)
    ensures d.Keys == {SenderKey, ContentIdKey}
  {
    map[SenderKey := StrValue(sender.userId), ContentIdKey := Some(Oid(content.id))]
  }

  /**
   * `getUserFromRecord`: a bare user carrying the stored sender id (null
   * when the key is missing or null). A record without data dereferences
   * null; a sender that is not a string fails the cast.
   */
  function UserFromRecord(r: RecordDoc): (u: Result<User, Failure>)
    ensures r.data.None? ==> u == Failure(NullDereference)
    ensures u.Success? ==> u.value.data.None?
    ensures u.Success? && u.value.userId.Some? ==> SenderKey in r.data.value && r.data.value[SenderKey] == Some(Str(u.value.userId.value))
  {
    if r.data.None? then Failure(NullDereference)
    else if SenderKey !in r.data.value || r.data.value[SenderKey].None? then Success(User(None, None))
    else match r.data.value[SenderKey].value
      case Str(s) => Success(User(Some(s), None))
      case _ => Failure(ClassCast)
  }

  /**
   * `getContentIdFromRecord`: a content id with the stored ObjectId and no
   * author; None stands for a content id whose `_id` is null (the key is
   * missing or null). A record without data dereferences null; a value
   * that is not an ObjectId fails the cast.
   */
  function ContentIdFromRecord(r: RecordDoc): (c: Result<Option<ContentId>, Failure>)
    ensures r.data.None? ==> c == Failure(NullDereference)
    ensures c.Success? && c.value.Some? ==>
      c.value.value.author.None? && ContentIdKey in r.data.value && r.data.value[ContentIdKey] == Some(Oid(c.value.value.id))
  {
    if r.data.None? then Failure(NullDereference)
    else if ContentIdKey !in r.data.value || r.data.value[ContentIdKey].None? then Success(None)
    else match r.data.value[ContentIdKey].value
      case Oid(id) => Success(Some(ContentId(id, None)))
      case _ => Failure(ClassCast)
  }

  /** A post task's payload reads back as its sender's id and its content's id. */
  lemma {:induction false} PostDataRoundTrip(r: RecordDoc, sender: User, content: Content)
    requires r.data == Some(PostData(sender, content))
    ensures UserFromRecord(r) == Success(User(sender.userId, None))
    ensures ContentIdFromRecord(r) == Success(Some(ContentId(content.id, None)))
  {
    var d := PostData(sender, content);
    assert d[ContentIdKey] == Some(Oid(content.id));
    if sender.userId.Some? {
      assert d[SenderKey] == Some(Str(sender.userId.value));
    } else {
      assert d[SenderKey].None?;
    }
  }

  /** What `run` hands to the worker: the task itself, or the stored record. */
  datatype WorkerCall = HandleTask(task: RecoverableAsyncTask) | HandleRecord(record: RecoveryRecord)

  /** The subclass a task belongs to. */
  datatype TaskKind =
    | PostTask(sender: User, content: Content)
    | ReplayTask(record: RecoveryRecord)

  /** RecoverableAsyncTask, with the overrides of whichever subclass it is. */
  class RecoverableAsyncTask {
    const worker: object
    const taskType: Option<TaskType>
    const kind: TaskKind
    var recoveryRecord: Option<RecoveryRecord>

    /** A post task has a type; a replay task holds its record from construction on. */
    ghost predicate Valid()
      reads this
    {
      && (kind.PostTask? ==> taskType == Some(FeedPostFanout))
      && (kind.ReplayTask? ==> recoveryRecord == Some(kind.record))
    }

    /** The record objects the task holds. */
    function Footprint(): set<object>
      reads this
    {
      if recoveryRecord.Some? then {recoveryRecord.value} else {}
    }

    /** `new AsyncPostTask(worker, sender, content)`. */
    constructor Post(worker: object, sender: User, content: Content)
      ensures Valid() && this.worker == worker
      ensures kind == PostTask(sender, content) && recoveryRecord.None?
    {
      this.worker := worker;
      this.taskType := Some(FeedPostFanout);
      this.kind := PostTask(sender, content);
      this.recoveryRecord := None;
    }

    /** `new AsyncReplayTask(worker, record)`: the type is looked up from the record's type id. */
    constructor Replay(worker: object, record: RecoveryRecord)
      ensures Valid() && this.worker == worker && kind == ReplayTask(record)
      ensures taskType == FromId(record.doc.typeId)
    {
      this.worker := worker;
      this.taskType := FromId(record.doc.typeId);
      this.kind := ReplayTask(record);
      this.recoveryRecord := Some(record);
    }

    /** `getPriority`: PRIORITY_NORMAL for a post, the stored priority for a replay. */
    function GetPriority(): (p: Short)
      reads if kind.ReplayTask? then {kind.record} else {}
      ensures kind.PostTask? ==> p == PriorityNormal
      ensures kind.ReplayTask? ==> p == kind.record.doc.priority
    {
      if kind.PostTask? then PriorityNormal else kind.record.doc.priority
    }

    /** `buildRecoveryData`: the sender and content ids for a post, the stored payload for a replay. */
    function BuildRecoveryData(): (d: Option<RecoveryData>)
      reads if kind.ReplayTask? then {kind.record} else {}
      ensures kind.PostTask? ==> d == Some(PostData(kind.sender, kind.content))
      ensures kind.ReplayTask? ==> d == kind.record.doc.data
    {
      if kind.PostTask? then Some(PostData(kind.sender, kind.content)) else kind.record.doc.data
    }

    /** `synchronousOnReject`: false, except that a replay runs inline when rejected. */
    function SynchronousOnReject(): (b: bool)
      ensures b <==> kind.ReplayTask?
    {
      kind.ReplayTask?
    }

    /** `run`: a post hands the task itself to the worker, a replay hands over the record. */
    function Run(): (call: WorkerCall)
      ensures kind.PostTask? ==> call == HandleTask(this)
      ensures kind.ReplayTask? ==> call == HandleRecord(kind.record)
    {
      if kind.PostTask? then HandleTask(this) else HandleRecord(kind.record)
    }

    /** The document `getRecoveryRecord` answers with next: the held one, or the one it would build now. */
    function PendingRecord(newId: ObjectId, now: int): RecordDoc
      requires Valid()
      reads this, Footprint()
    {
      if recoveryRecord.Some? then recoveryRecord.value.doc
      else NewRecord(newId, TypeId(taskType.value), GetPriority(), BuildRecoveryData(), now)
    }

    /**
     * `getRecoveryRecord`: the record held, or, on the first call, a new
     * record of the task's type, priority and payload, which is kept and
     * answered from then on. A replay task's record is never rebuilt.
     */
    method GetRecoveryRecord(newId: ObjectId, now: int) returns (record: RecoveryRecord)
      requires Valid()
      modifies this
      ensures Valid() && recoveryRecord == Some(record)
      ensures old(recoveryRecord).Some? ==> record == old(recoveryRecord).value
      ensures old(recoveryRecord).None? ==> fresh(record)
      ensures record.doc == old(PendingRecord(newId, now))
      ensures kind.ReplayTask? ==> record == kind.record
    {
      if recoveryRecord.None? {
        var priority := GetPriority();
        var typeId := TypeId(taskType.value);
        var data := BuildRecoveryData();
        var built := new RecoveryRecord(newId, typeId, priority, data, now);
        recoveryRecord := Some(built);
      }
      record := recoveryRecord.value;
    }
  }

  /** A post task's first record: a FEED_POST_FANOUT record of normal priority, available, unfailed, carrying the post. */
  lemma PostTaskRecord(task: RecoverableAsyncTask, newId: ObjectId, now: int)
    requires task.Valid() && task.kind.PostTask? && task.recoveryRecord.None?
    ensures var r := task.PendingRecord(newId, now);
      && r.typeId == TypeId(FeedPostFanout) && FromId(r.typeId) == Some(FeedPostFanout)
      && r.priority == PriorityNormal && r.state == Available && r.failedCount == 0
      && r.data == Some(PostData(task.kind.sender, task.kind.content))
  {
  }
}
