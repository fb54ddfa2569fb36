/**
 * AsyncPostDelivery: a feed service wrapper that decides, post by post,
 * whether the wrapped service fans the post out at once or a post task is
 * queued on the async service; and the worker that later delivers a queued
 * post, from the task itself or from its recovery record.
 */
module PostDelivery {
  import opened Wrappers
  import opened Api
  import opened InMemoryUserService
  import opened InMemoryContentService
  import opened RecoveryRecords
  import opened AsyncTasks
  import opened AsyncTaskService

  /** AsyncPostDeliveryConfiguration. */
  datatype DeliveryConfig = DeliveryConfig(asyncFanoutThreshold: int)

  const DefaultDeliveryConfig := DeliveryConfig(200)

  /** A call of the wrapped feed service's `post`; the content may be null. */
  datatype PostCall = PostCall(sender: User, content: Option<Content>)

  class AsyncPostDelivery {
    const config: DeliveryConfig
    const userService: UserStore
    const contentService: ContentStore
    const asyncService: DefaultAsyncService

    /** The constructor registers the new object as the worker for FEED_POST_FANOUT tasks. */
    constructor (userGraph: UserStore, content: ContentStore, asyncService: DefaultAsyncService, config: DeliveryConfig)
      modifies asyncService
      ensures this.config == config && this.userService == userGraph
      ensures this.contentService == content && this.asyncService == asyncService
      ensures asyncService.workerTaskTypeId == TypeId(FeedPostFanout) && asyncService.worker == Some(this)
      ensures asyncService.records == old(asyncService.records) && asyncService.dispatched == old(asyncService.dispatched)
    {
      this.config := config;
      this.userService := userGraph;
      this.contentService := content;
      this.asyncService := asyncService;
      new;
      asyncService.RegisterRecoveryService(FeedPostFanout, this);
    }

    /**
     * Whether `post` queues the post: always when no threshold is set,
     * without looking at the sender; otherwise exactly when the sender has
     * more followers than the threshold, and a sender without a follower
     * set dereferences null.
     */
    function Queues(sender: User): (r: Result<bool, Failure>)
      reads userService
      ensures config.asyncFanoutThreshold <= 0 ==> r == Success(true)
      ensures config.asyncFanoutThreshold > 0 ==>
        (r.Failure? <==> sender.userId !in userService.followerIndex)
      ensures config.asyncFanoutThreshold > 0 && r.Success? ==>
        (r.value <==> |userService.followerIndex[sender.userId]| > config.asyncFanoutThreshold)
    {
      if config.asyncFanoutThreshold > 0 then
        var fanout := CountIn(userService.followerIndex, sender);
        if fanout.Failure? then Failure(fanout.error)
        else Success(fanout.value.count > config.asyncFanoutThreshold)
      else Success(true)
    }

    /**
     * `post`: below the threshold, the wrapped service's `post` is called
     * (the call is returned) and nothing is queued; otherwise a post task is
     * submitted, which writes its record and hands it to the executor, and
     * the wrapped service is not called.
     */
    method Post(sender: User, content: Content, newId: ObjectId, now: int, acknowledged: bool)
      returns (r: Result<Option<PostCall>, Failure>)
      requires asyncService.Valid()
      modifies asyncService
      ensures asyncService.Valid()
      ensures Queues(sender).Failure? ==>
        && r == Failure(Queues(sender).error)
        && asyncService.records == old(asyncService.records) && asyncService.dispatched == old(asyncService.dispatched)
      ensures Queues(sender) == Success(false) ==>
        && r == Success(Some(PostCall(sender, Some(content))))
        && asyncService.records == old(asyncService.records) && asyncService.dispatched == old(asyncService.dispatched)
      ensures Queues(sender) == Success(true) ==>
        var built := NewRecord(newId, TypeId(FeedPostFanout), PriorityNormal, Some(PostData(sender, content)), now);
        var written := if asyncService.IsProcessingLocally() then Marked(built, asyncService.signature) else built;
        && (r.Failure? <==> HasId(old(asyncService.records), newId) || !acknowledged)
        && (r.Failure? ==> r.error == WriteFailure && asyncService.records == old(asyncService.records))
        && (r.Success? ==> r.value.None? && asyncService.records == old(asyncService.records) + [written])
        && (r.Success? ==> |asyncService.dispatched| == |old(asyncService.dispatched)| + (if asyncService.IsProcessingLocally() then 1 else 0))
    {
      var queues := Queues(sender);
      if queues.Failure? {
        return Failure(queues.error);
      }
      if !queues.value {
        return Success(Some(PostCall(sender, Some(content))));
      }
      var postTask := new RecoverableAsyncTask.Post(this, sender, content);
      var submitted := asyncService.SubmitTask(postTask, newId, now, acknowledged);
      if submitted.Fail? {
        return Failure(submitted.error);
      }
      r := Success(None);
    }

    /**
     * `handleTask(record)`: the sender and the content id rebuilt from the
     * record, the content looked up by id (null when unknown), and the
     * wrapped service's `post` called with them. A null content id fails the
     * lookup.
     */
    function HandleRecord(record: RecordDoc): (r: Result<PostCall, Failure>)
      reads contentService
      ensures UserFromRecord(record).Failure? ==> r == Failure(UserFromRecord(record).error)
      ensures r.Success? ==>
        && UserFromRecord(record) == Success(r.value.sender)
        && ContentIdFromRecord(record).Success? && ContentIdFromRecord(record).value.Some?
        && r.value.content == contentService.GetContentById(ContentIdFromRecord(record).value.value)
    {
      var user := UserFromRecord(record);
      if user.Failure? then Failure(user.error)
      else
        var cid := ContentIdFromRecord(record);
        if cid.Failure? then Failure(cid.error)
        else if cid.value.None? then Failure(NullDereference)
        else Success(PostCall(user.value, contentService.GetContentById(cid.value.value)))
    }

    /** `handleTask(task)`: the task's own sender and content; a task that is not a post task fails the cast. */
    function HandleTask(task: RecoverableAsyncTask): (r: Result<PostCall, Failure>)
      ensures task.kind.PostTask? ==> r == Success(PostCall(task.kind.sender, Some(task.kind.content)))
      ensures task.kind.ReplayTask? ==> r == Failure(ClassCast)
    {
      if task.kind.PostTask? then Success(PostCall(task.kind.sender, Some(task.kind.content)))
      else Failure(ClassCast)
    }

    /** What the worker does with what a task's `run` hands it. */
    function Handle(call: WorkerCall): (r: Result<PostCall, Failure>)
      reads contentService, if call.HandleRecord? then {call.record} else {}
    {
      if call.HandleTask? then HandleTask(call.task) else HandleRecord(call.record.doc)
    }
  }

  /**
   * A post delivered from its recovery record is the post delivered from
   * its task, once the content is stored under its id: same sender id, same
   * content. Only the sender's extra data is lost on the way.
   */
  lemma {:induction false} ReplayDeliversSamePost(d: AsyncPostDelivery, task: RecoverableAsyncTask, record: RecordDoc)
    requires task.kind.PostTask?
    requires record.data == Some(PostData(task.kind.sender, task.kind.content))
    requires d.contentService.GetContentById(AnchorOf(task.kind.content).(author := None)) == Some(task.kind.content)
    ensures d.HandleTask(task).Success? && d.HandleRecord(record).Success?
    ensures var direct := d.HandleTask(task).value;
      d.HandleRecord(record) == Success(PostCall(direct.sender.(data := None), direct.content))
  {
    PostDataRoundTrip(record, task.kind.sender, task.kind.content);
  }

  /**
   * Queued or delivered at once, the same post reaches the wrapped service:
   * a post task the executor runs later hands the worker exactly the
   * sender and content that a direct `post` would have passed on.
   */
  lemma QueuedPostMatchesDirect(d: AsyncPostDelivery, sender: User, content: Content, task: RecoverableAsyncTask)
    requires task.kind == PostTask(sender, content)
    ensures task.Run() == HandleTask(task)
    ensures d.Handle(task.Run()) == Success(PostCall(sender, Some(content)))
  {
  }
}
