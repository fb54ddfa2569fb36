/**
 * FanoutOnRead: the feed strategy that stores nothing of its own. A post is
 * only kept by the content service; a feed is assembled at read time by
 * merging the posts of everyone the reader follows.
 */
module FanoutOnReadFeed {
  import opened Wrappers
  import opened Api
  import opened FeedOrder
  import opened InMemoryUserService
  import opened InMemoryContentService

  class FanoutOnRead {
    const content: ContentStore
    const usergraph: UserStore
    /** `fanout_limit`; the in-memory user service ignores it. */
    const fanoutLimit: int

    constructor (usergraph: UserStore, content: ContentStore, fanoutLimit: int)
      ensures this.usergraph == usergraph && this.content == content && this.fanoutLimit == fanoutLimit
    {
      this.usergraph := usergraph;
      this.content := content;
      this.fanoutLimit := fanoutLimit;
    }

    /** `post`: nothing to do, the content service already holds the post. */
    method Post(sender: User, c: Content)
      ensures unchanged(content) && unchanged(usergraph)
    {
    }

    /** `getPostsBy(user, anchor, limit)`: the author's own page, future anchors allowed. */
    method GetPostsBy(user: User, anchor: Option<ContentId>, limit: int) returns (r: seq<Content>)
      requires content.Valid()
      ensures r == Extract(content.ListOf(user), anchor, limit, true)
    {
      r := content.GetContentFor(user, anchor, limit);
    }

    /**
     * `getFeedFor(user, anchor, limit)`: the merged page of every followee's
     * posts, or a null dereference when the user has no followee set.
     */
    method GetFeedFor(user: User, anchor: Option<ContentId>, limit: int) returns (r: Result<seq<Content>, Failure>)
      requires content.Valid()
      ensures r.Failure? <==> user.userId !in usergraph.followingIndex
      ensures r.Failure? ==> r.error == NullDereference
      ensures r.Success? ==> FeedOver(r.value, content.userContentLists, usergraph.followingIndex[user.userId], anchor, limit)
    {
      var following := usergraph.GetFollowing(user, fanoutLimit);
      if following.Failure? {
        return Failure(following.error);
      }
      var page := content.GetContentForUsers(following.value, anchor, limit);
      r := Success(page);
    }

    /** `getPostsBy(user, limit)`: the three-argument read with no anchor. */
    method GetLatestPostsBy(user: User, limit: int) returns (r: seq<Content>)
      requires content.Valid()
      ensures r == Extract(content.ListOf(user), None, limit, true)
    {
      r := GetPostsBy(user, None, limit);
    }

    /** `getFeedFor(user, limit)`: the three-argument read with no anchor. */
    method GetLatestFeedFor(user: User, limit: int) returns (r: Result<seq<Content>, Failure>)
      requires content.Valid()
      ensures r.Failure? <==> user.userId !in usergraph.followingIndex
      ensures r.Success? ==> FeedOver(r.value, content.userContentLists, usergraph.followingIndex[user.userId], None, limit)
    {
      r := GetFeedFor(user, None, limit);
    }
  }
}
