/** Comments on posts (`CommentService`): rows that point at their post,
    author-only edits and deletes, and the post's `commentCount` counter kept
    alongside. */
module Comments {
  import opened Common
  import opened Tables
  import opened Sorting
  import opened Entities

  type CommentId = nat

  /** One row of the `comments` table; it refers to its post as the
      entity's `@ManyToOne` field does. */
  datatype Comment = Comment(id: CommentId, post: Post, author: UserId, content: string, createdAt: int)

  function CommentRowId(c: Comment): CommentId
  {
    c.id
  }

  function CreatedAt(c: Comment): int
  {
    c.createdAt
  }

  /** `findByPostIdOrderByCreatedAtAsc`: the post's comments, oldest first. */
  function CommentsOf(comments: seq<Comment>, postId: PostId): (r: seq<Comment>)
    ensures SortedBy(r, CreatedAt)
    ensures multiset(r) == multiset(Filter(comments, (c: Comment) => c.post.id == postId))
  {
    var mine := Filter(comments, (c: Comment) => c.post.id == postId);
    SortBySpec(mine, CreatedAt);
    SortBy(mine, CreatedAt)
  }

  /** `findById` on the comment table. */
  function FindComment(comments: seq<Comment>, id: CommentId): (r: Option<nat>)
    ensures r.Some? ==> r.value < |comments| && comments[r.value].id == id
    ensures r.None? ==> forall i :: 0 <= i < |comments| ==> comments[i].id != id
  {
    FindFirst(comments, (c: Comment) => c.id == id)
  }

  /** The post of the comment with that id, as a frame. */
  function PostOfComment(comments: seq<Comment>, id: CommentId): set<Post>
  {
    match FindComment(comments, id)
    case None => {}
    case Some(k) => {comments[k].post}
  }

  /** What `getComments` answers: the comments and their number. */
  datatype CommentList = CommentList(comments: seq<Comment>, total: nat)

  class CommentService {
    var comments: seq<Comment>
    var nextId: CommentId

    /** Comment ids come from an identity column. */
    ghost predicate Valid()
      reads this
    {
      && (forall i :: 0 <= i < |comments| ==> comments[i].id < nextId)
      && UniqueBy(comments, CommentRowId)
    }

    constructor ()
      ensures Valid() && comments == []
    {
      comments, nextId := [], 0;
    }

    /** `getComments`: the post's comments, oldest first, with their count. */
    method GetComments(postId: PostId) returns (r: CommentList)
      ensures r.total == |r.comments|
      ensures SortedBy(r.comments, CreatedAt)
      ensures forall c :: c in r.comments <==> c in comments && c.post.id == postId
      ensures multiset(r.comments) == multiset(Filter(comments, (c: Comment) => c.post.id == postId))
    {
      var list := CommentsOf(comments, postId);
      var mine := Filter(comments, (c: Comment) => c.post.id == postId);
      assert forall c :: c in list <==> c in multiset(mine);
      r := CommentList(list, |list|);
    }

    /** `createComment`: the user is looked up before the post, both failing
        with `IllegalArgumentException`; on success one comment is stored and
        the post's comment counter goes up by one. */
    method CreateComment(userId: UserId, postId: PostId, content: string, now: int,
                         users: set<UserId>, posts: map<PostId, Post>)
      returns (r: Result<Comment>)
      requires Valid()
      modifies this`comments, this`nextId, PostSet(posts, postId)`commentCount
      ensures Valid()
      ensures userId !in users ==> r == Err(IllegalArgument)
      ensures userId in users && postId !in posts ==> r == Err(IllegalArgument)
      ensures r.Ok? <==> userId in users && postId in posts
      ensures r.Err? ==> comments == old(comments) && (postId in posts ==> unchanged(posts[postId]))
      ensures r.Ok? ==>
        && r.value == Comment(old(nextId), posts[postId], userId, content, now)
        && comments == old(comments) + [r.value]
        && posts[postId].commentCount == old(posts[postId].commentCount) + 1
    {
      if userId !in users {
        return Err(IllegalArgument);
      }
      if postId !in posts {
        return Err(IllegalArgument);
      }
      var post := posts[postId];
      var comment := Comment(nextId, post, userId, content, now);
      forall y | y in comments ensures CommentRowId(y) != CommentRowId(comment) {
      }
      AppendUniqueBy(comments, comment, CommentRowId);
      comments := comments + [comment];
      nextId := nextId + 1;
      post.IncrementComments();
      r := Ok(comment);
    }

    /** `updateComment`: a missing comment and a caller who is not its
        author both fail with `IllegalArgumentException`; otherwise only the
        content of that one comment is replaced. */
    method UpdateComment(userId: UserId, commentId: CommentId, content: string)
      returns (r: Result<Comment>)
      requires Valid()
      modifies this`comments
      ensures Valid()
      ensures FindComment(old(comments), commentId).None? ==> r == Err(IllegalArgument)
      ensures r.Err? ==> comments == old(comments) && r == Err(IllegalArgument)
      ensures r.Ok? <==>
        (exists i :: 0 <= i < |old(comments)| && old(comments)[i].id == commentId && old(comments)[i].author == userId)
      ensures r.Ok? ==>
        var k := FindComment(old(comments), commentId).value;
        && r.value == old(comments)[k].(content := content)
        && comments == old(comments)[k := r.value]
    {
      var found := FindComment(comments, commentId);
      if found.None? {
        return Err(IllegalArgument);
      }
      var k := found.value;
      ForAuthorOnly(comments, commentId, k);
      if comments[k].author != userId {
        return Err(IllegalArgument);
      }
      var updated := comments[k].(content := content);
      UniqueByPointwise(comments, comments[k := updated], CommentRowId);
      comments := comments[k := updated];
      r := Ok(updated);
    }

    /** `deleteComment`: a missing comment and a caller who is not its
        author both fail with `IllegalArgumentException` and remove nothing;
        otherwise the comment is deleted and its post's comment counter goes
        down by one, floored at zero. */
    method DeleteComment(userId: UserId, commentId: CommentId) returns (r: Outcome)
      requires Valid()
      modifies this`comments, PostOfComment(comments, commentId)`commentCount
      ensures Valid()
      ensures FindComment(old(comments), commentId).None? ==> r == Fail(IllegalArgument)
      ensures r.Fail? ==> comments == old(comments) && r == Fail(IllegalArgument)
      ensures r.Fail? ==> forall p :: p in PostOfComment(old(comments), commentId) ==> unchanged(p)
      ensures r == Done <==>
        (exists i :: 0 <= i < |old(comments)| && old(comments)[i].id == commentId && old(comments)[i].author == userId)
      ensures r == Done ==>
        var k := FindComment(old(comments), commentId).value;
        var post := old(comments)[k].post;
        && comments == RemoveAt(old(comments), k)
        && post.commentCount == FloorDecrement(old(post.commentCount))
    {
      var found := FindComment(comments, commentId);
      if found.None? {
        return Fail(IllegalArgument);
      }
      var k := found.value;
      ForAuthorOnly(comments, commentId, k);
      if comments[k].author != userId {
        return Fail(IllegalArgument);
      }
      var post := comments[k].post;
      RemoveAtUniqueBy(comments, k, CommentRowId);
      comments := RemoveAt(comments, k);
      post.DecrementComments();
      r := Done;
    }
  }

  /** With unique ids, the comment found is the only one carrying the id, so
      "the caller wrote the comment with this id" is a property of that row. */
  lemma ForAuthorOnly(comments: seq<Comment>, id: CommentId, k: nat)
    requires UniqueBy(comments, CommentRowId)
    requires k < |comments| && comments[k].id == id
    ensures forall i :: 0 <= i < |comments| && comments[i].id == id ==> i == k
  {
    forall i | 0 <= i < |comments| && i != k ensures comments[i].id != id {
      assert CommentRowId(comments[i]) != CommentRowId(comments[k]);
    }
  }
}
