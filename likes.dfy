/** Likes on posts (`PostLikeService`): a table of (post, user) rows that
    toggling inserts into or deletes from, with the post's `likeCount`
    counter kept alongside. */
module Likes {
  import opened Common
  import opened Tables
  import opened Entities

  /** One row of the `post_likes` table. */
  datatype Like = Like(post: PostId, user: UserId)

  function LikeKey(l: Like): Like
  {
    l
  }

  /** `existsByPostIdAndUserId`. */
  predicate Liked(likes: seq<Like>, post: PostId, user: UserId)
  {
    Like(post, user) in likes
  }

  /** `deleteByPostIdAndUserId`: every row for that post and user goes. */
  function Unlike(likes: seq<Like>, post: PostId, user: UserId): (r: seq<Like>)
    ensures !Liked(r, post, user)
    ensures forall l :: l in r <==> l in likes && l != Like(post, user)
  {
    Filter(likes, (l: Like) => l != Like(post, user))
  }

  /** The table after the post's likes are deleted with it: no row for
      the post is left, and every row for another post stays. */
  function DropPostLikes(likes: seq<Like>, post: PostId): (r: seq<Like>)
    ensures forall user :: !Liked(r, post, user)
    ensures forall l :: l in r <==> l in likes && l.post != post
  {
    Filter(likes, (l: Like) => l.post != post)
  }

  /** The table after one toggle: the row is deleted when present and
      appended when absent. */
  function Toggled(likes: seq<Like>, post: PostId, user: UserId): (r: seq<Like>)
    ensures Liked(r, post, user) <==> !Liked(likes, post, user)
    ensures forall l :: l != Like(post, user) ==> (l in r <==> l in likes)
  {
    if Liked(likes, post, user) then Unlike(likes, post, user) else likes + [Like(post, user)]
  }

  /** The like counter after one toggle, with the floored decrement. */
  function ToggledCount(liked: bool, count: int): int
  {
    if liked then FloorDecrement(count) else count + 1
  }

  /** Toggling twice from "not liked" gives back the same table and the
      same (non-negative) counter. */
  lemma ToggleTwice(likes: seq<Like>, post: PostId, user: UserId, count: int)
    requires !Liked(likes, post, user) && count >= 0
    ensures Toggled(Toggled(likes, post, user), post, user) == likes
    ensures ToggledCount(true, ToggledCount(false, count)) == count
  {
    var keep := (l: Like) => l != Like(post, user);
    FilterAppend(likes, Like(post, user), keep);
    FilterAll(likes, keep);
    DecrementUndoesIncrement(count);
  }

  /** The number of likes stored for one post (`countByPost`). */
  function LikesOf(likes: seq<Like>, post: PostId): nat
  {
    |Filter(likes, (l: Like) => l.post == post)|
  }

  /** With one row per (post, user), a toggle moves the number of rows for
      the post by exactly one, which is what the counter does as long as it
      agrees with the table. */
  lemma {:induction false} ToggleMovesCountByOne(likes: seq<Like>, post: PostId, user: UserId)
    requires UniqueBy(likes, LikeKey)
    ensures LikesOf(Toggled(likes, post, user), post) ==
      if Liked(likes, post, user) then LikesOf(likes, post) - 1 else LikesOf(likes, post) + 1
  {
    var ofPost := (l: Like) => l.post == post;
    if Liked(likes, post, user) {
      UnlikeCount(likes, post, user);
    } else {
      FilterAppend(likes, Like(post, user), ofPost);
    }
  }

  lemma {:induction false} UnlikeCount(likes: seq<Like>, post: PostId, user: UserId)
    requires UniqueBy(likes, LikeKey)
    requires Liked(likes, post, user)
    ensures LikesOf(Unlike(likes, post, user), post) == LikesOf(likes, post) - 1
  {
    var ofPost := (l: Like) => l.post == post;
    var x := Like(post, user);
    var i :| 0 <= i < |likes| && likes[i] == x;
    assert likes == likes[..i] + [x] + likes[i + 1..];
    assert x !in likes[..i] && x !in likes[i + 1..] by {
      forall j | 0 <= j < |likes| && j != i ensures likes[j] != x {
        assert LikeKey(likes[j]) != LikeKey(likes[i]);
      }
    }
    SplitFilterCount(likes[..i], likes[i + 1..], x, post);
  }

  /** Counting after deleting the one row x that sits between a and b. */
  lemma {:induction false} SplitFilterCount(a: seq<Like>, b: seq<Like>, x: Like, post: PostId)
    requires x.post == post && x !in a && x !in b
    ensures LikesOf(Unlike(a + [x] + b, x.post, x.user), post) == LikesOf(a + [x] + b, post) - 1
  {
    var ofPost := (l: Like) => l.post == post;
    var other := (l: Like) => l != x;
    if a == [] {
      assert Filter([x] + b, other) == Filter(b, other);
      assert ([x] + b)[1..] == b;
      UnlikeAbsent(b, x, post);
    } else {
      assert (a + [x] + b)[1..] == a[1..] + [x] + b;
      SplitFilterCount(a[1..], b, x, post);
    }
  }

  /** Deleting a row that is not there changes no count. */
  lemma {:induction false} UnlikeAbsent(b: seq<Like>, x: Like, post: PostId)
    requires x !in b
    ensures LikesOf(Unlike(b, x.post, x.user), post) == LikesOf(b, post)
  {
    FilterAll(b, (l: Like) => l != x);
  }

  /** The result `toggleLike` reports. */
  datatype LikeResult = LikeResult(isLiked: bool, likeCount: int)

  class PostLikeService {
    var likes: seq<Like>

    /** Toggling never stores a second row for the same post and user. */
    ghost predicate Valid()
      reads this
    {
      UniqueBy(likes, LikeKey)
    }

    constructor ()
      ensures Valid() && likes == []
    {
      likes := [];
    }

    /** `toggleLike(userId, postId)`: the user is looked up before the post,
        both failing with `IllegalArgumentException`. An existing like is
        deleted and the counter decremented (floored); otherwise one like is
        added and the counter incremented. The counter reported is the
        post's counter after the change. */
    method ToggleLike(userId: UserId, postId: PostId, users: set<UserId>, posts: map<PostId, Post>)
      returns (r: Result<LikeResult>)
      requires Valid()
      modifies this`likes, PostSet(posts, postId)`likeCount
      ensures Valid()
      ensures userId !in users ==> r == Err(IllegalArgument)
      ensures userId in users && postId !in posts ==> r == Err(IllegalArgument)
      ensures r.Ok? <==> userId in users && postId in posts
      ensures r.Err? ==> likes == old(likes) && (postId in posts ==> unchanged(posts[postId]))
      ensures r.Ok? ==>
        && likes == Toggled(old(likes), postId, userId)
        && posts[postId].likeCount == ToggledCount(Liked(old(likes), postId, userId), old(posts[postId].likeCount))
        && r.value == LikeResult(!Liked(old(likes), postId, userId), posts[postId].likeCount)
        && (r.value.isLiked <==> Liked(likes, postId, userId))
    {
      if userId !in users {
        return Err(IllegalArgument);
      }
      if postId !in posts {
        return Err(IllegalArgument);
      }
      var post := posts[postId];
      var isLiked: bool;
      if Like(postId, userId) in likes {
        FilterUniqueBy(likes, (l: Like) => l != Like(postId, userId), LikeKey);
        likes := Unlike(likes, postId, userId);
        post.DecrementLikes();
        isLiked := false;
      } else {
        forall y | y in likes ensures LikeKey(y) != LikeKey(Like(postId, userId)) {
        }
        AppendUniqueBy(likes, Like(postId, userId), LikeKey);
        likes := likes + [Like(postId, userId)];
        post.IncrementLikes();
        isLiked := true;
      }
      r := Ok(LikeResult(isLiked, post.likeCount));
    }

    /** `isLikedByUser`: false without a user, otherwise whether the
        (post, user) row exists. */
    method IsLikedByUser(postId: PostId, userId: Option<UserId>) returns (r: bool)
      ensures userId.None? ==> !r
      ensures userId.Some? ==> (r <==> Liked(likes, postId, userId.value))
    {
      if userId.None? {
        return false;
      }
      r := Like(postId, userId.value) in likes;
    }
  }
}
