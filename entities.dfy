/** The `Post` and `Tag` entities: counters that are bumped in place, with
    decrements floored at zero, and the many-to-many link between posts and
    tags that both sides keep as a list. Entities are compared by reference,
    which is what `List.remove` does on the posts and tags the persistence
    context hands out. */
module Entities {
  import opened Common
  import opened Tables

  type PostId = nat
  type UserId = nat
  type CategoryId = nat

  /** The post stored under id, as a frame: empty when there is none. */
  function PostSet(posts: map<PostId, Post>, id: PostId): set<Post>
  {
    if id in posts then {posts[id]} else {}
  }

  /** The decrement every counter of these entities uses: one less, unless
      the counter is not positive, in which case it stays put. */
  function FloorDecrement(n: int): int
  {
    if n > 0 then n - 1 else n
  }

  /** A floored decrement takes off at most one, takes off exactly one
      precisely when the counter is positive, and never leaves a
      non-negative counter negative. */
  lemma FloorDecrementBounds(n: int)
    ensures n - 1 <= FloorDecrement(n) <= n
    ensures FloorDecrement(n) < n <==> n > 0
    ensures n >= 0 ==> FloorDecrement(n) >= 0
  {
  }

  /** An increment followed by a decrement restores a counter. */
  lemma DecrementUndoesIncrement(n: int)
    requires n >= 0
    ensures FloorDecrement(n + 1) == n
  {
  }

  /** A decrement below zero is impossible: at zero it changes nothing. */
  lemma DecrementAtZero()
    ensures FloorDecrement(0) == 0
  {
  }

  /** k floored decrements in a row: from a non-negative start, k less but
      never below zero. */
  function DecrementTimes(n: int, k: nat): (r: int)
    ensures n >= 0 ==> r == if n >= k then n - k else 0
  {
    if k == 0 then n else FloorDecrement(DecrementTimes(n, k - 1))
  }

  class Tag {
    const name: string
    var useCount: int
    var posts: seq<Post>

    /** A tag built without a use count starts at 0, linked to no post. */
    constructor (name: string)
      ensures this.name == name && useCount == 0 && posts == []
    {
      this.name := name;
      useCount := 0;
      posts := [];
    }

    method IncrementUseCount()
      modifies this`useCount
      ensures useCount == old(useCount) + 1
    {
      useCount := useCount + 1;
    }

    method DecrementUseCount()
      modifies this`useCount
      ensures useCount == FloorDecrement(old(useCount))
    {
      if useCount > 0 {
        useCount := useCount - 1;
      }
    }
  }

  class Post {
    const id: PostId
    const author: UserId
    var title: string
    var content: string
    var category: Option<CategoryId>
    var views: int
    var likeCount: int
    var commentCount: int
    var isSecret: bool
    /** The encoded password, if one was set. */
    var secretPassword: Option<string>
    var tags: seq<Tag>
    /** The stored file names of its attachments; uploads are not modelled,
        so the services only read this list. */
    var attachments: seq<string>

    /** The builder defaults: every counter at 0, no tag, no attachment. */
    constructor (id: PostId, author: UserId, title: string, content: string,
                 category: Option<CategoryId>, isSecret: bool, secretPassword: Option<string>)
      ensures this.id == id && this.author == author
      ensures this.title == title && this.content == content && this.category == category
      ensures this.isSecret == isSecret && this.secretPassword == secretPassword
      ensures views == 0 && likeCount == 0 && commentCount == 0 && tags == [] && attachments == []
    {
      this.id, this.author := id, author;
      this.title, this.content, this.category := title, content, category;
      this.isSecret, this.secretPassword := isSecret, secretPassword;
      views, likeCount, commentCount := 0, 0, 0;
      tags, attachments := [], [];
    }

    method IncrementViews()
      modifies this`views
      ensures views == old(views) + 1
    {
      views := views + 1;
    }

    method IncrementLikes()
      modifies this`likeCount
      ensures likeCount == old(likeCount) + 1
    {
      likeCount := likeCount + 1;
    }

    method DecrementLikes()
      modifies this`likeCount
      ensures likeCount == FloorDecrement(old(likeCount))
    {
      if likeCount > 0 {
        likeCount := likeCount - 1;
      }
    }

    /** The second name the entity offers for the same increment. */
    method IncrementLikeCount()
      modifies this`likeCount
      ensures likeCount == old(likeCount) + 1
    {
      IncrementLikes();
    }

    /** The second name the entity offers for the same floored decrement. */
    method DecrementLikeCount()
      modifies this`likeCount
      ensures likeCount == FloorDecrement(old(likeCount))
    {
      DecrementLikes();
    }

    method IncrementComments()
      modifies this`commentCount
      ensures commentCount == old(commentCount) + 1
    {
      commentCount := commentCount + 1;
    }

    method DecrementComments()
      modifies this`commentCount
      ensures commentCount == FloorDecrement(old(commentCount))
    {
      if commentCount > 0 {
        commentCount := commentCount - 1;
      }
    }

    /** `addTag`: link both sides and count one more use; a tag already
        linked is linked again. */
    method AddTag(tag: Tag)
      modifies this`tags, tag`posts, tag`useCount
      ensures tags == old(tags) + [tag]
      ensures tag.posts == old(tag.posts) + [this]
      ensures tag.useCount == old(tag.useCount) + 1
    {
      tags := tags + [tag];
      tag.posts := tag.posts + [this];
      tag.IncrementUseCount();
    }

    /** `removeTag`: unlink one occurrence on each side and count one use
        less (floored), even when the tag was not linked at all. */
    method RemoveTag(tag: Tag)
      modifies this`tags, tag`posts, tag`useCount
      ensures tags == RemoveFirst(old(tags), tag)
      ensures tag.posts == RemoveFirst(old(tag.posts), this)
      ensures tag.useCount == FloorDecrement(old(tag.useCount))
    {
      tags := RemoveFirst(tags, tag);
      tag.posts := RemoveFirst(tag.posts, this);
      tag.DecrementUseCount();
    }

    /** `clearTags`: `removeTag` once per entry of a copy of the tag list, so
        a tag linked k times loses k uses and k links back to this post. */
    method ClearTags()
      modifies this`tags, tags
      ensures tags == []
      ensures forall t :: t in old(tags) ==>
        t.useCount == DecrementTimes(old(t.useCount), Occurrences(old(tags), t))
      ensures forall t :: t in old(tags) ==>
        t.posts == RemoveFirstTimes(old(t.posts), this, Occurrences(old(tags), t))
    {
      var copy := tags;
      for i := 0 to |copy|
        invariant copy == old(tags)
        invariant tags == copy[i..]
        invariant forall t :: t in copy ==> t.useCount == DecrementTimes(old(t.useCount), Occurrences(copy[..i], t))
        invariant forall t :: t in copy ==> t.posts == RemoveFirstTimes(old(t.posts), this, Occurrences(copy[..i], t))
      {
        var tag := copy[i];
        assert tags == [tag] + copy[i + 1..];
        assert copy[..i + 1][..i] == copy[..i];
        ghost var k := Occurrences(copy[..i], tag);
        assert Occurrences(copy[..i + 1], tag) == k + 1;
        RemoveTag(tag);
        assert tags == copy[i + 1..];
        assert tag.posts == RemoveFirstTimes(old(tag.posts), this, k + 1);
        assert tag.useCount == DecrementTimes(old(tag.useCount), k + 1);
        forall t | t in copy && t != tag
          ensures Occurrences(copy[..i + 1], t) == Occurrences(copy[..i], t)
        {
        }
      }
      assert copy[..|copy|] == copy;
    }
  }
}
