/** The post service (`PostService`): sort parsing and query selection for
    listings, who sees a secret post in full, and the author-only changes to
    a post, its tags and its likes. */
module Posts {
  import opened Common
  import opened Tables
  import opened Entities
  import opened TagRegistry
  import opened Likes

  // ---------------------------------------------------------------------
  // Sort parsing
  // ---------------------------------------------------------------------

  datatype Direction = Asc | Desc

  /** `Sort.by(direction, property)`. */
  datatype SortSpec = SortSpec(direction: Direction, property: string)

  /** A listing without a sort parameter shows the newest posts first. */
  const DEFAULT_SORT := SortSpec(Desc, "createdAt")

  /** `Character.isWhitespace`: the Unicode space separators other than the
      no-break spaces, and the ASCII controls TAB to CR and FS to US. */
  predicate JavaWhitespace(c: char)
  {
    || c == ' ' || '\t' <= c <= '\r' || '\U{001C}' <= c <= '\U{001F}'
    || c == '\U{1680}' || '\U{2000}' <= c <= '\U{2006}' || '\U{2008}' <= c <= '\U{200A}'
    || c == '\U{2028}' || c == '\U{2029}' || c == '\U{205F}' || c == '\U{3000}'
  }

  /** `StringUtils.hasText`: at least one character that is not white space.
      `Sort.Order` refuses a property without text. */
  predicate HasText(s: string)
  {
    exists i :: 0 <= i < |s| && !JavaWhitespace(s[i])
  }

  /** The `sort` parameter, `property[,direction]`: the first comma field is
      the property, and the direction is ascending only when a second field
      reads "asc" in any case. Reading the first field of a parameter made of
      commas only fails with an index out of bounds, answered with 500; a
      property without text is refused by `Sort.by` with an
      `IllegalArgumentException`, answered with 400. */
  function ParseSort(sort: Option<string>): (r: Result<SortSpec>)
    ensures sort.None? || sort == Some([]) ==> r == Ok(DEFAULT_SORT)
    ensures r.Ok? ==> HasText(r.value.property)
    ensures r.Err? ==> r.error == Internal || r.error == IllegalArgument
  {
    if sort.None? || sort.value == [] then
      assert DEFAULT_SORT.property[0] == 'c';
      Ok(DEFAULT_SORT)
    else
      var fields := JavaSplit(sort.value, ',');
      if fields == [] then Err(Internal)
      else if !HasText(fields[0]) then Err(IllegalArgument)
      else
        var ascending := |fields| > 1 && EqualsIgnoreCase(fields[1], "asc");
        Ok(SortSpec(if ascending then Asc else Desc, fields[0]))
  }

  /** A bare property with text is sorted descending; one without text is
      refused. */
  lemma ParseSortOfProperty(property: string)
    requires property != [] && ',' !in property
    ensures HasText(property) ==> ParseSort(Some(property)) == Ok(SortSpec(Desc, property))
    ensures !HasText(property) ==> ParseSort(Some(property)) == Err(IllegalArgument)
  {
  }

  /** `property,direction` gives back a property with text, ascending
      exactly when the direction is "asc" in any case and descending for
      every other word; an empty or blank property is refused. */
  lemma ParseSortOfPair(property: string, direction: string)
    requires ',' !in property && ',' !in direction && direction != []
    ensures HasText(property) ==>
      ParseSort(Some(property + "," + direction)) ==
        Ok(SortSpec(if EqualsIgnoreCase(direction, "asc") then Asc else Desc, property))
    ensures !HasText(property) ==> ParseSort(Some(property + "," + direction)) == Err(IllegalArgument)
  {
    var s := property + "," + direction;
    assert s == property + [','] + direction;
    assert s[|property|] == ',';
    FieldsOfPair(property, direction, ',');
  }

  /** A parameter made of commas only is an error. */
  lemma ParseSortOfCommas(sort: string)
    requires sort != [] && forall i :: 0 <= i < |sort| ==> sort[i] == ','
    ensures ParseSort(Some(sort)) == Err(Internal)
  {
    assert sort[0] == ',';
    FieldsOfSeparators(sort, ',');
    DropAllEmpty(Fields(sort, ','));
  }

  // ---------------------------------------------------------------------
  // Query selection
  // ---------------------------------------------------------------------

  /** The eight repository queries a listing can run, one per combination
      of keyword, category and tag filters. */
  datatype PostQuery =
    | SearchByKeywordAndCategoryIdAndTagName(keyword: string, categoryId: CategoryId, tagName: string)
    | SearchByKeywordAndCategoryId(keyword: string, categoryId: CategoryId)
    | SearchByKeywordAndTagName(keyword: string, tagName: string)
    | SearchByKeyword(keyword: string)
    | FindByCategoryIdAndTagName(categoryId: CategoryId, tagName: string)
    | FindByCategoryId(categoryId: CategoryId)
    | FindByTagName(tagName: string)
    | FindAll

  function KeywordOf(q: PostQuery): Option<string>
  {
    if q.SearchByKeywordAndCategoryIdAndTagName? || q.SearchByKeywordAndCategoryId?
       || q.SearchByKeywordAndTagName? || q.SearchByKeyword?
    then Some(q.keyword) else None
  }

  function CategoryOf(q: PostQuery): Option<CategoryId>
  {
    if q.SearchByKeywordAndCategoryIdAndTagName? || q.SearchByKeywordAndCategoryId?
       || q.FindByCategoryIdAndTagName? || q.FindByCategoryId?
    then Some(q.categoryId) else None
  }

  function TagOf(q: PostQuery): Option<string>
  {
    if q.SearchByKeywordAndCategoryIdAndTagName? || q.SearchByKeywordAndTagName?
       || q.FindByCategoryIdAndTagName? || q.FindByTagName?
    then Some(q.tagName) else None
  }

  /** A text of blank characters only (including the empty text). */
  predicate Blank(s: string)
  {
    forall i :: 0 <= i < |s| ==> IsBlankChar(s[i])
  }

  /** The query `getPosts` runs for its filters. */
  function SelectQuery(keyword: Option<string>, categoryId: Option<CategoryId>, tagName: Option<string>): PostQuery
  {
    var hasKeyword := keyword.Some? && Trim(keyword.value) != [];
    var hasTag := tagName.Some? && tagName.value != [];
    if hasKeyword then
      if categoryId.Some? && hasTag then SearchByKeywordAndCategoryIdAndTagName(keyword.value, categoryId.value, tagName.value)
      else if categoryId.Some? then SearchByKeywordAndCategoryId(keyword.value, categoryId.value)
      else if hasTag then SearchByKeywordAndTagName(keyword.value, tagName.value)
      else SearchByKeyword(keyword.value)
    else
      if categoryId.Some? && hasTag then FindByCategoryIdAndTagName(categoryId.value, tagName.value)
      else if categoryId.Some? then FindByCategoryId(categoryId.value)
      else if hasTag then FindByTagName(tagName.value)
      else FindAll
  }

  /** The query filters by the keyword exactly when it is not blank, by the
      category exactly when one is given, and by the tag exactly when it is
      given and not empty; each filter it uses is the value passed in,
      untrimmed. */
  lemma SelectQueryFilters(keyword: Option<string>, categoryId: Option<CategoryId>, tagName: Option<string>)
    ensures var q := SelectQuery(keyword, categoryId, tagName);
      && KeywordOf(q) == (if keyword.Some? && !Blank(keyword.value) then keyword else None)
      && CategoryOf(q) == categoryId
      && TagOf(q) == (if tagName.Some? && tagName.value != [] then tagName else None)
  {
    if keyword.Some? {
      TrimEmptyIffBlank(keyword.value);
    }
  }

  /** A query whose keyword is not blank and whose tag is not empty. */
  predicate Selectable(q: PostQuery)
  {
    && (KeywordOf(q).Some? ==> !Blank(KeywordOf(q).value))
    && (TagOf(q).Some? ==> TagOf(q).value != [])
  }

  /** Every such query is the one selected by its own filters, so each of
      the eight is reachable and filters pick exactly one. */
  lemma SelectQueryRoundTrip(q: PostQuery)
    requires Selectable(q)
    ensures SelectQuery(KeywordOf(q), CategoryOf(q), TagOf(q)) == q
  {
    if KeywordOf(q).Some? {
      TrimEmptyIffBlank(KeywordOf(q).value);
    }
  }

  // ---------------------------------------------------------------------
  // What a reader sees
  // ---------------------------------------------------------------------

  /** The content shown in place of a secret post's content. */
  const SECRET_NOTICE := "\U{1F512} 비밀글입니다."

  /** `PostResponse`, without the author's name and the timestamps. */
  datatype PostView = PostView(
    id: PostId, title: string, content: string, authorId: UserId,
    views: int, likeCount: int, commentCount: int, isLiked: bool,
    category: Option<CategoryId>, isSecret: bool,
    tags: seq<string>, attachments: seq<string>)

  function TagNames(tags: seq<Tag>): (r: seq<string>)
    ensures |r| == |tags| && forall i :: 0 <= i < |tags| ==> r[i] == tags[i].name
  {
    seq(|tags|, i requires 0 <= i < |tags| => tags[i].name)
  }

  /** `PostResponse.fromEntity(post, isLiked)`. */
  function FullView(post: Post, isLiked: bool): PostView
    reads post
  {
    PostView(post.id, post.title, post.content, post.author,
             post.views, post.likeCount, post.commentCount, isLiked,
             post.category, post.isSecret, TagNames(post.tags), post.attachments)
  }

  /** `PostResponse.secretPostSummary(post)`. */
  function SecretSummary(post: Post): PostView
    reads post
  {
    PostView(post.id, post.title, SECRET_NOTICE, post.author,
             post.views, post.likeCount, post.commentCount, false,
             post.category, true, [], [])
  }

  /** Whether the viewer (if any) has liked the post: `isLikedByUser`. */
  predicate LikedBy(likes: seq<Like>, postId: PostId, viewer: Option<UserId>)
  {
    viewer.Some? && Liked(likes, postId, viewer.value)
  }

  /** The rule listings and single reads share: a secret post is shown in
      full to its author only; anyone else, signed in or not, gets the
      summary with the content masked, no tag, no attachment, and not
      liked. */
  function ViewFor(post: Post, viewer: Option<UserId>, liked: bool): (r: PostView)
    reads post
    ensures r.id == post.id && r.title == post.title && r.authorId == post.author
    ensures r.isSecret == post.isSecret
    ensures post.isSecret && viewer != Some(post.author) ==>
      r.content == SECRET_NOTICE && r.tags == [] && r.attachments == [] && !r.isLiked
    ensures !post.isSecret || viewer == Some(post.author) ==>
      r.content == post.content && r.tags == TagNames(post.tags) &&
      r.attachments == post.attachments && r.isLiked == liked
  {
    if post.isSecret && viewer != Some(post.author) then SecretSummary(post) else FullView(post, liked)
  }

  /** The summary of a secret post gives away nothing of its content, its
      tags or its attachments: two posts that differ only there have the
      same summary. */
  lemma SummaryHidesContent(p: Post, q: Post)
    requires p.id == q.id && p.title == q.title && p.author == q.author
    requires p.views == q.views && p.likeCount == q.likeCount && p.commentCount == q.commentCount
    requires p.category == q.category
    ensures SecretSummary(p) == SecretSummary(q)
  {
  }

  /** One page of a listing: the sort and the query it was read with, and
      what the viewer sees of each post on it. */
  datatype PostPage = PostPage(sort: SortSpec, query: PostQuery, posts: seq<PostView>)

  /** The body of `createPost` and `updatePost` (`updatePost` ignores the
      secrecy fields); absent JSON fields are `None`. */
  datatype PostRequest = PostRequest(
    title: string, content: string, categoryId: Option<CategoryId>,
    isSecret: Option<bool>, secretPassword: Option<string>, tags: Option<seq<string>>)

  /** What `toggleLike` answers: only these fields are filled in. */
  datatype LikeToggleView = LikeToggleView(id: PostId, title: string, content: string, isLiked: bool, likeCount: int)

  /** The category a request ends up with: the one named, if it exists. */
  function ResolveCategory(categoryId: Option<CategoryId>, categories: set<CategoryId>): (r: Option<CategoryId>)
    ensures r.Some? <==> categoryId.Some? && categoryId.value in categories
    ensures r.Some? ==> r == categoryId
  {
    if categoryId.Some? && categoryId.value in categories then categoryId else None
  }

  function TagObjects(tags: seq<Tag>): set<Tag>
  {
    set t | t in tags
  }

  /** The tags of the post stored under id, as a frame. */
  function PostTagSet(posts: map<PostId, Post>, id: PostId): set<Tag>
    reads PostSet(posts, id)
  {
    if id in posts then TagObjects(posts[id].tags) else {}
  }

  /** A tag's use count after `removed` floored decrements and then `added`
      increments. */
  function RelinkedCount(count: int, removed: nat, added: nat): int
  {
    DecrementTimes(count, removed) + added
  }

  /** A tag's post list after `removed` removals of the post and then
      `added` appends of it. */
  function RelinkedPosts(posts: seq<Post>, post: Post, removed: nat, added: nat): seq<Post>
  {
    RemoveFirstTimes(posts, post, removed) + Copies(post, added)
  }

  /** k copies of x. */
  function Copies<T>(x: T, k: nat): (r: seq<T>)
    ensures |r| == k && forall i :: 0 <= i < k ==> r[i] == x
  {
    seq(k, _ => x)
  }

  /** `for (Tag tag : tags) post.addTag(tag)`: the tags are appended in
      order, and a tag listed k times gains k uses and k links back to the
      post. */
  method AddTags(post: Post, tags: seq<Tag>)
    modifies post`tags, TagObjects(tags)
    ensures post.tags == old(post.tags) + tags
    ensures forall t :: t in tags ==> t.useCount == old(t.useCount) + Occurrences(tags, t)
    ensures forall t :: t in tags ==> t.posts == old(t.posts) + Copies(post, Occurrences(tags, t))
  {
    for i := 0 to |tags|
      invariant post.tags == old(post.tags) + tags[..i]
      invariant forall t :: t in tags ==> t.useCount == old(t.useCount) + Occurrences(tags[..i], t)
      invariant forall t :: t in tags ==> t.posts == old(t.posts) + Copies(post, Occurrences(tags[..i], t))
    {
      var tag := tags[i];
      assert tags[..i + 1] == tags[..i] + [tag];
      ghost var k := Occurrences(tags[..i], tag);
      post.AddTag(tag);
      assert Copies(post, k + 1) == Copies(post, k) + [post];
      forall t | t in tags && t != tag
        ensures Occurrences(tags[..i + 1], t) == Occurrences(tags[..i], t)
      {
      }
    }
    assert tags[..|tags|] == tags;
  }

  /** `AddTags` over tags that were stored before or are unused and
      unlinked: a stored tag gains one use and one link per listing, and
      any other listed tag ends up used exactly by its links. */
  method LinkStoredOrUnused(post: Post, tags: seq<Tag>, ghost stored: set<Tag>)
    requires forall t :: t in tags && t !in stored ==> t.useCount == 0 && t.posts == []
    modifies post`tags, TagObjects(tags)
    ensures post.tags == old(post.tags) + tags
    ensures forall t :: t in stored ==>
      t.useCount == old(t.useCount) + Occurrences(tags, t) && t.posts == old(t.posts) + Copies(post, Occurrences(tags, t))
    ensures forall t :: t in tags && t !in stored ==>
      t.useCount == Occurrences(tags, t) && t.posts == Copies(post, Occurrences(tags, t))
  {
    AddTags(post, tags);
    forall t | t in stored && t !in tags
      ensures t.useCount == old(t.useCount) + Occurrences(tags, t) && t.posts == old(t.posts) + Copies(post, Occurrences(tags, t))
    {
      OccurrencesMultiset(tags, t);
    }
  }

  class PostService {
    var posts: map<PostId, Post>
    var nextId: PostId
    /** The like table, shared with the like service. */
    const likeService: PostLikeService
    const tagService: TagService

    /** Posts are stored under their own id, drawn from an identity column. */
    ghost predicate Valid()
      reads this, likeService, tagService
    {
      && likeService.Valid()
      && tagService.Valid()
      && (forall id :: id in posts ==> posts[id].id == id && id < nextId)
    }

    constructor (likeService: PostLikeService, tagService: TagService)
      requires likeService.Valid() && tagService.Valid()
      ensures Valid() && posts == map[]
      ensures this.likeService == likeService && this.tagService == tagService
    {
      posts, nextId := map[], 0;
      this.likeService, this.tagService := likeService, tagService;
    }

    /** `getPosts`, given the rows its query returned: the sort is parsed
        (a failure there ends the request), the query is the one the
        filters select, and each post is shown as the visibility rule says
        for that viewer. */
    method GetPosts(sort: Option<string>, viewer: Option<UserId>, categoryId: Option<CategoryId>,
                    tagName: Option<string>, keyword: Option<string>, rows: seq<Post>)
      returns (r: Result<PostPage>)
      ensures r.Ok? <==> ParseSort(sort).Ok?
      ensures r.Err? ==> r == Err(ParseSort(sort).error)
      ensures r.Ok? ==>
        && r.value.sort == ParseSort(sort).value
        && r.value.query == SelectQuery(keyword, categoryId, tagName)
        && |r.value.posts| == |rows|
        && forall i :: 0 <= i < |rows| ==>
             r.value.posts[i] == ViewFor(rows[i], viewer, LikedBy(likeService.likes, rows[i].id, viewer))
    {
      var parsed := ParseSort(sort);
      if parsed.Err? {
        return Err(parsed.error);
      }
      var query := SelectQuery(keyword, categoryId, tagName);
      var views: seq<PostView> := [];
      for i := 0 to |rows|
        invariant |views| == i
        invariant forall k :: 0 <= k < i ==>
          views[k] == ViewFor(rows[k], viewer, LikedBy(likeService.likes, rows[k].id, viewer))
      {
        var post := rows[i];
        var view: PostView;
        if post.isSecret {
          if viewer.Some? && viewer.value == post.author {
            var liked := likeService.IsLikedByUser(post.id, viewer);
            view := FullView(post, liked);
          } else {
            view := SecretSummary(post);
          }
        } else {
          var liked := likeService.IsLikedByUser(post.id, viewer);
          view := FullView(post, liked);
        }
        views := views + [view];
      }
      r := Ok(PostPage(parsed.value, query, views));
    }

    /** `getPost`: a missing post is an `IllegalArgumentException`; otherwise
        the visibility rule decides what the viewer sees. */
    method GetPost(id: PostId, viewer: Option<UserId>) returns (r: Result<PostView>)
      ensures id !in posts ==> r == Err(IllegalArgument)
      ensures id in posts ==> r == Ok(ViewFor(posts[id], viewer, LikedBy(likeService.likes, id, viewer)))
    {
      if id !in posts {
        return Err(IllegalArgument);
      }
      var post := posts[id];
      if post.isSecret && (viewer.None? || viewer.value != post.author) {
        return Ok(SecretSummary(post));
      }
      var liked := likeService.IsLikedByUser(id, viewer);
      r := Ok(FullView(post, liked));
    }

    /** `getSecretPost`: only secret posts can be opened this way. The author
        needs no password; anyone else needs one that matches the stored
        encoded password (`matches` stands for the password encoder). Every
        refusal is an `IllegalArgumentException`. */
    method GetSecretPost(id: PostId, password: Option<string>, viewer: Option<UserId>,
                         matches: (string, Option<string>) -> bool)
      returns (r: Result<PostView>)
      ensures id !in posts ==> r == Err(IllegalArgument)
      ensures id in posts && !posts[id].isSecret ==> r == Err(IllegalArgument)
      ensures r.Ok? <==>
        (id in posts && posts[id].isSecret &&
         (viewer == Some(posts[id].author) || (password.Some? && matches(password.value, posts[id].secretPassword))))
      ensures r.Err? ==> r.error == IllegalArgument
      ensures r.Ok? ==> r.value == FullView(posts[id], LikedBy(likeService.likes, id, viewer))
    {
      if id !in posts {
        return Err(IllegalArgument);
      }
      var post := posts[id];
      if !post.isSecret {
        return Err(IllegalArgument);
      }
      if viewer.Some? && viewer.value == post.author {
        var liked := likeService.IsLikedByUser(id, viewer);
        return Ok(FullView(post, liked));
      }
      if password.None? || !matches(password.value, post.secretPassword) {
        return Err(IllegalArgument);
      }
      var liked := likeService.IsLikedByUser(id, viewer);
      r := Ok(FullView(post, liked));
    }

    /** `createPost` without attachments: a missing user is an
        `IllegalArgumentException`. A category that does not exist is
        dropped, the post is secret only when the request says true, and a
        password is encoded (`encode` stands for the password encoder) only
        for a secret post that comes with one. The tags are created or found
        by normalised name and linked in order. */
    method CreatePost(userId: UserId, request: PostRequest, users: set<UserId>,
                      categories: set<CategoryId>, encode: string -> string)
      returns (r: Result<PostView>)
      requires Valid()
      modifies this`posts, this`nextId, tagService`tags, TagObjects(tagService.tags)
      ensures Valid()
      ensures r.Ok? <==> userId in users
      ensures r.Err? ==>
        && r == Err(IllegalArgument) && posts == old(posts) && nextId == old(nextId)
        && tagService.tags == old(tagService.tags) && (forall t :: t in old(tagService.tags) ==> unchanged(t))
      ensures r.Ok? ==> old(nextId) !in old(posts) && old(nextId) in posts && nextId == old(nextId) + 1
      ensures r.Ok? ==>
        |old(tagService.tags)| <= |tagService.tags| && tagService.tags[..|old(tagService.tags)|] == old(tagService.tags)
      ensures r.Ok? ==> forall t :: t in old(tagService.tags) ==>
        var post := posts[old(nextId)];
        t.useCount == old(t.useCount) + Occurrences(post.tags, t) && t.posts == old(t.posts) + Copies(post, Occurrences(post.tags, t))
      ensures r.Ok? ==> forall t :: t in posts[old(nextId)].tags && t !in old(tagService.tags) ==>
        var post := posts[old(nextId)];
        fresh(t) && t.useCount == Occurrences(post.tags, t) && t.posts == Copies(post, Occurrences(post.tags, t))
      ensures r.Ok? ==>
        var post := posts[old(nextId)];
        && posts == old(posts)[old(nextId) := post] && fresh(post)
        && post.author == userId && post.title == request.title && post.content == request.content
        && post.category == ResolveCategory(request.categoryId, categories)
        && post.isSecret == (request.isSecret == Some(true))
        && post.secretPassword ==
             (if request.isSecret == Some(true) && request.secretPassword.Some?
              then Some(encode(request.secretPassword.value)) else None)
        && post.views == 0 && post.likeCount == 0 && post.commentCount == 0 && post.attachments == []
        && TagNames(post.tags) == (if request.tags.Some? then NormalizeAll(request.tags.value) else [])
        && (forall i :: 0 <= i < |post.tags| ==> post.tags[i] in tagService.tags)
        && r.value == FullView(post, false)
    {
      if userId !in users {
        return Err(IllegalArgument);
      }
      var category := ResolveCategory(request.categoryId, categories);
      var isSecret := request.isSecret == Some(true);
      var encoded: Option<string> := None;
      if isSecret && request.secretPassword.Some? {
        encoded := Some(encode(request.secretPassword.value));
      }
      var post := new Post(nextId, userId, request.title, request.content, category, isSecret, encoded);
      TagNewPost(post, request.tags);
      posts := posts[nextId := post];
      nextId := nextId + 1;
      r := Ok(FullView(post, false));
    }

    /** `updatePost`: a missing post or a caller who is not its author is an
        `IllegalArgumentException` and changes nothing. Otherwise the title
        and content are overwritten, the category is the one named if it
        exists and none otherwise, and tags given (even an empty list)
        replace the post's tags, which stay as they are when none are
        given. Counters, secrecy and password are left alone. */
    method UpdatePost(userId: UserId, postId: PostId, request: PostRequest, categories: set<CategoryId>)
      returns (r: Result<PostView>)
      requires Valid()
      modifies PostSet(posts, postId), PostTagSet(posts, postId), tagService`tags, TagObjects(tagService.tags)
      ensures Valid()
      ensures r.Ok? <==> postId in posts && posts[postId].author == userId
      ensures r.Err? ==>
        (r == Err(IllegalArgument) && tagService.tags == old(tagService.tags) &&
         (postId in posts ==> unchanged(posts[postId])))
      ensures r.Err? ==> forall t :: t in old(tagService.tags) || t in old(PostTagSet(posts, postId)) ==> unchanged(t)
      ensures r.Ok? && request.tags.None? ==>
        tagService.tags == old(tagService.tags) &&
        forall t :: t in old(tagService.tags) || t in old(posts[postId].tags) ==> unchanged(t)
      ensures r.Ok? && request.tags.Some? ==>
        |old(tagService.tags)| <= |tagService.tags| && tagService.tags[..|old(tagService.tags)|] == old(tagService.tags)
      ensures r.Ok? && request.tags.Some? ==> forall t :: t in old(tagService.tags) || t in old(posts[postId].tags) ==>
        var post := posts[postId];
        && t.useCount == RelinkedCount(old(t.useCount), Occurrences(old(post.tags), t), Occurrences(post.tags, t))
        && t.posts == RelinkedPosts(old(t.posts), post, Occurrences(old(post.tags), t), Occurrences(post.tags, t))
      ensures r.Ok? && request.tags.Some? ==>
        forall t :: t in posts[postId].tags && t !in old(tagService.tags) && t !in old(posts[postId].tags) ==>
        var post := posts[postId];
        fresh(t) && t.useCount == Occurrences(post.tags, t) && t.posts == Copies(post, Occurrences(post.tags, t))
      ensures r.Ok? ==>
        var post := posts[postId];
        && post.title == request.title && post.content == request.content
        && post.category == ResolveCategory(request.categoryId, categories)
        && (request.tags.None? ==> post.tags == old(post.tags))
        && (request.tags.Some? ==> TagNames(post.tags) == NormalizeAll(request.tags.value))
        && post.views == old(post.views) && post.likeCount == old(post.likeCount)
        && post.commentCount == old(post.commentCount) && post.isSecret == old(post.isSecret)
        && post.secretPassword == old(post.secretPassword) && post.attachments == old(post.attachments)
        && r.value == FullView(post, Liked(likeService.likes, postId, userId))
    {
      if postId !in posts {
        return Err(IllegalArgument);
      }
      var post := posts[postId];
      if post.author != userId {
        return Err(IllegalArgument);
      }
      EditPost(post, request, categories);
      var liked := likeService.IsLikedByUser(postId, Some(userId));
      r := Ok(FullView(post, liked));
    }

    /** The tag part of `createPost`: tags are linked only when a non-empty
        list is given; the accounting is that of `LinkNamedTags`. */
    method TagNewPost(post: Post, names: Option<seq<string>>)
      requires Valid() && post.tags == []
      modifies post`tags, tagService`tags, TagObjects(tagService.tags)
      ensures Valid()
      ensures TagNames(post.tags) == (if names.Some? then NormalizeAll(names.value) else [])
      ensures forall i :: 0 <= i < |post.tags| ==> post.tags[i] in tagService.tags
      ensures |old(tagService.tags)| <= |tagService.tags| && tagService.tags[..|old(tagService.tags)|] == old(tagService.tags)
      ensures forall t :: t in old(tagService.tags) ==>
        t.useCount == old(t.useCount) + Occurrences(post.tags, t) &&
        t.posts == old(t.posts) + Copies(post, Occurrences(post.tags, t))
      ensures forall t :: t in post.tags && t !in old(tagService.tags) ==>
        fresh(t) && t.useCount == Occurrences(post.tags, t) && t.posts == Copies(post, Occurrences(post.tags, t))
    {
      if names.Some? && names.value != [] {
        LinkNamedTags(post, names.value);
      }
    }

    /** The edit `updatePost` makes once the author is checked: title,
        content and category are overwritten, and tags given replace the
        post's tags. Without tags no tag changes. */
    method EditPost(post: Post, request: PostRequest, categories: set<CategoryId>)
      requires Valid()
      modifies post, TagObjects(post.tags), tagService`tags, TagObjects(tagService.tags)
      ensures Valid()
      ensures post.title == request.title && post.content == request.content
      ensures post.category == ResolveCategory(request.categoryId, categories)
      ensures request.tags.None? ==> post.tags == old(post.tags)
      ensures request.tags.Some? ==> TagNames(post.tags) == NormalizeAll(request.tags.value)
      ensures post.views == old(post.views) && post.likeCount == old(post.likeCount)
      ensures post.commentCount == old(post.commentCount) && post.isSecret == old(post.isSecret)
      ensures post.secretPassword == old(post.secretPassword) && post.attachments == old(post.attachments)
      ensures request.tags.None? ==>
        tagService.tags == old(tagService.tags) &&
        forall t :: t in old(tagService.tags) || t in old(post.tags) ==> unchanged(t)
      ensures request.tags.Some? ==>
        |old(tagService.tags)| <= |tagService.tags| && tagService.tags[..|old(tagService.tags)|] == old(tagService.tags)
      ensures request.tags.Some? ==> forall t :: t in old(tagService.tags) || t in old(post.tags) ==>
        && t.useCount == RelinkedCount(old(t.useCount), Occurrences(old(post.tags), t), Occurrences(post.tags, t))
        && t.posts == RelinkedPosts(old(t.posts), post, Occurrences(old(post.tags), t), Occurrences(post.tags, t))
      ensures request.tags.Some? ==> forall t :: t in post.tags && t !in old(tagService.tags) && t !in old(post.tags) ==>
        fresh(t) && t.useCount == Occurrences(post.tags, t) && t.posts == Copies(post, Occurrences(post.tags, t))
    {
      post.title := request.title;
      post.content := request.content;
      post.category := ResolveCategory(request.categoryId, categories);
      if request.tags.Some? {
        ReplaceTags(post, request.tags.value);
      }
    }

    /** The tag part of `updatePost`: every tag is unlinked, then the named
        tags are found or created by normalised name and linked in order.
        The registry only grows; a stored or previously linked tag loses one
        use and one link per old link (floored) and gains one of each per
        new link, so a tag linked neither before nor after is left as it
        was; a tag created here is used exactly by its new links. */
    method ReplaceTags(post: Post, names: seq<string>)
      requires Valid()
      modifies post`tags, TagObjects(post.tags), tagService`tags, TagObjects(tagService.tags)
      ensures Valid()
      ensures TagNames(post.tags) == NormalizeAll(names)
      ensures forall i :: 0 <= i < |post.tags| ==> post.tags[i] in tagService.tags
      ensures |old(tagService.tags)| <= |tagService.tags| && tagService.tags[..|old(tagService.tags)|] == old(tagService.tags)
      ensures forall t :: t in old(post.tags) ==>
        && t.useCount == RelinkedCount(old(t.useCount), Occurrences(old(post.tags), t), Occurrences(post.tags, t))
        && t.posts == RelinkedPosts(old(t.posts), post, Occurrences(old(post.tags), t), Occurrences(post.tags, t))
      ensures forall t :: t in old(tagService.tags) ==>
        && t.useCount == RelinkedCount(old(t.useCount), Occurrences(old(post.tags), t), Occurrences(post.tags, t))
        && t.posts == RelinkedPosts(old(t.posts), post, Occurrences(old(post.tags), t), Occurrences(post.tags, t))
      ensures forall t :: t in post.tags && t !in old(tagService.tags) && t !in old(post.tags) ==>
        fresh(t) && t.useCount == Occurrences(post.tags, t) && t.posts == Copies(post, Occurrences(post.tags, t))
    {
      post.ClearTags();
      forall t | t in old(post.tags)
        ensures t.useCount == DecrementTimes(old(t.useCount), Occurrences(old(post.tags), t))
        ensures t.posts == RemoveFirstTimes(old(t.posts), post, Occurrences(old(post.tags), t))
      {
      }
      forall t | t in old(TagObjects(tagService.tags)) && t !in old(post.tags)
        ensures t.useCount == old(t.useCount) && t.posts == old(t.posts)
        ensures Occurrences(old(post.tags), t) == 0
      {
        OccurrencesMultiset(old(post.tags), t);
      }
      label cleared:
      if names != [] {
        LinkNamedTags(post, names);
        forall t | t in old(TagObjects(tagService.tags))
          ensures t.useCount == old@cleared(t.useCount) + Occurrences(post.tags, t)
          ensures t.posts == old@cleared(t.posts) + Copies(post, Occurrences(post.tags, t))
        {
          assert t in old@cleared(tagService.tags);
        }
        forall t | t in old(post.tags) && t !in old(TagObjects(tagService.tags))
          ensures t !in post.tags && Occurrences(post.tags, t) == 0
          ensures t.useCount == old@cleared(t.useCount) && t.posts == old@cleared(t.posts)
        {
          assert !fresh(t);
          OccurrencesMultiset(post.tags, t);
        }
      }
      forall t | t in old(post.tags)
        ensures t.useCount == RelinkedCount(old(t.useCount), Occurrences(old(post.tags), t), Occurrences(post.tags, t))
        ensures t.posts == RelinkedPosts(old(t.posts), post, Occurrences(old(post.tags), t), Occurrences(post.tags, t))
      {
        assert old@cleared(t.useCount) == DecrementTimes(old(t.useCount), Occurrences(old(post.tags), t));
        assert old@cleared(t.posts) == RemoveFirstTimes(old(t.posts), post, Occurrences(old(post.tags), t));
        if names == [] {
          assert post.tags == [];
        }
      }
      forall t | t in old(tagService.tags) && t !in old(post.tags)
        ensures t.useCount == RelinkedCount(old(t.useCount), Occurrences(old(post.tags), t), Occurrences(post.tags, t))
        ensures t.posts == RelinkedPosts(old(t.posts), post, Occurrences(old(post.tags), t), Occurrences(post.tags, t))
      {
        assert t in old(TagObjects(tagService.tags));
        assert old@cleared(t.useCount) == old(t.useCount) && old@cleared(t.posts) == old(t.posts);
        assert Occurrences(old(post.tags), t) == 0;
        if names == [] {
          assert post.tags == [];
        }
      }
    }

    /** The tags of a post without tags are found or created by normalised
        name and linked in order: a stored tag gains one use and one link
        per listing, and a tag created here is used exactly by its links. */
    method LinkNamedTags(post: Post, names: seq<string>)
      requires Valid() && post.tags == []
      modifies post`tags, tagService`tags, TagObjects(tagService.tags)
      ensures Valid()
      ensures TagNames(post.tags) == NormalizeAll(names)
      ensures forall i :: 0 <= i < |post.tags| ==> post.tags[i] in tagService.tags
      ensures |old(tagService.tags)| <= |tagService.tags| && tagService.tags[..|old(tagService.tags)|] == old(tagService.tags)
      ensures forall t :: t in old(tagService.tags) ==>
        t.useCount == old(t.useCount) + Occurrences(post.tags, t) &&
        t.posts == old(t.posts) + Copies(post, Occurrences(post.tags, t))
      ensures forall t :: t in post.tags && t !in old(tagService.tags) ==>
        fresh(t) && t.useCount == Occurrences(post.tags, t) && t.posts == Copies(post, Occurrences(post.tags, t))
    {
      ghost var stored := TagObjects(tagService.tags);
      var tags := tagService.GetOrCreateTags(names);
      StoredOrFresh(tags);
      LinkStoredOrUnused(post, tags, stored);
      assert post.tags == tags;
    }

    /** The tags `getOrCreateTags` hands back were in the table before or
        were created by it. */
    twostate lemma StoredOrFresh(new tags: seq<Tag>)
      requires forall i :: 0 <= i < |tags| ==> tags[i] in tagService.tags
      requires |old(tagService.tags)| <= |tagService.tags|
      requires tagService.tags[..|old(tagService.tags)|] == old(tagService.tags)
      requires forall j :: |old(tagService.tags)| <= j < |tagService.tags| ==>
        fresh(tagService.tags[j]) && tagService.tags[j].useCount == 0 && tagService.tags[j].posts == []
      ensures forall t :: t in tags ==> t in old(TagObjects(tagService.tags)) || fresh(t)
      ensures forall t :: t in tags && t !in old(TagObjects(tagService.tags)) ==> fresh(t) && t.useCount == 0 && t.posts == []
    {
      forall t | t in tags && t !in old(TagObjects(tagService.tags))
        ensures fresh(t) && t.useCount == 0 && t.posts == []
      {
        var j :| 0 <= j < |tagService.tags| && tagService.tags[j] == t;
        assert t !in tagService.tags[..|old(tagService.tags)|];
      }
    }

    /** `deletePost`: a missing post or a caller who is not its author is an
        `IllegalArgumentException` and deletes nothing; otherwise the post
        is gone, and with it its likes, which the post's mapping cascades. */
    method DeletePost(userId: UserId, postId: PostId) returns (r: Outcome)
      requires Valid()
      modifies this`posts, likeService`likes
      ensures Valid()
      ensures r == Done <==> postId in old(posts) && old(posts)[postId].author == userId
      ensures r.Fail? ==> r == Fail(IllegalArgument) && posts == old(posts) && likeService.likes == old(likeService.likes)
      ensures r == Done ==>
        && posts == old(posts) - {postId}
        && likeService.likes == DropPostLikes(old(likeService.likes), postId)
    {
      if postId !in posts {
        return Fail(IllegalArgument);
      }
      if posts[postId].author != userId {
        return Fail(IllegalArgument);
      }
      FilterUniqueBy(likeService.likes, (l: Like) => l.post != postId, LikeKey);
      posts := posts - {postId};
      likeService.likes := DropPostLikes(likeService.likes, postId);
      r := Done;
    }

    /** `incrementViews`: a missing post is an `IllegalArgumentException`;
        otherwise its view counter goes up by one. */
    method IncrementViews(postId: PostId) returns (r: Outcome)
      modifies PostSet(posts, postId)`views
      ensures r == Done <==> postId in posts
      ensures r.Fail? ==> r == Fail(IllegalArgument)
      ensures r == Done ==> posts[postId].views == old(posts[postId].views) + 1
    {
      if postId !in posts {
        return Fail(IllegalArgument);
      }
      posts[postId].IncrementViews();
      r := Done;
    }

    /** `toggleLike` as the post service does it, on the shared like table:
        the post is looked up before the user, both failing with
        `IllegalArgumentException`. The like is deleted or added and the
        counter moved as in the like service, but the count reported is the
        number of likes stored for the post, which the toggle moves by
        exactly one. */
    method ToggleLike(postId: PostId, userId: UserId, users: set<UserId>) returns (r: Result<LikeToggleView>)
      requires Valid()
      modifies likeService`likes, PostSet(posts, postId)`likeCount
      ensures Valid()
      ensures postId !in posts ==> r == Err(IllegalArgument)
      ensures postId in posts && userId !in users ==> r == Err(IllegalArgument)
      ensures r.Ok? <==> postId in posts && userId in users
      ensures r.Err? ==> likeService.likes == old(likeService.likes) && (postId in posts ==> unchanged(posts[postId]))
      ensures r.Ok? ==>
        var post := posts[postId];
        var wasLiked := Liked(old(likeService.likes), postId, userId);
        && likeService.likes == Toggled(old(likeService.likes), postId, userId)
        && post.likeCount == ToggledCount(wasLiked, old(post.likeCount))
        && r.value == LikeToggleView(postId, post.title, post.content, !wasLiked, LikesOf(likeService.likes, postId))
        && r.value.likeCount ==
             if wasLiked then LikesOf(old(likeService.likes), postId) - 1 else LikesOf(old(likeService.likes), postId) + 1
    {
      if postId !in posts {
        return Err(IllegalArgument);
      }
      var post := posts[postId];
      if userId !in users {
        return Err(IllegalArgument);
      }
      var isLiked := Like(postId, userId) in likeService.likes;
      ToggleMovesCountByOne(likeService.likes, postId, userId);
      if isLiked {
        FilterUniqueBy(likeService.likes, (l: Like) => l != Like(postId, userId), LikeKey);
        likeService.likes := Unlike(likeService.likes, postId, userId);
        post.DecrementLikeCount();
      } else {
        forall y | y in likeService.likes ensures LikeKey(y) != LikeKey(Like(postId, userId)) {
        }
        AppendUniqueBy(likeService.likes, Like(postId, userId), LikeKey);
        likeService.likes := likeService.likes + [Like(postId, userId)];
        post.IncrementLikeCount();
      }
      var count := LikesOf(likeService.likes, postId);
      r := Ok(LikeToggleView(post.id, post.title, post.content, !isLiked, count));
    }
  }
}
