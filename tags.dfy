/** The tag registry (`TagService`): tags are looked up and stored under a
    normalised name, created on first use, swept when no post uses them, and
    listed by popularity. */
module TagRegistry {
  import opened Common
  import opened Tables
  import opened Sorting
  import opened Entities

  /** At most this many tags are listed as popular. */
  const POPULAR_LIMIT := 20

  /** The name a tag is stored under: trimmed, then lower-cased. */
  function Normalize(name: string): string
  {
    ToLower(Trim(name))
  }

  /** Lower-casing keeps a character blank or non-blank. */
  lemma LowerKeepsBlank(c: char)
    ensures IsBlankChar(LowerChar(c)) == IsBlankChar(c)
  {
  }

  /** Lower-casing twice is lower-casing once. */
  lemma LowerTwice(s: string)
    ensures ToLower(ToLower(s)) == ToLower(s)
  {
    LowerPointwise(s);
    LowerPointwise(ToLower(s));
  }

  /** A normalised name normalises to itself, so looking a tag up by the
      name it is stored under finds it again. */
  lemma NormalizeIdempotent(name: string)
    ensures Normalize(Normalize(name)) == Normalize(name)
  {
    var t := Trim(name);
    var n := ToLower(t);
    TrimSpec(name);
    LowerPointwise(t);
    if n != [] {
      LowerKeepsBlank(t[0]);
      LowerKeepsBlank(t[|t| - 1]);
    }
    TrimTrimmed(n);
    LowerTwice(t);
  }

  /** The normalised form of each name, in order. */
  function NormalizeAll(names: seq<string>): (r: seq<string>)
    ensures |r| == |names| && forall i :: 0 <= i < |names| ==> r[i] == Normalize(names[i])
  {
    seq(|names|, i requires 0 <= i < |names| => Normalize(names[i]))
  }

  predicate HasName(tags: seq<Tag>, name: string)
  {
    exists i :: 0 <= i < |tags| && tags[i].name == name
  }

  function TagName(t: Tag): string
  {
    t.name
  }

  /** The tags still in use: those whose use count is not 0, in table order. */
  ghost function UsedTags(tags: seq<Tag>): (r: seq<Tag>)
    reads set t | t in tags
    ensures |r| <= |tags|
    ensures forall i :: 0 <= i < |r| ==> r[i] in tags && r[i].useCount != 0
    ensures forall i :: 0 <= i < |tags| && tags[i].useCount != 0 ==> tags[i] in r
  {
    if tags == [] then []
    else
      var last := tags[|tags| - 1];
      var front := UsedTags(tags[..|tags| - 1]);
      assert forall i :: 0 <= i < |tags| - 1 ==> tags[..|tags| - 1][i] == tags[i];
      if last.useCount != 0 then front + [last] else front
  }

  /** Keeping some tags of a table with unique names keeps the names unique. */
  lemma {:induction false} UsedTagsUnique(tags: seq<Tag>)
    requires UniqueBy(tags, TagName)
    ensures UniqueBy(UsedTags(tags), TagName)
  {
    if tags != [] {
      var front := tags[..|tags| - 1];
      var last := tags[|tags| - 1];
      assert UniqueBy(front, TagName);
      UsedTagsUnique(front);
      forall y | y in UsedTags(front) ensures TagName(y) != TagName(last) {
        var j :| 0 <= j < |front| && front[j] == y;
        assert tags[j] == y;
      }
      if last.useCount != 0 {
        AppendUniqueBy(UsedTags(front), last, TagName);
      }
    }
  }

  /** One tag with its use count, as the popularity query reads it. */
  datatype Ranked = Ranked(tag: Tag, useCount: int)

  /** Sorting key of `ORDER BY useCount DESC`. */
  function Descending(r: Ranked): int
  {
    -r.useCount
  }

  /** `findTop20ByOrderByUseCountDesc` over a snapshot of the table. */
  function TopRanked(rows: seq<Ranked>): seq<Ranked>
  {
    var sorted := SortBy(rows, Descending);
    SortBySpec(rows, Descending);
    sorted[..if |sorted| < POPULAR_LIMIT then |sorted| else POPULAR_LIMIT]
  }

  /** The top rows are a prefix of a permutation of the snapshot, so no row
      is kept more often than the snapshot holds it. */
  lemma TopRankedFromSnapshot(rows: seq<Ranked>)
    ensures multiset(TopRanked(rows)) <= multiset(rows)
  {
    var sorted := SortBy(rows, Descending);
    SortBySpec(rows, Descending);
    var top := TopRanked(rows);
    assert sorted == top + sorted[|top|..];
  }

  /** The top rows come by use count from the highest down. */
  lemma TopRankedOrdered(rows: seq<Ranked>)
    ensures var top := TopRanked(rows);
      forall i, j :: 0 <= i < j < |top| ==> top[i].useCount >= top[j].useCount
  {
    var sorted := SortBy(rows, Descending);
    SortBySpec(rows, Descending);
    var top := TopRanked(rows);
    forall i, j | 0 <= i < j < |top| ensures top[i].useCount >= top[j].useCount {
      assert Descending(sorted[i]) <= Descending(sorted[j]);
    }
  }

  /** No row left out of the top is used more often than the last row kept. */
  lemma TopRankedLeftOut(rows: seq<Ranked>)
    ensures var top := TopRanked(rows);
      forall x :: x in rows && x !in top ==> top != [] && x.useCount <= top[|top| - 1].useCount
  {
    var sorted := SortBy(rows, Descending);
    SortBySpec(rows, Descending);
    var top := TopRanked(rows);
    forall x | x in rows && x !in top ensures top != [] && x.useCount <= top[|top| - 1].useCount {
      assert x in multiset(sorted);
      var m :| 0 <= m < |sorted| && sorted[m] == x;
      assert forall i :: 0 <= i < |top| ==> top[i] == sorted[i];
      assert Descending(sorted[|top| - 1]) <= Descending(sorted[m]);
    }
  }

  /** The top rows are at most 20 rows of the snapshot, each taken at most
      as often as the snapshot holds it, by use count from the highest down,
      and no row left out has a higher use count than the last row kept. */
  lemma TopRankedSpec(rows: seq<Ranked>)
    ensures var top := TopRanked(rows);
      && |top| == (if |rows| < POPULAR_LIMIT then |rows| else POPULAR_LIMIT)
      && multiset(top) <= multiset(rows)
      && (forall i :: 0 <= i < |top| ==> top[i] in rows)
      && (forall i, j :: 0 <= i < j < |top| ==> top[i].useCount >= top[j].useCount)
      && (forall x :: x in rows && x !in top ==> top != [] && x.useCount <= top[|top| - 1].useCount)
  {
    SortBySpec(rows, Descending);
    var top := TopRanked(rows);
    TopRankedFromSnapshot(rows);
    forall i | 0 <= i < |top| ensures top[i] in rows {
      assert top[i] in multiset(top);
    }
    TopRankedOrdered(rows);
    TopRankedLeftOut(rows);
  }

  /** The table as the popularity query reads it: each tag with its use
      count at that moment. */
  function Snapshot(tags: seq<Tag>): (r: seq<Ranked>)
    reads set t | t in tags
    ensures |r| == |tags| && forall i :: 0 <= i < |tags| ==> r[i] == Ranked(tags[i], tags[i].useCount)
  {
    if tags == [] then [] else [Ranked(tags[0], tags[0].useCount)] + Snapshot(tags[1..])
  }

  function RankedTags(rows: seq<Ranked>): (r: seq<Tag>)
    ensures |r| == |rows| && forall i :: 0 <= i < |rows| ==> r[i] == rows[i].tag
  {
    seq(|rows|, i requires 0 <= i < |rows| => rows[i].tag)
  }

  lemma RankedTagsAppend(u: seq<Ranked>, v: seq<Ranked>)
    ensures RankedTags(u + v) == RankedTags(u) + RankedTags(v)
  {
  }

  /** Taking one row out of the middle of b takes its tag out of b's tags. */
  lemma RankedTagsTakeOut(before: seq<Ranked>, x: Ranked, after: seq<Ranked>)
    ensures multiset(RankedTags(before + [x] + after)) ==
      multiset(RankedTags(before + after)) + multiset{x.tag}
  {
    RankedTagsAppend(before + [x], after);
    RankedTagsAppend(before, [x]);
    RankedTagsAppend(before, after);
    assert RankedTags([x]) == [x.tag];
  }

  /** Dropping the same row from both sides keeps a sub-multiset. */
  lemma SubMultisetTakeOut(rest: seq<Ranked>, x: Ranked, before: seq<Ranked>, after: seq<Ranked>)
    requires multiset(rest + [x]) <= multiset(before + [x] + after)
    ensures multiset(rest) <= multiset(before + after)
  {
    assert multiset(rest + [x]) == multiset(rest) + multiset{x};
    assert multiset(before + [x] + after) == multiset(before + after) + multiset{x};
    forall y ensures multiset(rest)[y] <= multiset(before + after)[y] {
      assert multiset(rest + [x])[y] <= multiset(before + [x] + after)[y];
    }
  }

  /** Taking the tags of the rows keeps a sub-multiset a sub-multiset. */
  lemma {:induction false} RankedTagsSubMultiset(a: seq<Ranked>, b: seq<Ranked>)
    requires multiset(a) <= multiset(b)
    ensures multiset(RankedTags(a)) <= multiset(RankedTags(b))
    decreases |a|
  {
    if a != [] {
      var x := a[|a| - 1];
      var rest := a[..|a| - 1];
      assert a == rest + [x];
      assert x in multiset(b);
      var j :| 0 <= j < |b| && b[j] == x;
      var before, after := b[..j], b[j + 1..];
      assert b == before + [x] + after;
      SubMultisetTakeOut(rest, x, before, after);
      RankedTagsSubMultiset(rest, before + after);
      RankedTagsAppend(rest, [x]);
      assert RankedTags([x]) == [x.tag];
      RankedTagsTakeOut(before, x, after);
    }
  }

  /** A row whose tag is not among the top rows is used at most as often as
      the last top row. */
  lemma LeftOutRow(rows: seq<Ranked>, k: nat)
    requires k < |rows|
    requires forall m :: 0 <= m < |TopRanked(rows)| ==> TopRanked(rows)[m].tag != rows[k].tag
    ensures var top := TopRanked(rows);
      top != [] && rows[k].useCount <= top[|top| - 1].useCount
  {
    TopRankedSpec(rows);
    var top := TopRanked(rows);
    forall m | 0 <= m < |top| ensures top[m] != rows[k] {
    }
  }

  class TagService {
    var tags: seq<Tag>

    /** The name column is unique. */
    ghost predicate Valid()
      reads this
    {
      UniqueBy(tags, TagName)
    }

    constructor ()
      ensures Valid() && tags == []
    {
      tags := [];
    }

    /** The lookup-or-insert behind `getOrCreateTag`, on a name that is
        already normalised: the stored tag with that name if there is one,
        otherwise exactly one new tag with that name and use count 0. The tag
        returned is the only one carrying the name. */
    method FindOrStore(name: string) returns (tag: Tag)
      requires Valid()
      modifies this`tags
      ensures Valid()
      ensures tag.name == name && tag in tags
      ensures forall t :: t in tags && t.name == name ==> t == tag
      ensures HasName(old(tags), name) ==> tags == old(tags)
      ensures !HasName(old(tags), name) ==>
        fresh(tag) && tag.useCount == 0 && tag.posts == [] && tags == old(tags) + [tag]
    {
      var found := FindFirst(tags, (t: Tag) => t.name == name);
      if found.Some? {
        tag := tags[found.value];
        forall t | t in tags && t.name == name ensures t == tag {
          var j :| 0 <= j < |tags| && tags[j] == t;
          assert TagName(tags[j]) == TagName(tags[found.value]);
        }
      } else {
        tag := new Tag(name);
        forall y | y in tags ensures TagName(y) != TagName(tag) {
          var j :| 0 <= j < |tags| && tags[j] == y;
        }
        AppendUniqueBy(tags, tag, TagName);
        tags := tags + [tag];
      }
    }

    /** `getOrCreateTag`: the name is normalised first, and only the
        normalised name is looked up and stored; a second call with any name
        that normalises the same returns the same tag and stores nothing. */
    method GetOrCreateTag(tagName: string) returns (tag: Tag)
      requires Valid()
      modifies this`tags
      ensures Valid()
      ensures tag.name == Normalize(tagName) && tag in tags
      ensures forall t :: t in tags && t.name == Normalize(tagName) ==> t == tag
      ensures HasName(old(tags), Normalize(tagName)) ==> tags == old(tags)
      ensures !HasName(old(tags), Normalize(tagName)) ==>
        fresh(tag) && tag.useCount == 0 && tag.posts == [] && tags == old(tags) + [tag]
    {
      tag := FindOrStore(Normalize(tagName));
    }

    /** `getOrCreateTags`: one `getOrCreateTag` per name, in order. The
        table only grows, by fresh tags with use count 0, and element i of
        the result is the one stored tag carrying the normalised name i. */
    method GetOrCreateTags(tagNames: seq<string>) returns (result: seq<Tag>)
      requires Valid()
      modifies this`tags
      ensures Valid()
      ensures |result| == |tagNames|
      ensures forall i :: 0 <= i < |result| ==> result[i].name == Normalize(tagNames[i]) && result[i] in tags
      ensures forall i, t :: 0 <= i < |result| && t in tags && t.name == Normalize(tagNames[i]) ==> t == result[i]
      ensures |old(tags)| <= |tags| && tags[..|old(tags)|] == old(tags)
      ensures forall j :: |old(tags)| <= j < |tags| ==>
        fresh(tags[j]) && tags[j].useCount == 0 && tags[j].posts == [] && tags[j].name in NormalizeAll(tagNames)
    {
      ghost var wanted := NormalizeAll(tagNames);
      result := [];
      for i := 0 to |tagNames|
        invariant Valid()
        invariant |result| == i
        invariant forall k :: 0 <= k < i ==> result[k].name == wanted[k] && result[k] in tags
        invariant forall k, t :: 0 <= k < i && t in tags && t.name == wanted[k] ==> t == result[k]
        invariant |old(tags)| <= |tags| && tags[..|old(tags)|] == old(tags)
        invariant forall j :: |old(tags)| <= j < |tags| ==>
          fresh(tags[j]) && tags[j].useCount == 0 && tags[j].posts == [] && tags[j].name in wanted
      {
        ghost var before := tags;
        var tag := GetOrCreateTag(tagNames[i]);
        assert tag.name == wanted[i];
        assert before <= tags;
        result := result + [tag];
      }
    }

    /** `deleteUnusedTags`: the tags with use count 0 are collected and
        deleted; every other tag stays, in table order. */
    method DeleteUnusedTags()
      requires Valid()
      modifies this`tags
      ensures Valid()
      ensures tags == UsedTags(old(tags))
      ensures forall t :: t in tags <==> t in old(tags) && t.useCount != 0
    {
      var kept: seq<Tag> := [];
      for i := 0 to |tags|
        invariant kept == UsedTags(tags[..i])
      {
        assert tags[..i + 1][..i] == tags[..i];
        if tags[i].useCount != 0 {
          kept := kept + [tags[i]];
        }
      }
      assert tags[..|tags|] == tags;
      UsedTagsUnique(tags);
      tags := kept;
    }

    /** `getPopularTags`: at most 20 tags, by use count from the highest
        down. No tag left out is used more often than the last one listed,
        and all tags are listed when there are at most 20. Each stored tag
        is listed at most once, which with unique names means no tag twice. */
    method GetPopularTags() returns (popular: seq<Tag>)
      ensures |popular| == if |tags| < POPULAR_LIMIT then |tags| else POPULAR_LIMIT
      ensures multiset(popular) <= multiset(tags)
      ensures forall i :: 0 <= i < |popular| ==> popular[i] in tags
      ensures forall i, j :: 0 <= i < j < |popular| ==> popular[i].useCount >= popular[j].useCount
      ensures forall t :: t in tags && t !in popular ==>
        popular != [] && t.useCount <= popular[|popular| - 1].useCount
    {
      var rows := Snapshot(tags);
      var top := TopRanked(rows);
      TopRankedSpec(rows);
      popular := RankedTags(top);
      RankedTagsSubMultiset(top, rows);
      assert RankedTags(rows) == tags;
      forall i | 0 <= i < |top| ensures top[i].tag in tags && top[i].useCount == top[i].tag.useCount {
        var k :| 0 <= k < |rows| && rows[k] == top[i];
      }
      forall t | t in tags && t !in popular
        ensures popular != [] && t.useCount <= popular[|popular| - 1].useCount
      {
        var k :| 0 <= k < |tags| && tags[k] == t;
        forall m | 0 <= m < |top| ensures top[m].tag != rows[k].tag {
          assert popular[m] == top[m].tag;
        }
        LeftOutRow(rows, k);
      }
    }
  }
}
