/** The `posts` collection of lib/blog.ts and the five operations on it, with
    the collection held in memory as a sequence of records in insertion order.
    The clock (`new Date()`) and the ids the driver generates are parameters. */
module BlogStore {
  import opened Js

  /** An `ObjectId`, opaque to the model. */
  type ObjectId = string
  /** A `Date`, as a time value. */
  type Date = int

  datatype BlogPost = BlogPost(
    id: ObjectId,
    title: string,
    content: string,
    excerpt: string,
    author: string,
    authorId: string,
    category: string,
    tags: seq<string>,
    createdAt: Date,
    updatedAt: Date,
    published: bool,
    likes: int,
    views: int)

  /** The argument of `createBlogPost`: a post without `_id`, timestamps and counters. */
  datatype NewPost = NewPost(
    title: string,
    content: string,
    excerpt: string,
    author: string,
    authorId: string,
    category: string,
    tags: seq<string>,
    published: bool)

  /** A `Partial<BlogPost>` given to `$set`; `None` is a field that is absent. */
  datatype PostUpdate = PostUpdate(
    id: Option<ObjectId>,
    title: Option<string>,
    content: Option<string>,
    excerpt: Option<string>,
    author: Option<string>,
    authorId: Option<string>,
    category: Option<string>,
    tags: Option<seq<string>>,
    createdAt: Option<Date>,
    updatedAt: Option<Date>,
    published: Option<bool>,
    likes: Option<int>,
    views: Option<int>)

  /** The write errors the database raises (and the driver throws). */
  datatype WriteError =
    | DuplicateKey   // `insertOne` of an `_id` that is already stored
    | ImmutableId    // `$set` that would change the `_id` of the matched post

  datatype UpdateResult = UpdateResult(matchedCount: nat, modifiedCount: nat)

  const DefaultLimit: nat := 10
  const DefaultSkip: nat := 0

  /** The fields a caller of `createBlogPost` supplies, read back from a stored post. */
  function Draft(p: BlogPost): NewPost {
    NewPost(p.title, p.content, p.excerpt, p.author, p.authorId, p.category, p.tags, p.published)
  }

  /** The record `createBlogPost` inserts: the caller's fields unchanged, both
      timestamps `now` and both counters zero. */
  function Stamp(post: NewPost, id: ObjectId, now: Date): (p: BlogPost)
    ensures Draft(p) == post
    ensures p.id == id && p.createdAt == now && p.updatedAt == now
    ensures p.likes == 0 && p.views == 0
  {
    BlogPost(id, post.title, post.content, post.excerpt, post.author, post.authorId,
             post.category, post.tags, now, now, post.published, 0, 0)
  }

  /** No two stored posts share an `_id`. */
  predicate UniqueIds(posts: seq<BlogPost>) {
    forall i, j :: 0 <= i < j < |posts| ==> posts[i].id != posts[j].id
  }

  /** No record occurs twice. */
  predicate Distinct(s: seq<BlogPost>) {
    forall i, j :: 0 <= i < j < |s| ==> s[i] != s[j]
  }

  /** The position of the post with `_id == id`, as `findOne({ _id })` finds it. */
  function IndexOf(posts: seq<BlogPost>, id: ObjectId): (r: Option<nat>)
    ensures r.Some? ==> r.value < |posts| && posts[r.value].id == id
    ensures r.Some? ==> forall j :: 0 <= j < r.value ==> posts[j].id != id
    ensures r.None? ==> forall j :: 0 <= j < |posts| ==> posts[j].id != id
  {
    if |posts| == 0 then None
    else if posts[0].id == id then Some(0)
    else match IndexOf(posts[1..], id)
      case None => None
      case Some(k) => Some(k + 1)
  }

  // ---------------------------------------------------------------------------
  // getBlogPosts: filter, sort by createdAt descending, skip, limit
  // ---------------------------------------------------------------------------

  /** The filter of `getBlogPosts`: published, and of the given category when
      `category` is a non-empty string. */
  predicate Matches(p: BlogPost, category: Option<string>) {
    p.published && (Truthy(category) ==> p.category == category.value)
  }

  /** The posts that match, in stored order. */
  function Filter(posts: seq<BlogPost>, category: Option<string>): (r: seq<BlogPost>)
    ensures forall p :: p in r <==> p in posts && Matches(p, category)
    ensures multiset(r) <= multiset(posts)
  {
    if posts == [] then []
    else
      assert posts == [posts[0]] + posts[1..];
      if Matches(posts[0], category) then [posts[0]] + Filter(posts[1..], category)
      else Filter(posts[1..], category)
  }

  /** The filter keeps every matching record exactly as often as the table
      holds it, and no other record. */
  lemma {:induction false} FilterCounts(posts: seq<BlogPost>, category: Option<string>, x: BlogPost)
    ensures multiset(Filter(posts, category))[x] == if Matches(x, category) then multiset(posts)[x] else 0
  {
    if posts != [] {
      assert posts == [posts[0]] + posts[1..];
      FilterCounts(posts[1..], category, x);
    }
  }

  predicate SortedDesc(s: seq<BlogPost>) {
    forall i, j :: 0 <= i < j < |s| ==> s[i].createdAt >= s[j].createdAt
  }

  /** A post no older than every post of a descending sequence can go in front of it. */
  lemma SortedCons(x: BlogPost, s: seq<BlogPost>)
    requires SortedDesc(s)
    requires s != [] ==> x.createdAt >= s[0].createdAt
    ensures SortedDesc([x] + s)
  {
    forall i, j | 0 <= i < j < |[x] + s| ensures ([x] + s)[i].createdAt >= ([x] + s)[j].createdAt {
      if i > 0 { assert ([x] + s)[i] == s[i - 1]; }
      assert ([x] + s)[j] == s[j - 1];
    }
  }

  /** `p` placed before the first post that is not newer than it. */
  function Insert(p: BlogPost, s: seq<BlogPost>): (r: seq<BlogPost>)
    requires SortedDesc(s)
    ensures SortedDesc(r)
    ensures |r| == |s| + 1
    ensures multiset(r) == multiset(s) + multiset{p}
    ensures r[0] == p || (s != [] && r[0] == s[0])
  {
    if s == [] || p.createdAt >= s[0].createdAt then
      SortedCons(p, s);
      [p] + s
    else
      var rest := Insert(p, s[1..]);
      assert s == [s[0]] + s[1..];
      SortedCons(s[0], rest);
      [s[0]] + rest
  }

  /** `.sort({ createdAt: -1 })`: a descending permutation; ties keep no promised order. */
  function SortByCreatedAtDesc(s: seq<BlogPost>): (r: seq<BlogPost>)
    ensures SortedDesc(r)
    ensures |r| == |s|
    ensures multiset(r) == multiset(s)
  {
    if s == [] then []
    else
      assert s == [s[0]] + s[1..];
      Insert(s[0], SortByCreatedAtDesc(s[1..]))
  }

  /** Records that are pairwise different occur once each. */
  lemma {:induction false} DistinctOccursOnce(s: seq<BlogPost>, x: BlogPost)
    requires Distinct(s)
    ensures multiset(s)[x] <= 1
  {
    if s != [] {
      assert s == [s[0]] + s[1..];
      assert Distinct(s[1..]);
      DistinctOccursOnce(s[1..], x);
      if x == s[0] {
        forall k | 0 <= k < |s[1..]| ensures s[1..][k] != x {
          assert s[1..][k] == s[k + 1];
        }
      }
    }
  }

  /** `.skip(skip).limit(limit)`: MongoDB skips before it limits, and a limit of 0 is no limit. */
  function Page(s: seq<BlogPost>, limit: nat, skip: nat): (r: seq<BlogPost>)
    ensures |r| == if skip >= |s| then 0 else if limit == 0 then |s| - skip else Min(limit, |s| - skip)
    ensures forall i :: 0 <= i < |r| ==> skip + i < |s| && r[i] == s[skip + i]
  {
    if skip >= |s| then []
    else if limit == 0 || limit >= |s| - skip then s[skip..]
    else s[skip..skip + limit]
  }

  /** A page is a contiguous run of the sequence it is cut from. */
  lemma PageWithin(s: seq<BlogPost>, limit: nat, skip: nat)
    ensures multiset(Page(s, limit, skip)) <= multiset(s)
  {
    var r := Page(s, limit, skip);
    if skip < |s| {
      assert s == s[..skip] + r + s[skip + |r|..];
    }
  }

  /** `getBlogPosts(limit = 10, skip = 0, category?)`: newest first, at most
      `limit` of them (`ListingIsSound` says which posts may appear). */
  function GetBlogPosts(posts: seq<BlogPost>, limit: Option<nat>, skip: Option<nat>, category: Option<string>)
    : (r: seq<BlogPost>)
    ensures SortedDesc(r)
    ensures limit.GetOr(DefaultLimit) > 0 ==> |r| <= limit.GetOr(DefaultLimit)
  {
    Page(SortByCreatedAtDesc(Filter(posts, category)), limit.GetOr(DefaultLimit), skip.GetOr(DefaultSkip))
  }

  /** A listing holds only stored, published posts, and only posts of the
      given category when one is named. */
  lemma ListingIsSound(posts: seq<BlogPost>, limit: Option<nat>, skip: Option<nat>, category: Option<string>)
    ensures var r := GetBlogPosts(posts, limit, skip, category);
      forall i :: 0 <= i < |r| ==> r[i] in posts && r[i].published
    ensures var r := GetBlogPosts(posts, limit, skip, category);
      forall i :: 0 <= i < |r| && Truthy(category) ==> r[i].category == category.value
  {
    var filtered := Filter(posts, category);
    var sorted := SortByCreatedAtDesc(filtered);
    var r := Page(sorted, limit.GetOr(DefaultLimit), skip.GetOr(DefaultSkip));
    assert r == GetBlogPosts(posts, limit, skip, category);
    forall i | 0 <= i < |r| ensures r[i] in filtered && Matches(r[i], category) {
      assert r[i] in multiset(sorted);
    }
  }

  /** With no limit and no skip the listing holds every matching post exactly
      as often as the table does, and nothing else. */
  lemma ListingIsComplete(posts: seq<BlogPost>, category: Option<string>)
    ensures multiset(GetBlogPosts(posts, Some(0), Some(0), category)) == multiset(Filter(posts, category))
    ensures forall p :: p in GetBlogPosts(posts, Some(0), Some(0), category) <==> p in posts && Matches(p, category)
    ensures forall x ::
      multiset(GetBlogPosts(posts, Some(0), Some(0), category))[x] == if Matches(x, category) then multiset(posts)[x] else 0
  {
    var sorted := SortByCreatedAtDesc(Filter(posts, category));
    forall x ensures multiset(sorted)[x] == if Matches(x, category) then multiset(posts)[x] else 0 {
      FilterCounts(posts, category, x);
    }
    assert Page(sorted, 0, 0) == sorted;
    forall p ensures p in sorted <==> p in Filter(posts, category) {
      assert p in sorted <==> p in multiset(sorted);
    }
  }

  /** How many posts a listing holds: after skipping `skip` matching posts, all
      the rest when the limit is 0, otherwise `limit` of them or all the rest
      when fewer are left. */
  lemma ListingLength(posts: seq<BlogPost>, limit: nat, skip: nat, category: Option<string>)
    ensures var n := |Filter(posts, category)|;
      |GetBlogPosts(posts, Some(limit), Some(skip), category)|
        == if skip >= n then 0 else if limit == 0 then n - skip else Min(limit, n - skip)
  {
    var f := Filter(posts, category);
    var s := SortByCreatedAtDesc(f);
    var n := |f|;
    assert |s| == n;
    var m := |Page(s, limit, skip)|;
    assert m == if skip >= n then 0 else if limit == 0 then n - skip else Min(limit, n - skip);
    assert |GetBlogPosts(posts, Some(limit), Some(skip), category)| == m by {
      ListingIsPage(posts, limit, skip, category);
    }
  }

  /** A missing or empty category applies no category filter. */
  lemma {:induction false} EmptyCategoryIsNoFilter(posts: seq<BlogPost>, category: Option<string>)
    requires !Truthy(category)
    ensures Filter(posts, category) == Filter(posts, None)
  {
    if posts != [] {
      EmptyCategoryIsNoFilter(posts[1..], category);
    }
  }

  /** Pages `[k, k + n)` and `[k + n, k + 2n)` together are page `[k, k + 2n)`. */
  lemma PagesAppend(s: seq<BlogPost>, n: nat, k: nat)
    requires n > 0
    ensures Page(s, n, k) + Page(s, n, k + n) == Page(s, 2 * n, k)
  {
  }

  lemma ListingIsPage(posts: seq<BlogPost>, limit: nat, skip: nat, category: Option<string>)
    ensures GetBlogPosts(posts, Some(limit), Some(skip), category)
         == Page(SortByCreatedAtDesc(Filter(posts, category)), limit, skip)
  {
  }

  /** A sequence in which every record occurs at most once has no repeated record. */
  lemma OnceIsDistinct(s: seq<BlogPost>)
    requires forall x :: multiset(s)[x] <= 1
    ensures Distinct(s)
  {
    forall i, j | 0 <= i < j < |s| ensures s[i] != s[j] {
      assert s == s[..j] + s[j..];
      assert multiset(s) == multiset(s[..j]) + multiset(s[j..]);
      assert s[..j][i] == s[i] && s[j..][0] == s[j];
      assert multiset(s[..j])[s[i]] >= 1 && multiset(s[j..])[s[j]] >= 1;
      assert multiset(s)[s[j]] <= 1;
    }
  }

  /** With unique ids, the sorted listing repeats no post. */
  lemma SortedListingDistinct(posts: seq<BlogPost>, category: Option<string>)
    requires UniqueIds(posts)
    ensures Distinct(SortByCreatedAtDesc(Filter(posts, category)))
  {
    var s := SortByCreatedAtDesc(Filter(posts, category));
    assert Distinct(posts);
    forall x ensures multiset(s)[x] <= 1 {
      DistinctOccursOnce(posts, x);
    }
    OnceIsDistinct(s);
  }

  /** Consecutive pages of a sequence without repeated records share no record. */
  lemma PagesDisjoint(s: seq<BlogPost>, n: nat, k: nat)
    requires n > 0
    requires Distinct(s)
    ensures forall p :: p in Page(s, n, k) ==> p !in Page(s, n, k + n)
  {
    var a, b := Page(s, n, k), Page(s, n, k + n);
    forall i, j | 0 <= i < |a| && 0 <= j < |b| ensures a[i] != b[j] {
      assert a[i] == s[k + i] && b[j] == s[k + n + j];
    }
  }

  // MongoDB sorts on `createdAt` alone, so posts with the same `createdAt` may
  // come back in a different order from one query to the next. Each query of
  // a run of pages is therefore any newest-first order of the matching posts.

  /** An order a query of `getBlogPosts` may see the matching posts in:
      newest first, ties in any order. */
  predicate IsListingOrder(s: seq<BlogPost>, posts: seq<BlogPost>, category: Option<string>) {
    SortedDesc(s) && multiset(s) == multiset(Filter(posts, category))
  }

  /** Different records carry different `createdAt` values. */
  predicate TimesDistinct(s: seq<BlogPost>) {
    forall x, y :: x in s && y in s && x != y ==> x.createdAt != y.createdAt
  }

  /** Without ties there is one newest-first order of a collection of records. */
  lemma {:induction false} SortedOrderIsUnique(a: seq<BlogPost>, b: seq<BlogPost>)
    requires SortedDesc(a) && SortedDesc(b) && multiset(a) == multiset(b)
    requires TimesDistinct(a)
    ensures a == b
    decreases |a|
  {
    if a != [] {
      assert a[0] in multiset(b);
      SameHead(a, b);
      SameTails(a, b);
      TailKeepsOrder(a);
      TailKeepsOrder(b);
      TailKeepsTimesDistinct(a);
      SortedOrderIsUnique(a[1..], b[1..]);
      assert a == [a[0]] + a[1..];
      assert b == [b[0]] + b[1..];
    }
  }

  /** The tail of a newest-first sequence is newest first. */
  lemma TailKeepsOrder(s: seq<BlogPost>)
    requires s != [] && SortedDesc(s)
    ensures SortedDesc(s[1..])
  {
  }

  /** The tail of a sequence without ties has none. */
  lemma TailKeepsTimesDistinct(s: seq<BlogPost>)
    requires s != [] && TimesDistinct(s)
    ensures TimesDistinct(s[1..])
  {
    forall x | x in s[1..] ensures x in s { }
  }

  /** The newest record comes first in both orders. */
  lemma SameHead(a: seq<BlogPost>, b: seq<BlogPost>)
    requires SortedDesc(a) && SortedDesc(b) && multiset(a) == multiset(b)
    requires TimesDistinct(a) && a != [] && b != []
    ensures a[0] == b[0]
  {
    assert b[0] in multiset(a) && a[0] in multiset(b);
    var j :| 0 <= j < |a| && a[j] == b[0];
    var k :| 0 <= k < |b| && b[k] == a[0];
    assert a[0].createdAt >= a[j].createdAt && b[0].createdAt >= b[k].createdAt;
  }

  /** Two sequences with the same records and the same head have tails with
      the same records. */
  lemma SameTails(a: seq<BlogPost>, b: seq<BlogPost>)
    requires a != [] && b != [] && a[0] == b[0] && multiset(a) == multiset(b)
    ensures multiset(a[1..]) == multiset(b[1..])
  {
    SplitHead(a);
    SplitHead(b);
    TailsAgree(a[0], multiset(a[1..]), multiset(b[1..]));
  }

  /** Taking one record away from two equal collections leaves equal collections. */
  lemma TailsAgree(x: BlogPost, m: multiset<BlogPost>, n: multiset<BlogPost>)
    requires multiset{x} + m == multiset{x} + n
    ensures m == n
  {
    forall y ensures m[y] == n[y] {
      assert (multiset{x} + m)[y] == (multiset{x} + n)[y];
    }
  }

  /** A non-empty sequence counts its head once more than its tail. */
  lemma SplitHead(s: seq<BlogPost>)
    requires s != []
    ensures multiset(s) == multiset{s[0]} + multiset(s[1..])
  {
    assert s == [s[0]] + s[1..];
  }

  /** Without ties among the matching posts, every order a query may see is
      the model's listing order. */
  lemma ListingOrderIsUnique(posts: seq<BlogPost>, category: Option<string>, s: seq<BlogPost>)
    requires TimesDistinct(Filter(posts, category))
    requires IsListingOrder(s, posts, category)
    ensures s == SortByCreatedAtDesc(Filter(posts, category))
  {
    var f := Filter(posts, category);
    var sorted := SortByCreatedAtDesc(f);
    assert TimesDistinct(sorted) by {
      forall x | x in sorted ensures x in f {
        assert x in multiset(sorted);
      }
    }
    SortedOrderIsUnique(sorted, s);
  }

  /** With a tie, two queries may see two orders whose consecutive pages
      share a post: page 0 of one and page 1 of the other are both `[a]`. */
  lemma TiesAllowOverlap(a: BlogPost, b: BlogPost)
    requires a.id != b.id && a.published && b.published && a.createdAt == b.createdAt
    ensures UniqueIds([a, b])
    ensures IsListingOrder([a, b], [a, b], None) && IsListingOrder([b, a], [a, b], None)
    ensures Page([a, b], 1, 0) == Page([b, a], 1, 1) == [a]
  {
    PublishedPairListed(a, b);
    assert multiset([b, a]) == multiset([a, b]);
    assert SortedDesc([a, b]) && SortedDesc([b, a]);
  }

  /** Two published posts are both listed, in stored order, when no category is named. */
  lemma PublishedPairListed(a: BlogPost, b: BlogPost)
    requires a.published && b.published
    ensures Filter([a, b], None) == [a, b]
  {
    assert [a, b][1..] == [b] && [b][1..] == [];
    assert Filter([b], None) == [b];
  }

  /** Without ties, two consecutive pages of size `n`, each from its own
      query, are the page of size `2n`. */
  lemma ConsecutivePages(posts: seq<BlogPost>, n: nat, k: nat, category: Option<string>,
                         first: seq<BlogPost>, second: seq<BlogPost>)
    requires n > 0
    requires TimesDistinct(Filter(posts, category))
    requires IsListingOrder(first, posts, category) && IsListingOrder(second, posts, category)
    ensures Page(first, n, k) + Page(second, n, k + n) == GetBlogPosts(posts, Some(2 * n), Some(k), category)
  {
    var s := SortByCreatedAtDesc(Filter(posts, category));
    ListingOrderIsUnique(posts, category, first);
    ListingOrderIsUnique(posts, category, second);
    PagesAppend(s, n, k);
    ListingIsPage(posts, 2 * n, k, category);
  }

  /** Without ties, and with unique ids, two consecutive pages, each from its
      own query, share no post. */
  lemma ConsecutivePagesDisjoint(posts: seq<BlogPost>, n: nat, k: nat, category: Option<string>,
                                 first: seq<BlogPost>, second: seq<BlogPost>)
    requires n > 0
    requires UniqueIds(posts)
    requires TimesDistinct(Filter(posts, category))
    requires IsListingOrder(first, posts, category) && IsListingOrder(second, posts, category)
    ensures forall p :: p in Page(first, n, k) ==> p !in Page(second, n, k + n)
  {
    var s := SortByCreatedAtDesc(Filter(posts, category));
    ListingOrderIsUnique(posts, category, first);
    ListingOrderIsUnique(posts, category, second);
    SortedListingDistinct(posts, category);
    PagesDisjoint(s, n, k);
  }

  // ---------------------------------------------------------------------------
  // The collection and the operations that change it
  // ---------------------------------------------------------------------------

  /** The `posts` collection of the `blogspace` database. */
  class PostTable {
    var posts: seq<BlogPost>

    /** The `_id` index is unique. */
    ghost predicate Valid()
      reads this
    {
      UniqueIds(posts)
    }

    constructor ()
      ensures Valid() && posts == []
    {
      posts := [];
    }

    /** `createBlogPost(post)`: inserts one record stamped with `now` and the
        generated `id`, after every existing record, which stay as they were. */
    method CreateBlogPost(post: NewPost, id: ObjectId, now: Date) returns (r: Result<ObjectId, WriteError>)
      requires Valid()
      modifies this
      ensures Valid()
      ensures IndexOf(old(posts), id).Some? ==> r == Failure(DuplicateKey) && posts == old(posts)
      ensures IndexOf(old(posts), id).None? ==>
        r == Success(id) && posts == old(posts) + [Stamp(post, id, now)]
    {
      if IndexOf(posts, id).Some? {
        return Failure(DuplicateKey);
      }
      posts := posts + [Stamp(post, id, now)];
      r := Success(id);
    }

    /** `getBlogPost(id)`: a published post with that id is returned as it was
        read, and afterwards its `views` is one higher; nothing else changes.
        Otherwise nothing is returned and nothing changes. */
    method GetBlogPost(id: ObjectId) returns (r: Option<BlogPost>)
      requires Valid()
      modifies this
      ensures Valid()
      ensures r.Some? <==> exists i :: 0 <= i < |old(posts)| && old(posts)[i].id == id && old(posts)[i].published
      ensures r.None? ==> posts == old(posts)
      ensures r.Some? ==> r.value in old(posts) && r.value.id == id && r.value.published
      ensures r.Some? ==> |posts| == |old(posts)| && forall i :: 0 <= i < |posts| ==>
        posts[i] == if old(posts)[i].id == id then old(posts)[i].(views := old(posts)[i].views + 1) else old(posts)[i]
    {
      var found := IndexOf(posts, id);
      if found.None? || !posts[found.value].published {
        return None;
      }
      var i := found.value;
      r := Some(posts[i]);
      posts := posts[i := posts[i].(views := posts[i].views + 1)];
    }

    /** `updateBlogPost(id, updates)`: the post with that id takes every
        supplied field and `updatedAt := now`; all other posts are unchanged.
        An unknown id matches nothing and changes nothing. */
    method UpdateBlogPost(id: ObjectId, updates: PostUpdate, now: Date) returns (r: Result<UpdateResult, WriteError>)
      requires Valid()
      modifies this
      ensures Valid()
      ensures IndexOf(old(posts), id).None? ==> r == Success(UpdateResult(0, 0)) && posts == old(posts)
      ensures IndexOf(old(posts), id).Some? && updates.id.Some? && updates.id.value != id ==>
        r == Failure(ImmutableId) && posts == old(posts)
      ensures IndexOf(old(posts), id).Some? && (updates.id.None? || updates.id.value == id) ==>
        var i := IndexOf(old(posts), id).value;
        && posts == old(posts)[i := ApplySet(old(posts)[i], updates, now)]
        && r == Success(UpdateResult(1, if posts[i] == old(posts)[i] then 0 else 1))
    {
      var found := IndexOf(posts, id);
      if found.None? {
        return Success(UpdateResult(0, 0));
      }
      if updates.id.Some? && updates.id.value != id {
        return Failure(ImmutableId);
      }
      var i := found.value;
      var updated := ApplySet(posts[i], updates, now);
      r := Success(UpdateResult(1, if updated == posts[i] then 0 else 1));
      posts := posts[i := updated];
    }

    /** `deleteBlogPost(id)`: removes the post with that id whoever wrote it and
        whether or not it is published; the others stay in order. */
    method DeleteBlogPost(id: ObjectId) returns (deletedCount: nat)
      requires Valid()
      modifies this
      ensures Valid()
      ensures deletedCount <= 1
      ensures IndexOf(old(posts), id).None? ==> deletedCount == 0 && posts == old(posts)
      ensures IndexOf(old(posts), id).Some? ==>
        var i := IndexOf(old(posts), id).value;
        deletedCount == 1 && posts == old(posts)[..i] + old(posts)[i + 1..]
      ensures forall p :: p in posts <==> p in old(posts) && p.id != id
    {
      var found := IndexOf(posts, id);
      if found.None? {
        return 0;
      }
      var i := found.value;
      RemoveAtMembers(posts, i);
      posts := posts[..i] + posts[i + 1..];
      deletedCount := 1;
    }
  }

  /** Removing the record at `i` from a table with unique ids removes exactly
      the records with its id, and keeps the ids unique. */
  lemma RemoveAtMembers(posts: seq<BlogPost>, i: nat)
    requires UniqueIds(posts) && i < |posts|
    ensures UniqueIds(posts[..i] + posts[i + 1..])
    ensures forall p :: p in posts[..i] + posts[i + 1..] <==> p in posts && p.id != posts[i].id
  {
    var r := posts[..i] + posts[i + 1..];
    assert forall j :: 0 <= j < |r| ==> r[j] == posts[if j < i then j else j + 1];
    forall p | p in posts && p.id != posts[i].id ensures p in r {
      var j :| 0 <= j < |posts| && posts[j] == p;
      if j < i { assert r[j] == p; } else { assert r[j - 1] == p; }
    }
  }

  /** The `$set` of `updateBlogPost`: every supplied field overwrites, every
      absent one is kept, the `_id` is kept (`UpdateBlogPost` refuses a
      different one), and `updatedAt` is `now` whether or not the caller
      supplied one. */
  function ApplySet(p: BlogPost, u: PostUpdate, now: Date): (q: BlogPost)
    ensures q.id == p.id && q.updatedAt == now
    ensures (u.title.Some? ==> q.title == u.title.value) && (u.title.None? ==> q.title == p.title)
    ensures (u.content.Some? ==> q.content == u.content.value) && (u.content.None? ==> q.content == p.content)
    ensures (u.excerpt.Some? ==> q.excerpt == u.excerpt.value) && (u.excerpt.None? ==> q.excerpt == p.excerpt)
    ensures (u.author.Some? ==> q.author == u.author.value) && (u.author.None? ==> q.author == p.author)
    ensures (u.authorId.Some? ==> q.authorId == u.authorId.value) && (u.authorId.None? ==> q.authorId == p.authorId)
    ensures (u.category.Some? ==> q.category == u.category.value) && (u.category.None? ==> q.category == p.category)
    ensures (u.tags.Some? ==> q.tags == u.tags.value) && (u.tags.None? ==> q.tags == p.tags)
    ensures (u.createdAt.Some? ==> q.createdAt == u.createdAt.value) && (u.createdAt.None? ==> q.createdAt == p.createdAt)
    ensures (u.published.Some? ==> q.published == u.published.value) && (u.published.None? ==> q.published == p.published)
    ensures (u.likes.Some? ==> q.likes == u.likes.value) && (u.likes.None? ==> q.likes == p.likes)
    ensures (u.views.Some? ==> q.views == u.views.value) && (u.views.None? ==> q.views == p.views)
  {
    p.(title := u.title.GetOr(p.title),
       content := u.content.GetOr(p.content),
       excerpt := u.excerpt.GetOr(p.excerpt),
       author := u.author.GetOr(p.author),
       authorId := u.authorId.GetOr(p.authorId),
       category := u.category.GetOr(p.category),
       tags := u.tags.GetOr(p.tags),
       createdAt := u.createdAt.GetOr(p.createdAt),
       updatedAt := now,
       published := u.published.GetOr(p.published),
       likes := u.likes.GetOr(p.likes),
       views := u.views.GetOr(p.views))
  }

  /** An update that supplies no field. */
  const NoFields := PostUpdate(None, None, None, None, None, None, None, None, None, None, None, None, None)

  /** An update that supplies no field only moves `updatedAt`. */
  lemma EmptyUpdateOnlyTouches(p: BlogPost, now: Date)
    ensures ApplySet(p, NoFields, now) == p.(updatedAt := now)
  {
  }

  /** Repeating the same update at the same time changes nothing more. */
  lemma UpdateIsIdempotent(p: BlogPost, u: PostUpdate, now: Date)
    ensures ApplySet(ApplySet(p, u, now), u, now) == ApplySet(p, u, now)
  {
  }
}
