/** The in-memory post repository of post/postRepo.go: a sequence of stored
    posts that grows by appending, with identity assignment (max + 1) in its
    own id space and first-match lookups by id and by title. */
module PostRepository {
  import opened Base
  import opened PostDomain

  /** Largest id among `s` and 0, accumulated front to back as `nextId` does. */
  function MaxId(s: seq<RepoPost>): (m: int)
    ensures 0 <= m
    ensures forall i :: 0 <= i < |s| ==> s[i].id <= m
    ensures m == 0 || exists i :: 0 <= i < |s| && s[i].id == m
  {
    if s == [] then 0
    else
      var m0 := MaxId(s[..|s| - 1]);
      if s[|s| - 1].id > m0 then s[|s| - 1].id else m0
  }

  /** The id `nextId` hands out for a collection `s`: one above every stored
      id and at least 1. */
  function NextIdOf(s: seq<RepoPost>): (n: int)
    ensures 1 <= n
    ensures forall i :: 0 <= i < |s| ==> s[i].id < n
    ensures n == 1 || exists i :: 0 <= i < |s| && s[i].id == n - 1
  {
    MaxId(s) + 1
  }

  /** The record `Add` stores for `p` given the collection `s`. */
  function Assigned(s: seq<RepoPost>, p: RepoPost): (r: RepoPost)
    ensures r.authorId == p.authorId && r.title == p.title && r.body == p.body
    ensures 1 <= r.id
    ensures p.id >= 1 ==> r.id == p.id
    ensures p.id < 1 ==> r.id == NextIdOf(s)
  {
    if p.id < 1 then p.(id := NextIdOf(s)) else p
  }

  /** Position of the first post in `s` whose id is `id`, or `|s|` if none. */
  function IdIndex(s: seq<RepoPost>, id: int): (k: nat)
    ensures k <= |s|
    ensures forall j :: 0 <= j < k ==> s[j].id != id
    ensures k < |s| ==> s[k].id == id
  {
    if s == [] then 0
    else if s[0].id == id then 0
    else 1 + IdIndex(s[1..], id)
  }

  /** What `GetById` returns on the collection `s`: the first post with the
      id, or NotFound carrying the id when none has it. */
  function LookupById(s: seq<RepoPost>, id: int): (r: Result<RepoPost>)
    ensures r.Ok? <==> exists i :: 0 <= i < |s| && s[i].id == id
    ensures r.Ok? ==> r.value.id == id
    ensures r.Ok? ==> exists i :: 0 <= i < |s| && s[i] == r.value && forall j :: 0 <= j < i ==> s[j].id != id
    ensures r.Err? ==> r.error == NotFoundId(id)
  {
    var k := IdIndex(s, id);
    if k < |s| then Ok(s[k]) else Err(NotFoundId(id))
  }

  /** Position of the first post in `s` whose title is exactly `title`, or
      `|s|` if none. */
  function TitleIndex(s: seq<RepoPost>, title: Bytes): (k: nat)
    ensures k <= |s|
    ensures forall j :: 0 <= j < k ==> s[j].title != title
    ensures k < |s| ==> s[k].title == title
  {
    if s == [] then 0
    else if s[0].title == title then 0
    else 1 + TitleIndex(s[1..], title)
  }

  /** What `GetByTitle` returns on the collection `s`: the first post, in
      insertion order, whose title is exactly `title`, or NotFound. */
  function LookupByTitle(s: seq<RepoPost>, title: Bytes): (r: Result<RepoPost>)
    ensures r.Ok? <==> exists i :: 0 <= i < |s| && s[i].title == title
    ensures r.Ok? ==> r.value.title == title
    ensures r.Ok? ==> exists i :: 0 <= i < |s| && s[i] == r.value && forall j :: 0 <= j < i ==> s[j].title != title
    ensures r.Err? ==> r.error == NotFoundTitle(title)
  {
    var k := TitleIndex(s, title);
    if k < |s| then Ok(s[k]) else Err(NotFoundTitle(title))
  }

  /** No two stored posts share an id. */
  predicate DistinctIds(s: seq<RepoPost>)
  {
    forall i, j :: 0 <= i < j < |s| ==> s[i].id != s[j].id
  }

  class MemoryPostRepo {
    var posts: seq<RepoPost>

    /** NewMemoryPostRepo: the repository starts with the given posts. */
    constructor (posts: seq<RepoPost>)
      ensures this.posts == posts
    {
      this.posts := posts;
    }

    /** One above the largest stored id, or 1 when none is positive. */
    method NextId() returns (id: int)
      ensures id == NextIdOf(posts)
    {
      var maxId := 0;
      for i := 0 to |posts|
        invariant maxId == MaxId(posts[..i])
      {
        assert posts[..i + 1][..i] == posts[..i];
        if posts[i].id > maxId {
          maxId := posts[i].id;
        }
      }
      assert posts[..|posts|] == posts;
      id := maxId + 1;
    }

    /** Stores `post`, giving it the next id when its own is below 1, and
        returns the stored record. It never fails. */
    method Add(post: RepoPost) returns (stored: RepoPost)
      modifies this
      ensures stored == Assigned(old(posts), post)
      ensures posts == old(posts) + [stored]
    {
      stored := post;
      if stored.id < 1 {
        var next := NextId();
        stored := stored.(id := next);
      }
      posts := posts + [stored];
    }

    /** The first stored post whose id is `id`, or NotFound. */
    method GetById(id: int) returns (r: Result<RepoPost>)
      ensures r == LookupById(posts, id)
    {
      for i := 0 to |posts|
        invariant forall j :: 0 <= j < i ==> posts[j].id != id
      {
        if posts[i].id == id {
          return Ok(posts[i]);
        }
      }
      return Err(NotFoundId(id));
    }

    /** The first stored post whose title is exactly `title`, or NotFound. */
    method GetByTitle(title: Bytes) returns (r: Result<RepoPost>)
      ensures r == LookupByTitle(posts, title)
    {
      for i := 0 to |posts|
        invariant forall j :: 0 <= j < i ==> posts[j].title != title
      {
        if posts[i].title == title {
          return Ok(posts[i]);
        }
      }
      return Err(NotFoundTitle(title));
    }
  }

  /** Appending leaves every earlier id match in place and makes the new
      record findable only where nothing earlier had its id. */
  lemma {:induction false} LookupAppend(s: seq<RepoPost>, x: RepoPost, id: int)
    ensures LookupById(s + [x], id) ==
            if LookupById(s, id).Ok? then LookupById(s, id)
            else if x.id == id then Ok(x)
            else Err(NotFoundId(id))
  {
    var k := IdIndex(s, id);
    var k' := IdIndex(s + [x], id);
    if k < |s| {
      assert (s + [x])[k] == s[k];
      assert k' == k;
    } else if x.id == id {
      assert (s + [x])[|s|] == x;
      assert k' == |s|;
    } else {
      assert k' == |s| + 1;
    }
  }

  /** Appending never changes which post an existing title finds: with
      duplicate titles the earliest stays the answer. */
  lemma {:induction false} TitleLookupAppend(s: seq<RepoPost>, x: RepoPost, title: Bytes)
    ensures LookupByTitle(s + [x], title) ==
            if LookupByTitle(s, title).Ok? then LookupByTitle(s, title)
            else if x.title == title then Ok(x)
            else Err(NotFoundTitle(title))
  {
    var k := TitleIndex(s, title);
    var k' := TitleIndex(s + [x], title);
    if k < |s| {
      assert (s + [x])[k] == s[k];
      assert k' == k;
    } else if x.title == title {
      assert (s + [x])[|s|] == x;
      assert k' == |s|;
    } else {
      assert k' == |s| + 1;
    }
  }

  /** Round trip: after an auto-id `Add`, looking up the returned id yields
      the returned record. */
  lemma AddThenGet(s: seq<RepoPost>, p: RepoPost)
    requires p.id < 1
    ensures LookupById(s + [Assigned(s, p)], Assigned(s, p).id) == Ok(Assigned(s, p))
  {
    LookupAppend(s, Assigned(s, p), Assigned(s, p).id);
  }

  /** An auto-id `Add` keeps stored ids pairwise distinct. */
  lemma AddPreservesDistinctIds(s: seq<RepoPost>, p: RepoPost)
    requires DistinctIds(s)
    requires p.id < 1
    ensures DistinctIds(s + [Assigned(s, p)])
  {
  }

  /** With distinct ids, looking up a stored post's id yields that post. */
  lemma LookupDistinct(s: seq<RepoPost>, k: int)
    requires DistinctIds(s)
    requires 0 <= k < |s|
    ensures LookupById(s, s[k].id) == Ok(s[k])
  {
  }

  /** Two successive auto-id adds hand out strictly increasing ids, the
      second one exactly one above the first. */
  lemma AutoIdsIncrease(s: seq<RepoPost>, p: RepoPost, q: RepoPost)
    requires p.id < 1 && q.id < 1
    ensures Assigned(s + [Assigned(s, p)], q).id == Assigned(s, p).id + 1
  {
  }
}
