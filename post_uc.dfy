/** The post use case of post/postUC.go: a title rule and an id rule in front
    of the post repository, and aggregation of a stored post with its author
    looked up in the author repository. */
module PostUseCase {
  import opened Base
  import opened PostDomain
  import opened PostRepository
  import Authors = AuthorRepository

  /** Fewest bytes a post title may have. */
  const MinTitleLength := 5

  /** isValidTitle: the title rule, applied by both `Add` and `GetByTitle`. */
  function IsValidTitle(title: Bytes): (valid: bool)
    ensures valid <==> |title| >= 5
  {
    |title| >= MinTitleLength
  }

  /** What `fillPost` returns for the stored record `p` when the author
      repository holds `authors`: `p` paired with the author the author
      repository finds for `p.authorId`, or that repository's NotFound. */
  function Fill(authors: seq<Authors.Author>, p: RepoPost): (r: Result<Post>)
    ensures r.Ok? <==> exists i :: 0 <= i < |authors| && authors[i].id == p.authorId
    ensures r.Ok? ==> r.value.post == p && r.value.author.id == p.authorId
    ensures r.Ok? ==> Ok(r.value.author) == Authors.LookupById(authors, p.authorId)
    ensures r.Err? ==> r.error == NotFoundId(p.authorId)
  {
    match Authors.LookupById(authors, p.authorId)
    case Ok(a) => Ok(Post(p, a))
    case Err(e) => Err(e)
  }

  /** The record `Add` hands to the post repository once the title passed:
      id 0, so the repository assigns the next id. */
  function NewRecord(posts: seq<RepoPost>, authorId: int, title: Bytes, body: Bytes): (r: RepoPost)
    ensures r == Assigned(posts, RepoPost(0, authorId, title, body))
    ensures r.id == NextIdOf(posts)
  {
    RepoPost(NextIdOf(posts), authorId, title, body)
  }

  /** The post collection after `Add`: one record more when the title is
      valid, whatever then happens to the author lookup. */
  function PostsAfterAdd(posts: seq<RepoPost>, authorId: int, title: Bytes, body: Bytes): (s: seq<RepoPost>)
    ensures !IsValidTitle(title) ==> s == posts
    ensures IsValidTitle(title) ==> |s| == |posts| + 1 && s[..|posts|] == posts
    ensures IsValidTitle(title) ==> s[|posts|] == NewRecord(posts, authorId, title, body)
  {
    if IsValidTitle(title) then posts + [NewRecord(posts, authorId, title, body)] else posts
  }

  /** What `Add` returns. */
  function AddOf(posts: seq<RepoPost>, authors: seq<Authors.Author>, authorId: int, title: Bytes, body: Bytes)
    : (r: Result<Post>)
    ensures !IsValidTitle(title) ==> r == Err(InvalidTitle(title))
    ensures r.Ok? <==> IsValidTitle(title) && exists i :: 0 <= i < |authors| && authors[i].id == authorId
    ensures r.Ok? ==> r.value.post == NewRecord(posts, authorId, title, body)
    ensures r.Ok? ==> Ok(r.value.author) == Authors.LookupById(authors, authorId)
    ensures IsValidTitle(title) && r.Err? ==> r.error == NotFoundId(authorId)
  {
    if !IsValidTitle(title) then Err(InvalidTitle(title))
    else Fill(authors, NewRecord(posts, authorId, title, body))
  }

  /** What `GetById` returns. */
  function GetByIdOf(posts: seq<RepoPost>, authors: seq<Authors.Author>, id: int): (r: Result<Post>)
    ensures id < 1 ==> r == Err(InvalidId(id))
    ensures id >= 1 && LookupById(posts, id).Err? ==> r == Err(NotFoundId(id))
    ensures id >= 1 && LookupById(posts, id).Ok? ==> r == Fill(authors, LookupById(posts, id).value)
    ensures r.Ok? ==> r.value.post.id == id && Ok(r.value.post) == LookupById(posts, id)
    ensures r.Ok? ==> Ok(r.value.author) == Authors.LookupById(authors, r.value.post.authorId)
  {
    if id < 1 then Err(InvalidId(id))
    else
      match LookupById(posts, id)
      case Err(e) => Err(e)
      case Ok(p) => Fill(authors, p)
  }

  /** What `GetByTitle` returns. */
  function GetByTitleOf(posts: seq<RepoPost>, authors: seq<Authors.Author>, title: Bytes): (r: Result<Post>)
    ensures !IsValidTitle(title) ==> r == Err(InvalidTitle(title))
    ensures IsValidTitle(title) && LookupByTitle(posts, title).Err? ==> r == Err(NotFoundTitle(title))
    ensures IsValidTitle(title) && LookupByTitle(posts, title).Ok? ==> r == Fill(authors, LookupByTitle(posts, title).value)
    ensures r.Ok? ==> r.value.post.title == title && Ok(r.value.post) == LookupByTitle(posts, title)
    ensures r.Ok? ==> Ok(r.value.author) == Authors.LookupById(authors, r.value.post.authorId)
  {
    if !IsValidTitle(title) then Err(InvalidTitle(title))
    else
      match LookupByTitle(posts, title)
      case Err(e) => Err(e)
      case Ok(p) => Fill(authors, p)
  }

  /** The use case holds references to the two repositories it does not own. */
  datatype PostUC = PostUC(postRepo: MemoryPostRepo, authorRepo: Authors.MemoryAuthorRepo) {

    /** Pairs the stored record `p` with its author. */
    method FillPost(p: RepoPost) returns (r: Result<Post>)
      ensures r == Fill(authorRepo.authors, p)
    {
      var a := authorRepo.GetById(p.authorId);
      match a
      case Err(e) => return Err(e);
      case Ok(author) => return Ok(Post(p, author));
    }

    /** Stores a new post and returns it with its author. The post is stored
        before its author is looked up, so a missing author fails the call
        after the post was added. The author repository is never changed. */
    method Add(authorId: int, title: Bytes, body: Bytes) returns (r: Result<Post>)
      modifies postRepo
      ensures postRepo.posts == PostsAfterAdd(old(postRepo.posts), authorId, title, body)
      ensures r == AddOf(old(postRepo.posts), authorRepo.authors, authorId, title, body)
      ensures authorRepo.authors == old(authorRepo.authors)
    {
      if !IsValidTitle(title) {
        return Err(InvalidTitle(title));
      }
      var stored := postRepo.Add(RepoPost(0, authorId, title, body));
      r := FillPost(stored);
    }

    /** Looks a post up by id and resolves its author. */
    method GetById(id: int) returns (r: Result<Post>)
      ensures r == GetByIdOf(postRepo.posts, authorRepo.authors, id)
    {
      if id < 1 {
        return Err(InvalidId(id));
      }
      var found := postRepo.GetById(id);
      match found
      case Err(e) => return Err(e);
      case Ok(p) => r := FillPost(p);
    }

    /** Looks a post up by exact title and resolves its author. */
    method GetByTitle(title: Bytes) returns (r: Result<Post>)
      ensures r == GetByTitleOf(postRepo.posts, authorRepo.authors, title)
    {
      if !IsValidTitle(title) {
        return Err(InvalidTitle(title));
      }
      var found := postRepo.GetByTitle(title);
      match found
      case Err(e) => return Err(e);
      case Ok(p) => r := FillPost(p);
    }
  }

  /** NewPostUC: the post repository is checked first, then the author
      repository; the use case exists only when both are present. */
  function NewPostUC(postRepo: MemoryPostRepo?, authorRepo: Authors.MemoryAuthorRepo?): (r: Result<PostUC>)
    ensures r.Ok? <==> postRepo != null && authorRepo != null
    ensures postRepo == null ==> r == Err(NilPostRepo)
    ensures postRepo != null && authorRepo == null ==> r == Err(NilAuthorRepo)
    ensures r.Ok? ==> r.value.postRepo == postRepo && r.value.authorRepo == authorRepo
  {
    if postRepo == null then Err(NilPostRepo)
    else if authorRepo == null then Err(NilAuthorRepo)
    else Ok(PostUC(postRepo, authorRepo))
  }

  /** The missing-author gap: with a valid title and no author of that id,
      `Add` fails with the author repository's NotFound, yet the post is
      stored and found by id, and `GetById` on it fails the same way. */
  lemma MissingAuthorGap(posts: seq<RepoPost>, authors: seq<Authors.Author>, authorId: int, title: Bytes, body: Bytes)
    requires IsValidTitle(title)
    requires forall i :: 0 <= i < |authors| ==> authors[i].id != authorId
    ensures AddOf(posts, authors, authorId, title, body) == Err(NotFoundId(authorId))
    ensures var after := PostsAfterAdd(posts, authorId, title, body);
            && LookupById(after, NextIdOf(posts)) == Ok(NewRecord(posts, authorId, title, body))
            && GetByIdOf(after, authors, NextIdOf(posts)) == Err(NotFoundId(authorId))
  {
  }

  /** Round trip through the use case: a successful `Add` followed by
      `GetById` on the new id returns the same aggregate. */
  lemma AddThenGetById(posts: seq<RepoPost>, authors: seq<Authors.Author>, authorId: int, title: Bytes, body: Bytes)
    requires AddOf(posts, authors, authorId, title, body).Ok?
    ensures var r := AddOf(posts, authors, authorId, title, body);
            GetByIdOf(PostsAfterAdd(posts, authorId, title, body), authors, r.value.post.id) == r
  {
  }

  /** A successful `Add` under a title no stored post has yet is what
      `GetByTitle` then returns. */
  lemma AddThenGetByTitle(posts: seq<RepoPost>, authors: seq<Authors.Author>, authorId: int, title: Bytes, body: Bytes)
    requires AddOf(posts, authors, authorId, title, body).Ok?
    requires forall i :: 0 <= i < |posts| ==> posts[i].title != title
    ensures GetByTitleOf(PostsAfterAdd(posts, authorId, title, body), authors, title) ==
            AddOf(posts, authors, authorId, title, body)
  {
  }

  /** A title already in use keeps answering with the earliest post: a later
      `Add` under the same title does not change what `GetByTitle` returns. */
  lemma DuplicateTitleKeepsFirst(posts: seq<RepoPost>, authors: seq<Authors.Author>, authorId: int, title: Bytes, body: Bytes)
    requires exists i :: 0 <= i < |posts| && posts[i].title == title
    ensures GetByTitleOf(PostsAfterAdd(posts, authorId, title, body), authors, title) ==
            GetByTitleOf(posts, authors, title)
  {
  }
}
