/** Clients of the two use cases, replaying the seed data and the calls of
    cmd/authorsSvc/main.go and cmd/postsSvc/main.go. Where main.go panics on
    an error, these methods promise the call succeeds and what it returns. */
module Services {
  import opened Base
  import opened PostDomain
  import opened AuthorRepository
  import opened AuthorUseCase
  import PostRepository
  import PostUseCase

  /** The two authors both services start from. */
  function SeedAuthors(): (s: seq<Author>)
    ensures DistinctIds(s)
  {
    [Author(1, Ascii("Joe Jones")), Author(2, Ascii("Sue Sutherland"))]
  }

  /** cmd/authorsSvc/main.go: add "Mary Lamb", then look up ids 1 and 3. */
  method AuthorsService() returns (added: Result<Author>, first: Result<Author>, third: Result<Author>)
    ensures added == Ok(Author(3, Ascii("Mary Lamb")))
    ensures first == Ok(Author(1, Ascii("Joe Jones")))
    ensures third == added
  {
    var repo := new MemoryAuthorRepo(SeedAuthors());
    var uc := NewAuthorUC(repo).value;
    added := uc.Add(Ascii("Mary Lamb"));
    first := uc.GetById(1);
    third := uc.GetById(3);
    assert repo.authors[2] == Author(3, Ascii("Mary Lamb"));
  }

  /** cmd/postsSvc/main.go: three posts added to an empty post repository,
      then looked up by ids 1 and 3 and by the title "Test Post 1.2". */
  method PostsService() returns (post11: Result<Post>, post12: Result<Post>, post21: Result<Post>,
                                 byId1: Result<Post>, byId3: Result<Post>, byTitle: Result<Post>)
    ensures post11 == Ok(Post(RepoPost(1, 1, Ascii("Test Post 1.1"), Ascii("This is the first test post.")),
                              Author(1, Ascii("Joe Jones"))))
    ensures post12 == Ok(Post(RepoPost(2, 1, Ascii("Test Post 1.2"), Ascii("This is the second test post.")),
                              Author(1, Ascii("Joe Jones"))))
    ensures post21 == Ok(Post(RepoPost(3, 2, Ascii("Test Post 2.1"), Ascii("This is the third test post.")),
                              Author(2, Ascii("Sue Sutherland"))))
    ensures byId1 == post11 && byId3 == post21 && byTitle == post12
  {
    var postRepo := new PostRepository.MemoryPostRepo([]);
    var authorRepo := new MemoryAuthorRepo(SeedAuthors());
    var uc := PostUseCase.NewPostUC(postRepo, authorRepo).value;
    post11 := uc.Add(1, Ascii("Test Post 1.1"), Ascii("This is the first test post."));
    post12 := uc.Add(1, Ascii("Test Post 1.2"), Ascii("This is the second test post."));
    post21 := uc.Add(2, Ascii("Test Post 2.1"), Ascii("This is the third test post."));
    var p1 := post11.value.post;
    var p2 := post12.value.post;
    var p3 := post21.value.post;
    assert postRepo.posts == [p1, p2, p3];
    byId1 := uc.GetById(1);
    byId3 := uc.GetById(3);
    assert PostRepository.IdIndex(postRepo.posts, 3) == 2;
    byTitle := uc.GetByTitle(Ascii("Test Post 1.2"));
    assert p1.title != Ascii("Test Post 1.2") by {
      assert p1.title[12] != Ascii("Test Post 1.2")[12];
    }
  }

  /** The author validation boundaries on a fresh, empty repository: a
      2-byte name fails and a 3-byte one passes, id 0 fails and id 1 is
      looked up. */
  method AuthorValidationBoundaries() returns (name2: Result<Author>, name3: Result<Author>,
                                               id0: Result<Author>, id1: Result<Author>)
    ensures name2 == Err(InvalidName(Ascii("Jo")))
    ensures name3 == Ok(Author(1, Ascii("Joe")))
    ensures id0 == Err(InvalidId(0))
    ensures id1 == name3
  {
    var authorRepo := new MemoryAuthorRepo([]);
    var authors := NewAuthorUC(authorRepo).value;
    name2 := authors.Add(Ascii("Jo"));
    name3 := authors.Add(Ascii("Joe"));
    id0 := authors.GetById(0);
    id1 := authors.GetById(1);
  }

  /** The title boundary on fresh repositories: a 4-byte title fails without
      storing anything, and a 5-byte one passes the rule (the call then fails
      only because no author has id 7, after the post was stored). */
  method TitleBoundaries() returns (title4: Result<Post>, title5: Result<Post>,
                                    postRepo: PostRepository.MemoryPostRepo)
    ensures title4 == Err(InvalidTitle(Ascii("Post")))
    ensures title5 == Err(NotFoundId(7))
    ensures postRepo.posts == [RepoPost(1, 7, Ascii("Posts"), [])]
  {
    var authorRepo := new MemoryAuthorRepo(SeedAuthors());
    postRepo := new PostRepository.MemoryPostRepo([]);
    var posts := PostUseCase.NewPostUC(postRepo, authorRepo).value;
    title4 := posts.Add(7, Ascii("Post"), []);
    title5 := posts.Add(7, Ascii("Posts"), []);
  }

  /** The missing-author gap end to end: the add fails with the author
      repository's NotFound, the post is stored under id 1 anyway, and
      reading it back fails with the same author NotFound. */
  method MissingAuthorScenario() returns (added: Result<Post>, stored: Result<RepoPost>, read: Result<Post>)
    ensures added == Err(NotFoundId(9))
    ensures stored == Ok(RepoPost(1, 9, Ascii("Orphan post"), []))
    ensures read == added
  {
    var postRepo := new PostRepository.MemoryPostRepo([]);
    var authorRepo := new MemoryAuthorRepo(SeedAuthors());
    var uc := PostUseCase.NewPostUC(postRepo, authorRepo).value;
    added := uc.Add(9, Ascii("Orphan post"), []);
    stored := postRepo.GetById(1);
    read := uc.GetById(1);
  }
}
