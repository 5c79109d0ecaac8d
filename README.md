# Authors and posts: repositories and use cases

A Dafny model of the two vertical slices of a small Go layered data-access
demonstration. In each slice a **repository** owns an in-memory collection of
records. It assigns identities (largest stored id + 1, or 1) and looks records
up by linear, first-match scans. A **use case** checks validation rules before
it delegates to the repository. The post use case also builds a `Post`
aggregate by pairing a stored post with the author it references.

Layout: one module per core Go file, plus `Base` for the shared values and
`Services` for the two `cmd` programs:

- `base.dfy` (`Base`): Go strings as byte strings (`Bytes = seq<byte>`, so `|s|` is Go's `len(s)`), the error taxonomy and the `(value, error)` result.
- `author_repo.dfy` (`AuthorRepository`): `Author {id, name}` and the class `MemoryAuthorRepo`, whose `authors: seq<Author>` field is reassigned by `Add`. Its `NextId`, `Add` and `GetById` methods are proved against the functions `MaxId`, `NextIdOf`, `Assigned`, `IdIndex` and `LookupById`.
- `author_uc.dfy` (`AuthorUseCase`): the name rule (3 bytes or more) and the id rule (1 or more) in front of the repository.
- `post_domain.dfy` (`PostDomain`): the stored record `RepoPost {id, authorId, title, body}`, which refers to its author by id only, and the aggregate `Post {post, author}`.
- `post_repo.dfy` (`PostRepository`): the class `MemoryPostRepo`. Its id space is separate from the authors'. It adds a first-match lookup by exact title.
- `post_uc.dfy` (`PostUseCase`): the title rule (5 bytes or more), `fillPost`, and `Add`/`GetById`/`GetByTitle`. Each is a method on the use case, proved equal to a function of the two collections (`AddOf`, `GetByIdOf`, `GetByTitleOf`, `PostsAfterAdd`).
- `services.dfy` (`Services`): the seed data and the call sequences of the two `cmd` programs, as client methods whose postconditions give the outcomes.

Use cases are Go structs with value receivers that hold repository
references. They are modelled as datatypes holding class references. A nil
dependency is a null reference. Errors are values of `Base.Error`, each
carrying the value its Go message formats. Both repositories report a
missing id as `NotFoundId(id)`, because their Go messages are identical.

Two points where the code's behaviour may differ from what one would expect:

- The length rules count bytes (Go `len`), not characters.
- In `cmd/authorsSvc/main.go`, `GetById(3)` runs after "Mary Lamb" was added as author 3. So it succeeds (`Services.AuthorsService`) rather than failing with NotFound.

## Model

| member | source | states |
|---|---|---|
| AuthorRepository.MaxId | author/authorRepo.go:23-31 | the accumulated maximum is at least 0, at least every stored id, and is either 0 or one of the stored ids |
| AuthorRepository.NextIdOf | author/authorRepo.go:23-31 | the next id is at least 1, above every stored id (negative ids included), and is 1 or one above a stored id |
| AuthorRepository.Assigned | author/authorRepo.go:34-37 | the stored record keeps the name; an id of 1 or more is kept unchanged; an id below 1 is replaced by the next id |
| AuthorRepository.IdIndex | author/authorRepo.go:42-47 | the scan stops at the first author with the id; every earlier author has another id |
| AuthorRepository.LookupById | author/authorRepo.go:42-49 | lookup succeeds iff some stored author has the id, returns the first such author in order, and otherwise fails with NotFound carrying the id |
| AuthorRepository.MemoryAuthorRepo.constructor | author/authorRepo.go:19-21 | the repository starts with exactly the given authors |
| AuthorRepository.MemoryAuthorRepo.NextId | author/authorRepo.go:23-31 | the loop returns the next id of the current collection |
| AuthorRepository.MemoryAuthorRepo.Add | author/authorRepo.go:34-40 | appends exactly the assigned record after the unchanged old authors and returns it; it cannot fail |
| AuthorRepository.MemoryAuthorRepo.GetById | author/authorRepo.go:42-49 | the early-return scan returns the first-match lookup result and changes nothing |
| AuthorRepository.LookupAppend | author/authorRepo.go:38-49 | after an append, earlier matches are still found first; the new record is found only if nothing earlier had its id |
| AuthorRepository.AddThenGet | author/authorRepo.go:34-47 | after an auto-id add, looking up the returned id gives the returned record |
| AuthorRepository.AddPreservesDistinctIds | author/authorRepo.go:23-38 | an auto-id add keeps pairwise distinct ids distinct |
| AuthorRepository.LookupDistinct | author/authorRepo.go:42-47 | with distinct ids, looking up any stored author's id gives that author |
| AuthorRepository.AutoIdsIncrease | author/authorRepo.go:23-38 | two successive auto-id adds return strictly increasing ids, the second exactly one above the first |
| AuthorUseCase.NewAuthorUC | author/authorUC.go:20-26 | construction fails with the nil-repo error iff the repository is absent, and otherwise wraps that repository |
| AuthorUseCase.AuthorUC.Add | author/authorUC.go:28-35 | a name under 3 bytes fails with the name and leaves the repository unchanged; otherwise it stores and returns {previous next id, name} appended after the old authors |
| AuthorUseCase.AuthorUC.GetById | author/authorUC.go:37-44 | an id below 1 fails without using the repository; otherwise the repository's lookup result, NotFound included, is returned unchanged |
| PostRepository.MaxId | post/postRepo.go:20-29 | the accumulated maximum is at least 0, at least every stored post id, and is either 0 or one of them |
| PostRepository.NextIdOf | post/postRepo.go:20-29 | the next post id is at least 1, above every stored post id, and is 1 or one above a stored id |
| PostRepository.Assigned | post/postRepo.go:31-34 | the stored record keeps author id, title and body; an id of 1 or more is kept; an id below 1 becomes the next id |
| PostRepository.IdIndex | post/postRepo.go:39-44 | the scan stops at the first post with the id; every earlier post has another id |
| PostRepository.LookupById | post/postRepo.go:39-46 | lookup by id succeeds iff some stored post has the id, returns the first one, and otherwise fails with NotFound carrying the id |
| PostRepository.TitleIndex | post/postRepo.go:48-53 | the scan stops at the first post whose title equals the key exactly; every earlier title differs |
| PostRepository.LookupByTitle | post/postRepo.go:48-55 | lookup by title succeeds iff some stored title equals the key, returns the first match in insertion order, and otherwise fails with NotFound carrying the title |
| PostRepository.MemoryPostRepo.constructor | post/postRepo.go:16-18 | the repository starts with exactly the given posts |
| PostRepository.MemoryPostRepo.NextId | post/postRepo.go:20-29 | the loop returns the next id of the current collection |
| PostRepository.MemoryPostRepo.Add | post/postRepo.go:31-37 | appends exactly the assigned record after the unchanged old posts and returns it; it cannot fail |
| PostRepository.MemoryPostRepo.GetById | post/postRepo.go:39-46 | the early-return scan returns the first-match lookup result by id and changes nothing |
| PostRepository.MemoryPostRepo.GetByTitle | post/postRepo.go:48-55 | the early-return scan returns the first-match lookup result by title and changes nothing |
| PostRepository.LookupAppend | post/postRepo.go:35-46 | after an append, earlier id matches are still found first; the new post is found only if nothing earlier had its id |
| PostRepository.TitleLookupAppend | post/postRepo.go:35-53 | after an append, an existing title still finds its earliest post; the new post is found only under a title not stored before |
| PostRepository.AddThenGet | post/postRepo.go:31-44 | after an auto-id add, looking up the returned id gives the returned post |
| PostRepository.AddPreservesDistinctIds | post/postRepo.go:20-35 | an auto-id add keeps pairwise distinct post ids distinct |
| PostRepository.LookupDistinct | post/postRepo.go:39-44 | with distinct ids, looking up any stored post's id gives that post |
| PostRepository.AutoIdsIncrease | post/postRepo.go:20-35 | two successive auto-id adds return strictly increasing post ids, the second exactly one above the first |
| PostUseCase.IsValidTitle | post/postUC.go:35-38 | a title is valid iff it has 5 bytes or more |
| PostUseCase.Fill | post/postUC.go:40-46 | fillPost succeeds iff an author has the record's author id; the aggregate holds the record unchanged and the author the author repository returns; otherwise NotFound for the author id |
| PostUseCase.PostUC.FillPost | post/postUC.go:40-46 | the method asks the author repository and returns the fillPost result |
| PostUseCase.NewRecord | post/postUC.go:52-53 | the record handed over with id 0 is stored as {next post id, authorId, title, body} |
| PostUseCase.PostsAfterAdd | post/postUC.go:48-58 | an invalid title leaves the posts unchanged; a valid one appends exactly one new record after the old posts, whatever the author lookup then does |
| PostUseCase.AddOf | post/postUC.go:48-58 | Add fails with the title on an invalid title; it succeeds iff the title is valid and the author exists, returning the new record with the independently looked-up author; otherwise it fails with NotFound for the author id |
| PostUseCase.GetByIdOf | post/postUC.go:60-72 | an id below 1 fails with the id; a post-repository miss propagates its NotFound before any author lookup; a success holds the first post with that id and its independently looked-up author |
| PostUseCase.GetByTitleOf | post/postUC.go:74-85 | an invalid title fails first; a title miss propagates NotFound; a success holds the first post with that exact title and its independently looked-up author |
| PostUseCase.PostUC.Add | post/postUC.go:48-58 | the post repository ends as PostsAfterAdd of its old state (stored before the author lookup, no rollback), the result is AddOf, and the author repository is unchanged |
| PostUseCase.PostUC.GetById | post/postUC.go:60-72 | returns GetByIdOf of the current collections and changes neither repository |
| PostUseCase.PostUC.GetByTitle | post/postUC.go:74-85 | returns GetByTitleOf of the current collections and changes neither repository |
| PostUseCase.NewPostUC | post/postUC.go:24-33 | construction fails with the post-repo error if the post repository is absent (checked first), else with the author-repo error if that one is absent, and succeeds iff both are present |
| PostUseCase.MissingAuthorGap | post/postUC.go:48-72 | with a valid title and no such author, Add fails with the author NotFound, yet the post is stored and found by id, and GetById on it fails with the author NotFound |
| PostUseCase.AddThenGetById | post/postUC.go:48-72 | a successful Add followed by GetById on the new id returns the same aggregate |
| PostUseCase.AddThenGetByTitle | post/postUC.go:48-85 | a successful Add under a title not yet stored is what GetByTitle then returns |
| PostUseCase.DuplicateTitleKeepsFirst | post/postUC.go:48-85 | adding a post under a title already stored does not change what GetByTitle returns: the earliest post stays the match |
| Services.SeedAuthors | cmd/authorsSvc/main.go:8-10 | the seed authors Joe Jones (1) and Sue Sutherland (2) have distinct ids |
| Services.AuthorsService | cmd/authorsSvc/main.go:12-42 | adding "Mary Lamb" returns {3, Mary Lamb}; id 1 gives Joe Jones; id 3 gives Mary Lamb |
| Services.PostsService | cmd/postsSvc/main.go:15-70 | three adds to an empty post repository get ids 1, 2, 3 with authors Joe, Joe, Sue; GetById(1), GetById(3) and GetByTitle("Test Post 1.2") return the matching aggregates |
| Services.AuthorValidationBoundaries | author/authorUC.go:28-43 | a 2-byte name fails and a 3-byte one passes and gets id 1; id 0 fails with the id and id 1 is looked up |
| Services.TitleBoundaries | post/postUC.go:35-57 | a 4-byte title fails with the title and stores nothing; a 5-byte title passes the rule, is stored under id 1, and then fails with the missing author's NotFound |
| Services.MissingAuthorScenario | post/postUC.go:48-72 | an add for a missing author fails with that author's NotFound, the post is still stored under id 1, and reading it back fails the same way |

## Left out

- Go `int` overflow in `maxId + 1` (author/authorRepo.go:30, post/postRepo.go:27): ids are unbounded integers, so the largest Go `int` is never exceeded.
- Error message text: errors are `Base.Error` values carrying the formatted key, not strings.
- Interfaces and nil interfaces: the only repository implementation is the in-memory one. A "repository present" check is a nullable reference. Go's zero-value `authorUC{}`/`postUC{}` returned beside a construction error is not modelled; the error result carries no use case.
- The repositories' `add`/`Add` return an error that is always nil. The model returns the stored record alone. The use case's `err != nil` check after `postRepo.Add` (post/postUC.go:54-56) is therefore dead code and is not modelled.
- Unexported `Post` fields: Dafny datatypes have no package-private constructors. In this model, too, only `Fill` (fillPost) builds aggregates.
- The `Author` type declaration (author/author.go) is not part of this model. Its fields `{Id, Name}` are taken from the positional literal at author/authorUC.go:34 and the seeds in cmd/authorsSvc/main.go.
- Printing and `panic` in the two `cmd` programs. `cmd/postsSvc/main.go:13` seeds the post repository with a `[]post.Post`, where a `[]repoPost` is required, so it does not type-check. `Services.PostsService` starts from an empty post collection instead.
- AuthorRepository.MemoryAuthorRepo.constructor, PostRepository.MemoryPostRepo.constructor, AuthorRepository.MemoryAuthorRepo.Add and PostRepository.MemoryPostRepo.Add: Go slice aliasing is not modelled. `NewMemoryAuthorRepo`/`NewMemoryPostRepo` keep the caller's slice rather than a copy, and `append` may write into a backing array that another slice shares. So in Go a caller's later write to that slice, or an `add` on a second repository built from the same spare-capacity slice, can change what a repository stores. The model's collections are `seq` values, copied at construction and private to each repository: it assumes the initial slice is not shared or written to by anyone else.
- Unicode: lengths count bytes; runes are not modelled.
- Concurrency: none is present, and the model is sequential.
