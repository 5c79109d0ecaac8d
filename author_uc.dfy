/** The author use case of author/authorUC.go: validation rules in front of
    the author repository. */
module AuthorUseCase {
  import opened Base
  import opened AuthorRepository

  /** Fewest bytes an author name may have. */
  const MinNameLength := 3

  /** The use case holds a reference to the repository it does not own. */
  datatype AuthorUC = AuthorUC(repo: MemoryAuthorRepo) {

    /** Adds an author named `name` with a repository-assigned id. A name
        shorter than 3 bytes is refused and the repository is left as it was. */
    method Add(name: Bytes) returns (r: Result<Author>)
      modifies repo
      ensures |name| < MinNameLength ==> r == Err(InvalidName(name)) && repo.authors == old(repo.authors)
      ensures |name| >= MinNameLength ==>
                && r == Ok(Author(NextIdOf(old(repo.authors)), name))
                && repo.authors == old(repo.authors) + [r.value]
    {
      if |name| < MinNameLength {
        return Err(InvalidName(name));
      }
      var stored := repo.Add(Author(0, name));
      return Ok(stored);
    }

    /** Looks an author up by id. An id below 1 is refused before the
        repository is asked; otherwise the repository's answer, NotFound
        included, is returned unchanged. */
    method GetById(id: int) returns (r: Result<Author>)
      ensures id < 1 ==> r == Err(InvalidId(id))
      ensures id >= 1 ==> r == LookupById(repo.authors, id)
      ensures r.Ok? ==> 1 <= r.value.id == id
    {
      if id < 1 {
        return Err(InvalidId(id));
      }
      r := repo.GetById(id);
    }
  }

  /** NewAuthorUC: fails exactly when the repository is absent. */
  function NewAuthorUC(repo: MemoryAuthorRepo?): (r: Result<AuthorUC>)
    ensures r.Ok? <==> repo != null
    ensures r.Ok? ==> r.value.repo == repo
    ensures r.Err? ==> r.error == NilRepo
  {
    if repo == null then Err(NilRepo) else Ok(AuthorUC(repo))
  }
}
