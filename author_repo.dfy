/** The in-memory author repository of author/authorRepo.go: a sequence of
    authors that grows by appending, with identity assignment (max + 1) and a
    first-match lookup by id. */
module AuthorRepository {
  import opened Base

  /** An author as the repository stores it. */
  datatype Author = Author(id: int, name: Bytes)

  /** Largest id among `s` and 0, accumulated front to back as `nextId` does. */
  function MaxId(s: seq<Author>): (m: int)
    ensures 0 <= m
    ensures forall i :: 0 <= i < |s| ==> s[i].id <= m
    ensures m == 0 || exists i :: 0 <= i < |s| && s[i].id == m
  {
    if s == [] then 0
    else
      var m0 := MaxId(s[..|s| - 1]);
      if s[|s| - 1].id > m0 then s[|s| - 1].id else m0
  }

  /** The id `nextId` hands out for a collection `s`: one above every stored
      id and at least 1. */
  function NextIdOf(s: seq<Author>): (n: int)
    ensures 1 <= n
    ensures forall i :: 0 <= i < |s| ==> s[i].id < n
    ensures n == 1 || exists i :: 0 <= i < |s| && s[i].id == n - 1
  {
    MaxId(s) + 1
  }

  /** The record `add` stores for `a` given the collection `s`. */
  function Assigned(s: seq<Author>, a: Author): (r: Author)
    ensures r.name == a.name
    ensures 1 <= r.id
    ensures a.id >= 1 ==> r.id == a.id
    ensures a.id < 1 ==> r.id == NextIdOf(s)
  {
    if a.id < 1 then a.(id := NextIdOf(s)) else a
  }

  /** Position of the first author in `s` whose id is `id`, or `|s|` if none. */
  function IdIndex(s: seq<Author>, id: int): (k: nat)
    ensures k <= |s|
    ensures forall j :: 0 <= j < k ==> s[j].id != id
    ensures k < |s| ==> s[k].id == id
  {
    if s == [] then 0
    else if s[0].id == id then 0
    else 1 + IdIndex(s[1..], id)
  }

  /** What `GetById` returns on the collection `s`: the first author with the
      id, or NotFound carrying the id when none has it. */
  function LookupById(s: seq<Author>, id: int): (r: Result<Author>)
    ensures r.Ok? <==> exists i :: 0 <= i < |s| && s[i].id == id
    ensures r.Ok? ==> r.value.id == id
    ensures r.Ok? ==> exists i :: 0 <= i < |s| && s[i] == r.value && forall j :: 0 <= j < i ==> s[j].id != id
    ensures r.Err? ==> r.error == NotFoundId(id)
  {
    var k := IdIndex(s, id);
    if k < |s| then Ok(s[k]) else Err(NotFoundId(id))
  }

  /** No two stored authors share an id. */
  predicate DistinctIds(s: seq<Author>)
  {
    forall i, j :: 0 <= i < j < |s| ==> s[i].id != s[j].id
  }

  class MemoryAuthorRepo {
    var authors: seq<Author>

    /** NewMemoryAuthorRepo: the repository starts with the given authors. */
    constructor (authors: seq<Author>)
      ensures this.authors == authors
    {
      this.authors := authors;
    }

    /** One above the largest stored id, or 1 when none is positive. */
    method NextId() returns (id: int)
      ensures id == NextIdOf(authors)
    {
      var maxId := 0;
      for i := 0 to |authors|
        invariant maxId == MaxId(authors[..i])
      {
        assert authors[..i + 1][..i] == authors[..i];
        if authors[i].id > maxId {
          maxId := authors[i].id;
        }
      }
      assert authors[..|authors|] == authors;
      id := maxId + 1;
    }

    /** Stores `author`, giving it the next id when its own is below 1, and
        returns the stored record. It never fails. */
    method Add(author: Author) returns (stored: Author)
      modifies this
      ensures stored == Assigned(old(authors), author)
      ensures authors == old(authors) + [stored]
    {
      stored := author;
      if stored.id < 1 {
        var next := NextId();
        stored := stored.(id := next);
      }
      authors := authors + [stored];
    }

    /** The first stored author whose id is `id`, or NotFound. */
    method GetById(id: int) returns (r: Result<Author>)
      ensures r == LookupById(authors, id)
    {
      for i := 0 to |authors|
        invariant forall j :: 0 <= j < i ==> authors[j].id != id
      {
        if authors[i].id == id {
          return Ok(authors[i]);
        }
      }
      return Err(NotFoundId(id));
    }
  }

  /** Appending leaves every earlier match in place and makes the new record
      findable only where nothing earlier had its id. */
  lemma {:induction false} LookupAppend(s: seq<Author>, x: Author, id: int)
    ensures LookupById(s + [x], id) ==
            if LookupById(s, id).Ok? then LookupById(s, id)
            else if x.id == id then Ok(x)
            else Err(NotFoundId(id))
  {
    var k := IdIndex(s, id);
    var k' := IdIndex(s + [x], id);
    if k < |s| {
      assert (s + [x])[k] == s[k];
      assert k' == k;
    } else if x.id == id {
      assert (s + [x])[|s|] == x;
      assert k' == |s|;
    } else {
      assert k' == |s| + 1;
    }
  }

  /** Round trip: after an auto-id `add`, looking up the returned id yields
      the returned record. */
  lemma AddThenGet(s: seq<Author>, a: Author)
    requires a.id < 1
    ensures LookupById(s + [Assigned(s, a)], Assigned(s, a).id) == Ok(Assigned(s, a))
  {
    LookupAppend(s, Assigned(s, a), Assigned(s, a).id);
  }

  /** An auto-id `add` keeps stored ids pairwise distinct. */
  lemma AddPreservesDistinctIds(s: seq<Author>, a: Author)
    requires DistinctIds(s)
    requires a.id < 1
    ensures DistinctIds(s + [Assigned(s, a)])
  {
  }

  /** With distinct ids, looking up a stored author's id yields that author. */
  lemma LookupDistinct(s: seq<Author>, k: int)
    requires DistinctIds(s)
    requires 0 <= k < |s|
    ensures LookupById(s, s[k].id) == Ok(s[k])
  {
  }

  /** Two successive auto-id adds hand out strictly increasing ids, the
      second one exactly one above the first. */
  lemma AutoIdsIncrease(s: seq<Author>, a: Author, b: Author)
    requires a.id < 1 && b.id < 1
    ensures Assigned(s + [Assigned(s, a)], b).id == Assigned(s, a).id + 1
  {
  }
}
