/** The post records of post/postDomain.go. */
module PostDomain {
  import opened Base
  import opened AuthorRepository

  /** What the post repository stores: the author is referenced by id only. */
  datatype RepoPost = RepoPost(id: int, authorId: int, title: Bytes, body: Bytes)

  /** The aggregate the post use case returns: one stored record and the
      author it references, resolved at read time and never stored. */
  datatype Post = Post(post: RepoPost, author: Author)
}
