/** The rows the post service reads and writes: the `tags`, `posts` and
    `post_tag` tables plus their auto-increment counters, the acting
    principal, the writes the datastore may refuse, and the errors the
    service raises. */
module Datastore {

  type UserId = nat
  type PostId = nat
  type TagId = nat

  datatype Option<T> = None | Some(value: T) {
    function GetOr(default: T): T {
      match this
      case Some(v) => v
      case None => default
    }
  }

  /** A row of `tags`, stored under its slug (the column is UNIQUE). */
  datatype TagRow = TagRow(id: TagId, name: string)
  type TagTable = map<string, TagRow>

  /** A row of `posts`; `owner` is the `user_id` column. */
  datatype Post = Post(owner: UserId, title: string, content: string, slug: string)

  /** The whole datastore as a value: what a transaction snapshots and
      what a rollback restores. */
  datatype Store = Store(
    tags: TagTable,
    nextTagId: TagId,
    posts: map<PostId, Post>,
    nextPostId: PostId,
    links: set<(PostId, TagId)>)

  /** The writes the service issues. The datastore may refuse any of them
      (connection loss, a constraint outside this model); the service then
      rolls the transaction back. */
  datatype Write =
    | InsertTag(slug: string, name: string)
    | InsertPost(post: Post)
    | UpdatePostRow(id: PostId, post: Post)
    | AttachTags(postId: PostId, ids: set<TagId>)
    | SyncTags(postId: PostId, ids: set<TagId>)
    | DeletePostRow(id: PostId)

  datatype Error =
    | NotFound      // findOrFail found no row
    | Forbidden     // the acting principal does not own the post
    | SlugTaken     // `posts.slug` UNIQUE refused the insert or update
    | OwnerMissing  // `posts.user_id` is NOT NULL and no principal is authenticated
    | WriteRefused  // the datastore refused a write

  datatype Result<T> = Ok(value: T) | Err(error: Error)

  /** The ids of all tags in a table. */
  function TagIds(tags: TagTable): set<TagId> {
    set k | k in tags :: tags[k].id
  }

  /** The tag ids associated with one post. */
  function TagsOf(links: set<(PostId, TagId)>, p: PostId): set<TagId> {
    set l | l in links && l.0 == p :: l.1
  }

  /** The association rows that attach `ids` to post `p`. */
  function Pairs(p: PostId, ids: set<TagId>): set<(PostId, TagId)> {
    set t | t in ids :: (p, t)
  }

  /** Tag ids are positive, below the counter and distinct across slugs. */
  ghost predicate TagTableOk(tags: TagTable, nextTagId: TagId) {
    1 <= nextTagId
    && (forall k | k in tags :: 1 <= tags[k].id < nextTagId)
    && (forall k1, k2 | k1 in tags && k2 in tags && k1 != k2 :: tags[k1].id != tags[k2].id)
  }

  /** Post ids are positive and below the counter; post slugs are unique. */
  ghost predicate PostTableOk(posts: map<PostId, Post>, nextPostId: PostId) {
    1 <= nextPostId
    && (forall p | p in posts :: 1 <= p < nextPostId)
    && (forall p, q | p in posts && q in posts && p != q :: posts[p].slug != posts[q].slug)
  }

  /** The consistency every committed state keeps. */
  ghost predicate Valid(s: Store) {
    TagTableOk(s.tags, s.nextTagId)
    && PostTableOk(s.posts, s.nextPostId)
    && (forall l | l in s.links :: l.0 in s.posts && l.1 in TagIds(s.tags))
  }

  /** True when some post other than `except` already uses `slug`. */
  predicate SlugUsed(posts: map<PostId, Post>, slug: string, except: Option<PostId>) {
    exists p | p in posts :: Some(p) != except && posts[p].slug == slug
  }

  /** getPostById: findOrFail on `posts`. */
  function GetPostById(s: Store, id: PostId): (r: Result<Post>)
    ensures r.Ok? <==> id in s.posts
    ensures r.Ok? ==> r.value == s.posts[id]
    ensures r.Err? ==> r.error == NotFound
  {
    if id in s.posts then Ok(s.posts[id]) else Err(NotFound)
  }

  lemma TagsOfPairs(p: PostId, ids: set<TagId>, q: PostId)
    ensures TagsOf(Pairs(p, ids), q) == if q == p then ids else {}
  {
    if q == p {
      forall t | t in ids ensures t in TagsOf(Pairs(p, ids), q) {
        assert (p, t) in Pairs(p, ids);
      }
    }
  }
}
