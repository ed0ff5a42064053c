/** createPost, updatePost and deletePost as functions of the store.
    Each runs its body inside a transaction: the body either finishes and
    its writes are committed, or fails part-way and the store before the
    transaction is restored; the error reaches the caller unchanged. */
module PostTransactions {
  import opened PhpText
  import opened Datastore
  import opened TagResolution

  /** The `tags` entry of the request data: missing, present as null, or a list. */
  datatype TagsField = Absent | Null | Names(names: seq<string>)

  /** The data createPost receives; `userId` is whatever the client sent. */
  datatype NewPost = NewPost(title: string, content: string, userId: Option<UserId>, tags: TagsField)

  /** The data updatePost receives; a None field is not in the data. */
  datatype PostChanges = PostChanges(title: Option<string>, content: Option<string>,
                                     userId: Option<UserId>, tags: TagsField)

  /** What the caller receives, and the store once the transaction is over. */
  datatype Outcome<T> = Outcome(result: Result<T>, store: Store)

  /** The ids of a list as a set. */
  function Elems(ids: seq<TagId>): set<TagId> {
    set t | t in ids
  }

  /** The association rows with every row of post `p` removed. */
  function Detach(links: set<(PostId, TagId)>, p: PostId): set<(PostId, TagId)> {
    set l | l in links && l.0 != p
  }

  /** The store after the tag writes of a processTags run. */
  function WithTags(s: Store, p: Processed): Store {
    s.(tags := p.tags, nextTagId := p.nextTagId)
  }

  /** DB::beginTransaction / commit / rollBack around a body. */
  function Transaction<T>(s: Store, body: Result<(T, Store)>): Outcome<T> {
    match body
    case Ok((v, s')) => Outcome(Ok(v), s')
    case Err(e) => Outcome(Err(e), s)
  }

  // ---------------------------------------------------------------------
  // createPost

  function CreatePostBody(s: Store, actor: Option<UserId>, input: NewPost,
                          slugOf: string -> string, refuses: Write -> bool): Result<(PostId, Store)>
  {
    var slug := slugOf(input.title);
    if actor.None? then Err(OwnerMissing)
    else if SlugUsed(s.posts, slug, None) then Err(SlugTaken)
    else
      var post := Post(actor.value, input.title, input.content, slug);
      if refuses(InsertPost(post)) then Err(WriteRefused)
      else
        var id := s.nextPostId;
        var s1 := s.(posts := s.posts[id := post], nextPostId := id + 1);
        if !input.tags.Names? then Ok((id, s1))
        else
          match ProcessTags(s1.tags, s1.nextTagId, input.tags.names, slugOf, refuses)
          case None => Err(WriteRefused)
          case Some(p) =>
            var ids := Elems(p.ids);
            if ids != {} && refuses(AttachTags(id, ids)) then Err(WriteRefused)
            else Ok((id, WithTags(s1, p).(links := s1.links + Pairs(id, ids))))
  }

  /** createPost: the owner is the acting principal whatever `user_id` the
      data carried, the slug is derived from the title, and the tags are
      attached only when `tags` is set (isset: present and not null). */
  function CreatePost(s: Store, actor: Option<UserId>, input: NewPost,
                      slugOf: string -> string, refuses: Write -> bool): Outcome<PostId>
  {
    Transaction(s, CreatePostBody(s, actor, input, slugOf, refuses))
  }

  // ---------------------------------------------------------------------
  // updatePost

  /** The tag names updatePost hands to processTags when the key is present. */
  function SyncedNames(tags: TagsField): seq<string> {
    if tags.Names? then tags.names else []
  }

  function UpdatePostBody(s: Store, actor: Option<UserId>, id: PostId, changes: PostChanges,
                          slugOf: string -> string, refuses: Write -> bool): Result<(Post, Store)>
  {
    match GetPostById(s, id)
    case Err(e) => Err(e)
    case Ok(post) =>
      if actor != Some(post.owner) then Err(Forbidden)
      else
        var retitled := changes.title.Some? && changes.title.value != post.title;
        var slug := if retitled then slugOf(changes.title.value) else post.slug;
        var updated := Post(post.owner, changes.title.GetOr(post.title),
                            changes.content.GetOr(post.content), slug);
        if retitled && SlugUsed(s.posts, slug, Some(id)) then Err(SlugTaken)
        else if refuses(UpdatePostRow(id, updated)) then Err(WriteRefused)
        else
          var s1 := s.(posts := s.posts[id := updated]);
          if changes.tags.Absent? then Ok((updated, s1))
          else
            match ProcessTags(s1.tags, s1.nextTagId, SyncedNames(changes.tags), slugOf, refuses)
            case None => Err(WriteRefused)
            case Some(p) =>
              var ids := Elems(p.ids);
              if refuses(SyncTags(id, ids)) then Err(WriteRefused)
              else Ok((updated, WithTags(s1, p).(links := Detach(s1.links, id) + Pairs(id, ids))))
  }

  /** updatePost: owner check, slug recomputed only on a real title change,
      tags synced only when the `tags` key is present (null counts as []). */
  function UpdatePost(s: Store, actor: Option<UserId>, id: PostId, changes: PostChanges,
                      slugOf: string -> string, refuses: Write -> bool): Outcome<Post>
  {
    Transaction(s, UpdatePostBody(s, actor, id, changes, slugOf, refuses))
  }

  // ---------------------------------------------------------------------
  // deletePost

  function DeletePostBody(s: Store, actor: Option<UserId>, id: PostId,
                          refuses: Write -> bool): Result<(bool, Store)>
  {
    match GetPostById(s, id)
    case Err(e) => Err(e)
    case Ok(post) =>
      if actor != Some(post.owner) then Err(Forbidden)
      else if refuses(DeletePostRow(id)) then Err(WriteRefused)
      else Ok((true, s.(posts := s.posts - {id}, links := Detach(s.links, id))))
  }

  /** deletePost: owner check, then the row goes, with its association rows. */
  function DeletePost(s: Store, actor: Option<UserId>, id: PostId, refuses: Write -> bool): Outcome<bool> {
    Transaction(s, DeletePostBody(s, actor, id, refuses))
  }

  // ---------------------------------------------------------------------
  // Helpers about the association rows.

  lemma TagsOfDetach(links: set<(PostId, TagId)>, p: PostId, q: PostId)
    ensures TagsOf(Detach(links, p), q) == if q == p then {} else TagsOf(links, q)
  {
    if q != p {
      forall t | t in TagsOf(links, q) ensures t in TagsOf(Detach(links, p), q) {
        assert (q, t) in links;
      }
    }
  }

  lemma TagsOfUnion(a: set<(PostId, TagId)>, b: set<(PostId, TagId)>, q: PostId)
    ensures TagsOf(a + b, q) == TagsOf(a, q) + TagsOf(b, q)
  {
    forall t | t in TagsOf(a, q) ensures t in TagsOf(a + b, q) {
      assert (q, t) in a;
    }
    forall t | t in TagsOf(b, q) ensures t in TagsOf(a + b, q) {
      assert (q, t) in b;
    }
  }

  /** A post with no row in `posts` has no association row in a valid store. */
  lemma NoLinksForMissingPost(s: Store, p: PostId)
    requires Valid(s) && p !in s.posts
    ensures TagsOf(s.links, p) == {}
  {
  }

  /** The ids processTags returns are ids of rows in the table it leaves. */
  lemma ProcessedIdsStored(tags: TagTable, next: TagId, names: seq<string>,
                           slugOf: string -> string, refuses: Write -> bool)
    requires TagTableOk(tags, next)
    requires ProcessTags(tags, next, names, slugOf, refuses).Some?
    ensures var p := ProcessTags(tags, next, names, slugOf, refuses).value;
      Elems(p.ids) <= TagIds(p.tags) && TagIds(tags) <= TagIds(p.tags) && TagTableOk(p.tags, p.nextTagId)
  {
    var p := ProcessTags(tags, next, names, slugOf, refuses).value;
    ProcessTagsIds(tags, next, names, slugOf, refuses);
    ProcessTagsLookupOrCreate(tags, next, names, slugOf, refuses);
    forall id | id in Elems(p.ids) ensures id in TagIds(p.tags) {
      var i :| 0 <= i < |names| && !IsBlank(names[i]) && p.tags[slugOf(names[i])].id == id;
      var k := slugOf(names[i]);
      assert k in NameSlugs(names, slugOf);
      assert k in p.tags && p.tags[k].id == id;
    }
    forall id | id in TagIds(tags) ensures id in TagIds(p.tags) {
      var k :| k in tags && tags[k].id == id;
      assert k in p.tags && p.tags[k] == tags[k];
    }
  }

  /** With a datastore that refuses nothing, processTags always succeeds. */
  lemma {:induction false} ProcessTagsTotal(tags: TagTable, next: TagId, names: seq<string>,
                                            slugOf: string -> string, refuses: Write -> bool)
    requires forall w :: !refuses(w)
    ensures ProcessTags(tags, next, names, slugOf, refuses).Some?
  {
    MapNamesTotal(tags, next, names, slugOf, refuses);
  }

  lemma {:induction false} MapNamesTotal(tags: TagTable, next: TagId, names: seq<string>,
                                         slugOf: string -> string, refuses: Write -> bool)
    requires forall w :: !refuses(w)
    ensures MapNames(tags, next, names, slugOf, refuses).Some?
    decreases |names|
  {
    if |names| > 0 {
      MapNamesTotal(tags, next, names[..|names| - 1], slugOf, refuses);
    }
  }

  // ---------------------------------------------------------------------
  // The promises of createPost.

  /** Failures: no principal means no owner for the row; a slug already in
      use is refused by the datastore; on any failure the store is the one
      before the call; and a datastore that refuses nothing lets every
      authenticated create with a fresh slug through. */
  lemma CreatePostFailures(s: Store, actor: Option<UserId>, input: NewPost,
                           slugOf: string -> string, refuses: Write -> bool)
    ensures var o := CreatePost(s, actor, input, slugOf, refuses);
      && (o.result.Err? ==> o.store == s)
      && (o.result == Err(OwnerMissing) <==> actor.None?)
      && (o.result == Err(SlugTaken) <==> actor.Some? && SlugUsed(s.posts, slugOf(input.title), None))
      && ((forall w :: !refuses(w)) ==>
            (o.result.Ok? <==> actor.Some? && !SlugUsed(s.posts, slugOf(input.title), None)))
  {
    if input.tags.Names? {
      if forall w :: !refuses(w) {
        ProcessTagsTotal(s.tags, s.nextTagId, input.tags.names, slugOf, refuses);
      }
    }
  }

  /** On success the new post has the next id, the acting principal as
      owner, its title and content, and the slug of its title; its tags are
      exactly what processTags returned when `tags` was set and none
      otherwise; no other post and no other association changes, and no
      stored tag is altered. */
  lemma CreatePostEffect(s: Store, actor: Option<UserId>, input: NewPost,
                         slugOf: string -> string, refuses: Write -> bool)
    requires Valid(s)
    ensures var o := CreatePost(s, actor, input, slugOf, refuses);
      o.result.Ok? ==>
        var id := o.result.value;
        && actor.Some?
        && id == s.nextPostId && id !in s.posts
        && o.store.posts == s.posts[id := Post(actor.value, input.title, input.content, slugOf(input.title))]
        && o.store.nextPostId == id + 1
        && Extends(s.tags, o.store.tags)
        && (input.tags.Names? ==>
              var p := ProcessTags(s.tags, s.nextTagId, input.tags.names, slugOf, refuses).value;
              o.store.tags == p.tags && o.store.nextTagId == p.nextTagId)
        && (!input.tags.Names? ==> o.store.tags == s.tags && o.store.nextTagId == s.nextTagId)
        && TagsOf(o.store.links, id)
           == (if input.tags.Names?
               then Elems(ProcessTags(s.tags, s.nextTagId, input.tags.names, slugOf, refuses).value.ids)
               else {})
        && (forall q | q != id :: TagsOf(o.store.links, q) == TagsOf(s.links, q))
  {
    var o := CreatePost(s, actor, input, slugOf, refuses);
    if o.result.Ok? {
      var id := s.nextPostId;
      var post := Post(actor.value, input.title, input.content, slugOf(input.title));
      var s1 := s.(posts := s.posts[id := post], nextPostId := id + 1);
      NoLinksForMissingPost(s, id);
      if input.tags.Names? {
        var p := ProcessTags(s1.tags, s1.nextTagId, input.tags.names, slugOf, refuses).value;
        var ids := Elems(p.ids);
        assert o.store == WithTags(s1, p).(links := s.links + Pairs(id, ids));
        assert Extends(s.tags, p.tags) by {
          ProcessTagsLookupOrCreate(s.tags, s.nextTagId, input.tags.names, slugOf, refuses);
        }
        forall q ensures TagsOf(o.store.links, q) == TagsOf(s.links, q) + (if q == id then ids else {}) {
          TagsOfUnion(s.links, Pairs(id, ids), q);
          TagsOfPairs(id, ids, q);
        }
      } else {
        assert o.store == s1;
      }
    }
  }

  /** createPost keeps the store consistent. */
  lemma CreatePostKeepsValid(s: Store, actor: Option<UserId>, input: NewPost,
                             slugOf: string -> string, refuses: Write -> bool)
    requires Valid(s)
    ensures Valid(CreatePost(s, actor, input, slugOf, refuses).store)
  {
    var o := CreatePost(s, actor, input, slugOf, refuses);
    if o.result.Ok? {
      var id := o.result.value;
      var s2 := o.store;
      assert PostTableOk(s2.posts, s2.nextPostId);
      if input.tags.Names? {
        var p := ProcessTags(s.tags, s.nextTagId, input.tags.names, slugOf, refuses).value;
        ProcessedIdsStored(s.tags, s.nextTagId, input.tags.names, slugOf, refuses);
        forall l | l in s2.links ensures l.0 in s2.posts && l.1 in TagIds(s2.tags) {
          if l !in s.links {
            assert l.1 in Elems(p.ids);
          }
        }
      }
    }
  }

  // ---------------------------------------------------------------------
  // The promises of updatePost.

  /** Failures: a missing id is not found; a post owned by someone else (or
      a request with no principal) is forbidden; a new title whose slug
      another post uses is refused; on any failure the store is unchanged;
      and a datastore that refuses nothing lets the owner's update through
      unless the new slug collides. */
  lemma UpdatePostFailures(s: Store, actor: Option<UserId>, id: PostId, changes: PostChanges,
                           slugOf: string -> string, refuses: Write -> bool)
    ensures var o := UpdatePost(s, actor, id, changes, slugOf, refuses);
      && (o.result.Err? ==> o.store == s)
      && (o.result == Err(NotFound) <==> id !in s.posts)
      && (o.result == Err(Forbidden) <==> id in s.posts && actor != Some(s.posts[id].owner))
      && ((forall w :: !refuses(w)) && id in s.posts && actor == Some(s.posts[id].owner) ==>
            (o.result.Ok? <==>
               !(changes.title.Some? && changes.title.value != s.posts[id].title
                 && SlugUsed(s.posts, slugOf(changes.title.value), Some(id)))))
  {
    if forall w :: !refuses(w) {
      ProcessTagsTotal(s.tags, s.nextTagId, SyncedNames(changes.tags), slugOf, refuses);
    }
  }

  /** On success: the owner never changes; title and content take the
      values sent; the slug becomes the slug of the new title only when a
      title was sent and differs from the stored one; other posts are
      untouched; with no `tags` key the associations and tags stay as they
      were, with the key present the post's tags become exactly what
      processTags returned; other posts' associations never change. */
  lemma UpdatePostEffect(s: Store, actor: Option<UserId>, id: PostId, changes: PostChanges,
                         slugOf: string -> string, refuses: Write -> bool)
    requires Valid(s)
    ensures var o := UpdatePost(s, actor, id, changes, slugOf, refuses);
      o.result.Ok? ==>
        var prev := s.posts[id];
        var updated := o.result.value;
        && id in s.posts
        && o.store.posts == s.posts[id := updated]
        && o.store.nextPostId == s.nextPostId
        && updated.owner == prev.owner
        && updated.title == changes.title.GetOr(prev.title)
        && updated.content == changes.content.GetOr(prev.content)
        && updated.slug == (if changes.title.Some? && changes.title.value != prev.title
                            then slugOf(changes.title.value) else prev.slug)
        && Extends(s.tags, o.store.tags)
        && (changes.tags.Absent? ==>
              o.store.links == s.links && o.store.tags == s.tags && o.store.nextTagId == s.nextTagId)
        && (!changes.tags.Absent? ==>
              var p := ProcessTags(s.tags, s.nextTagId, SyncedNames(changes.tags), slugOf, refuses).value;
              && o.store.tags == p.tags && o.store.nextTagId == p.nextTagId
              && TagsOf(o.store.links, id) == Elems(p.ids))
        && (forall q | q != id :: TagsOf(o.store.links, q) == TagsOf(s.links, q))
  {
    var o := UpdatePost(s, actor, id, changes, slugOf, refuses);
    if o.result.Ok? && !changes.tags.Absent? {
      var names := SyncedNames(changes.tags);
      var p := ProcessTags(s.tags, s.nextTagId, names, slugOf, refuses).value;
      assert Extends(s.tags, p.tags) by {
        ProcessTagsLookupOrCreate(s.tags, s.nextTagId, names, slugOf, refuses);
      }
      assert o.store.links == Detach(s.links, id) + Pairs(id, Elems(p.ids));
      forall q ensures TagsOf(o.store.links, q)
                    == (if q == id then Elems(p.ids) else TagsOf(s.links, q)) {
        TagsOfUnion(Detach(s.links, id), Pairs(id, Elems(p.ids)), q);
        TagsOfDetach(s.links, id, q);
        TagsOfPairs(id, Elems(p.ids), q);
      }
    }
  }

  /** updatePost keeps the store consistent. */
  lemma UpdatePostKeepsValid(s: Store, actor: Option<UserId>, id: PostId, changes: PostChanges,
                             slugOf: string -> string, refuses: Write -> bool)
    requires Valid(s)
    ensures Valid(UpdatePost(s, actor, id, changes, slugOf, refuses).store)
  {
    var o := UpdatePost(s, actor, id, changes, slugOf, refuses);
    if o.result.Ok? {
      var s2 := o.store;
      assert s2.posts.Keys == s.posts.Keys;
      assert PostTableOk(s2.posts, s2.nextPostId);
      if !changes.tags.Absent? {
        var names := SyncedNames(changes.tags);
        var p := ProcessTags(s.tags, s.nextTagId, names, slugOf, refuses).value;
        ProcessedIdsStored(s.tags, s.nextTagId, names, slugOf, refuses);
        forall l | l in s2.links ensures l.0 in s2.posts && l.1 in TagIds(s2.tags) {
          if l !in s.links {
            assert l.1 in Elems(p.ids);
          }
        }
      }
    }
  }

  /** Sending `tags` as null or as an empty list detaches every tag. */
  lemma UpdateWithNoTagsDetachesAll(s: Store, actor: Option<UserId>, id: PostId, changes: PostChanges,
                                    slugOf: string -> string, refuses: Write -> bool)
    requires Valid(s)
    requires changes.tags == Null || changes.tags == Names([])
    ensures var o := UpdatePost(s, actor, id, changes, slugOf, refuses);
      o.result.Ok? ==> TagsOf(o.store.links, id) == {} && o.store.tags == s.tags
  {
    UpdatePostEffect(s, actor, id, changes, slugOf, refuses);
  }

  /** processTags on one non-blank name returns exactly the id stored
      under that name's slug. */
  lemma ProcessTagsOneName(tags: TagTable, next: TagId, names: seq<string>,
                           slugOf: string -> string, refuses: Write -> bool)
    requires TagTableOk(tags, next)
    requires |names| == 1 && !IsBlank(names[0])
    requires ProcessTags(tags, next, names, slugOf, refuses).Some?
    ensures var p := ProcessTags(tags, next, names, slugOf, refuses).value;
      slugOf(names[0]) in p.tags && Elems(p.ids) == {p.tags[slugOf(names[0])].id}
  {
    ProcessTagsIds(tags, next, names, slugOf, refuses);
    assert slugOf(names[0]) in NameSlugs(names, slugOf);
  }

  /** Sending `tags` as one non-blank name leaves exactly one association:
      the tag stored under that name's slug, whatever the post had before. */
  lemma UpdateWithOneTag(s: Store, actor: Option<UserId>, id: PostId, changes: PostChanges,
                         slugOf: string -> string, refuses: Write -> bool)
    requires Valid(s)
    requires changes.tags.Names? && |changes.tags.names| == 1 && !IsBlank(changes.tags.names[0])
    ensures var o := UpdatePost(s, actor, id, changes, slugOf, refuses);
      var slug := slugOf(changes.tags.names[0]);
      o.result.Ok? ==> slug in o.store.tags && TagsOf(o.store.links, id) == {o.store.tags[slug].id}
  {
    UpdatePostEffect(s, actor, id, changes, slugOf, refuses);
    var names := changes.tags.names;
    if ProcessTags(s.tags, s.nextTagId, names, slugOf, refuses).Some? {
      ProcessTagsOneName(s.tags, s.nextTagId, names, slugOf, refuses);
    }
  }

  // ---------------------------------------------------------------------
  // The promises of deletePost.

  /** Failures: not found for a missing id, forbidden for anyone but the
      owner, and the store unchanged on any failure; a datastore that
      refuses nothing lets the owner delete. */
  lemma DeletePostFailures(s: Store, actor: Option<UserId>, id: PostId, refuses: Write -> bool)
    ensures var o := DeletePost(s, actor, id, refuses);
      && (o.result.Err? ==> o.store == s)
      && (o.result == Err(NotFound) <==> id !in s.posts)
      && (o.result == Err(Forbidden) <==> id in s.posts && actor != Some(s.posts[id].owner))
      && ((forall w :: !refuses(w)) ==>
            (o.result.Ok? <==> id in s.posts && actor == Some(s.posts[id].owner)))
  {
  }

  /** On success deletePost returns true, the row is gone together with its
      associations, and every other post, association and tag is kept. */
  lemma DeletePostEffect(s: Store, actor: Option<UserId>, id: PostId, refuses: Write -> bool)
    requires Valid(s)
    ensures var o := DeletePost(s, actor, id, refuses);
      o.result.Ok? ==>
        && o.result.value
        && id in s.posts && id !in o.store.posts
        && o.store.posts == s.posts - {id}
        && o.store.tags == s.tags && o.store.nextTagId == s.nextTagId
        && o.store.nextPostId == s.nextPostId
        && TagsOf(o.store.links, id) == {}
        && (forall q | q != id :: TagsOf(o.store.links, q) == TagsOf(s.links, q))
        && Valid(o.store)
  {
    var o := DeletePost(s, actor, id, refuses);
    if o.result.Ok? {
      forall q ensures TagsOf(o.store.links, q) == if q == id then {} else TagsOf(s.links, q) {
        TagsOfDetach(s.links, id, q);
      }
    }
  }
}
