/** PostService as an object over the datastore: each operation writes
    step by step, and a failure part-way restores the state taken when its
    transaction began. Every method is proved to leave exactly the state
    and return exactly the result the functions of PostTransactions and
    TagResolution describe, so the lemmas proved there hold of it. */
module Service {
  import opened PhpText
  import opened Datastore
  import opened TagResolution
  import opened PostTransactions

  class PostService {
    var tags: TagTable
    var nextTagId: TagId
    var posts: map<PostId, Post>
    var nextPostId: PostId
    var links: set<(PostId, TagId)>
    /** Str::slug, whose definition is not part of this model. */
    const slugOf: string -> string

    /** The whole datastore as a value. */
    function Snapshot(): Store
      reads this
    {
      Store(tags, nextTagId, posts, nextPostId, links)
    }

    ghost predicate Valid()
      reads this
    {
      Datastore.Valid(Snapshot())
    }

    /** An empty datastore: no rows, both counters at 1. */
    constructor (slugOf: string -> string)
      ensures Snapshot() == Store(map[], 1, map[], 1, {})
      ensures this.slugOf == slugOf
      ensures Valid()
    {
      tags := map[];
      nextTagId := 1;
      posts := map[];
      nextPostId := 1;
      links := {};
      this.slugOf := slugOf;
    }

    /** DB::rollBack: the state taken at DB::beginTransaction comes back. */
    method Rollback(s: Store)
      modifies this
      ensures Snapshot() == s
    {
      tags, nextTagId := s.tags, s.nextTagId;
      posts, nextPostId := s.posts, s.nextPostId;
      links := s.links;
    }

    /** processTags: maps each name to null (blank) or to the id of the tag
        stored under its slug, inserting the tag first when none is; then
        drops the nulls and the repeated ids. A refused insert ends it with
        `ok` false, leaving the inserts made so far for the caller's
        rollback. */
    method ProcessTags(names: seq<string>, refuses: Write -> bool) returns (ok: bool, ids: seq<TagId>)
      modifies this
      ensures var r := TagResolution.ProcessTags(old(tags), old(nextTagId), names, slugOf, refuses);
        && ok == r.Some?
        && (ok ==> tags == r.value.tags && nextTagId == r.value.nextTagId && ids == r.value.ids)
      ensures posts == old(posts) && nextPostId == old(nextPostId) && links == old(links)
    {
      if |names| == 0 {
        return true, [];
      }
      var mapped: seq<Option<TagId>> := [];
      var i := 0;
      while i < |names|
        invariant 0 <= i <= |names|
        invariant MapNames(old(tags), old(nextTagId), names[..i], slugOf, refuses)
                  == Some(Resolution(tags, nextTagId, mapped))
        invariant posts == old(posts) && nextPostId == old(nextPostId) && links == old(links)
      {
        var name := names[i];
        assert names[..i + 1][..i] == names[..i];
        var o: Option<TagId>;
        if IsBlank(name) {
          o := None;
        } else {
          var slug := slugOf(name);
          if slug in tags {
            o := Some(tags[slug].id);
          } else if refuses(InsertTag(slug, Trim(name))) {
            if TagResolution.ProcessTags(old(tags), old(nextTagId), names, slugOf, refuses).Some? {
              MapNamesPrefix(old(tags), old(nextTagId), names, i + 1, slugOf, refuses);
              assert false;
            }
            return false, [];
          } else {
            var id := nextTagId;
            tags := tags[slug := TagRow(id, Trim(name))];
            nextTagId := id + 1;
            o := Some(id);
          }
        }
        mapped := mapped + [o];
        i := i + 1;
      }
      assert names[..i] == names;
      ok, ids := true, Unique(Truthy(mapped));
    }

    /** createPost. */
    method CreatePost(actor: Option<UserId>, input: NewPost, refuses: Write -> bool) returns (r: Result<PostId>)
      requires Valid()
      modifies this
      ensures var o := PostTransactions.CreatePost(old(Snapshot()), actor, input, slugOf, refuses);
        r == o.result && Snapshot() == o.store
      ensures Valid()
    {
      var before := Snapshot();
      CreatePostKeepsValid(before, actor, input, slugOf, refuses);
      if actor.None? {
        return Err(OwnerMissing);
      }
      var slug := slugOf(input.title);
      if SlugUsed(posts, slug, None) {
        return Err(SlugTaken);
      }
      var post := Post(actor.value, input.title, input.content, slug);
      if refuses(InsertPost(post)) {
        return Err(WriteRefused);
      }
      var id := nextPostId;
      posts := posts[id := post];
      nextPostId := id + 1;
      if input.tags.Names? {
        var ok, ids := ProcessTags(input.tags.names, refuses);
        if !ok {
          Rollback(before);
          return Err(WriteRefused);
        }
        var attached := Elems(ids);
        if attached != {} && refuses(AttachTags(id, attached)) {
          Rollback(before);
          return Err(WriteRefused);
        }
        links := links + Pairs(id, attached);
      }
      r := Ok(id);
    }

    /** updatePost. */
    method UpdatePost(actor: Option<UserId>, id: PostId, changes: PostChanges, refuses: Write -> bool)
      returns (r: Result<Post>)
      requires Valid()
      modifies this
      ensures var o := PostTransactions.UpdatePost(old(Snapshot()), actor, id, changes, slugOf, refuses);
        r == o.result && Snapshot() == o.store
      ensures Valid()
    {
      var before := Snapshot();
      UpdatePostKeepsValid(before, actor, id, changes, slugOf, refuses);
      var found := GetPostById(before, id);
      if found.Err? {
        return Err(found.error);
      }
      var post := found.value;
      if actor != Some(post.owner) {
        return Err(Forbidden);
      }
      var slug := post.slug;
      var retitled := changes.title.Some? && changes.title.value != post.title;
      if retitled {
        slug := slugOf(changes.title.value);
      }
      var updated := Post(post.owner, changes.title.GetOr(post.title), changes.content.GetOr(post.content), slug);
      if retitled && SlugUsed(posts, slug, Some(id)) {
        return Err(SlugTaken);
      }
      if refuses(UpdatePostRow(id, updated)) {
        return Err(WriteRefused);
      }
      posts := posts[id := updated];
      if !changes.tags.Absent? {
        var ok, ids := ProcessTags(SyncedNames(changes.tags), refuses);
        if !ok {
          Rollback(before);
          return Err(WriteRefused);
        }
        var synced := Elems(ids);
        if refuses(SyncTags(id, synced)) {
          Rollback(before);
          return Err(WriteRefused);
        }
        links := Detach(links, id) + Pairs(id, synced);
      }
      r := Ok(updated);
    }

    /** deletePost. */
    method DeletePost(actor: Option<UserId>, id: PostId, refuses: Write -> bool) returns (r: Result<bool>)
      requires Valid()
      modifies this
      ensures var o := PostTransactions.DeletePost(old(Snapshot()), actor, id, refuses);
        r == o.result && Snapshot() == o.store
      ensures Valid()
    {
      DeletePostEffect(Snapshot(), actor, id, refuses);
      var found := GetPostById(Snapshot(), id);
      if found.Err? {
        return Err(found.error);
      }
      if actor != Some(found.value.owner) {
        return Err(Forbidden);
      }
      if refuses(DeletePostRow(id)) {
        return Err(WriteRefused);
      }
      posts := posts - {id};
      links := Detach(links, id);
      r := Ok(true);
    }
  }
}
