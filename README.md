# PostService: posts, tags and their associations

A Dafny model of the post service of a Laravel blog backend
(`app/Services/PostService.php`). The service reads and writes three tables:
`posts`, `tags` and the `post_tag` association table. It offers five
operations:

- `getPostById` looks a post up and fails when it is missing.
- `createPost` inserts a post owned by the acting user. The slug comes from
  the title. When a `tags` list is given, the post's tags are attached.
- `updatePost` checks that the acting user owns the post. It writes the fields
  sent, recomputes the slug only when the title really changes, and replaces
  the post's tag set when the `tags` key is present.
- `deletePost` checks ownership the same way and then removes the post.
- `processTags` turns free-text tag names into tag ids. It skips names that are
  blank once trimmed, finds or creates the tag stored under each name's slug,
  and drops the nulls and the repeated ids.

Each writing operation runs inside a database transaction. On any failure the
transaction is rolled back and the error is re-raised.

The model has five modules:

| module | file | what it holds |
|---|---|---|
| `PhpText` | `php_text.dfy` | PHP's `trim()` and the `empty()` test on a trimmed name, with lemmas on the shape of a trimmed string |
| `Datastore` | `datastore.dfy` | the rows as datatypes, the whole store as one value `Store`, its consistency predicate `Valid`, the errors, and `getPostById` |
| `TagResolution` | `tag_resolution.dfy` | `processTags` as a function (map step, `filter()`, `unique()`), and lemmas on what it returns and what it writes |
| `PostTransactions` | `post_transactions.dfy` | `createPost`, `updatePost` and `deletePost` as functions from a store to a result and a new store, with the transaction bracket, and their guarantees |
| `Service` | `service.dfy` | class `PostService`, whose fields are the tables; its methods write step by step and roll back on failure, and each is proved to return and leave exactly what the function in `PostTransactions` / `TagResolution` describes |

How the source's parts are modelled:

- **Who is acting.** `Auth::id()` becomes a parameter `actor: Option<UserId>`.
  `routes/api.php` puts no authentication middleware on the post routes, so the
  principal can be absent. With no principal:
  - `createPost` cannot fill the NOT NULL `posts.user_id` column and fails with
    `OwnerMissing`.
  - `updatePost` and `deletePost` fail the ownership test (`null !== user_id`)
    with `Forbidden`.

  The controller tests (`tests/App/Http/Controllers/PostControllerTest.php`)
  send their create, update and delete requests without credentials. Under this
  model those requests fail, because the service takes the owner from the
  principal and never from the `user_id` the request carries.
- **`Str::slug`.** Its definition is not part of this model. It is the
  parameter `slugOf` of every function and lemma, and a constant of the class.
  No property of it is assumed.
- **Datastore failures.** These come from the predicate `refuses: Write -> bool`,
  which says which writes the datastore refuses (lost connection, a constraint
  this model does not track). A refused write makes the operation fail with
  `WriteRefused`. The post slug's UNIQUE constraint from the posts migration is
  modelled explicitly, as `SlugTaken`.
- **Rollback.** The class restores the `Store` value taken when the
  transaction began. The functions return the original store on every error.
- **Blank names.** A name counts as blank when `trim(name)` is `""` or `"0"`,
  because PHP's `empty()` is true for `"0"`. So a tag named `"0"` is skipped
  like an empty one.
- **Slug versus stored name.** The slug comes from the untrimmed name
  (`Str::slug($tagName)`), while the stored name is the trimmed one.

## Model

| member | source | states |
|---|---|---|
| PhpText.TrimLeftShape | app/Services/PostService.php:189 | ltrim keeps a suffix that starts with a non-trim character and drops only trim characters |
| PhpText.TrimRightShape | app/Services/PostService.php:189 | rtrim keeps a prefix that ends with a non-trim character and drops only trim characters |
| PhpText.TrimShape | app/Services/PostService.php:189 | trim(s) is the infix of s between two runs of trim characters, and neither of its ends is a trim character |
| PhpText.TrimIdempotent | app/Services/PostService.php:194 | trimming a trimmed name changes nothing |
| PhpText.TrimmedNameNotBlank | app/Services/PostService.php:189-194 | a name that passes the blank test yields a stored name that is neither "" nor "0" and is already trimmed |
| Datastore.GetPostById | app/Services/PostService.php:36-39 | finds the post exactly when its id is stored, returns that row, and otherwise fails with NotFound |
| Datastore.TagsOfPairs | app/Services/PostService.php:68 | attaching a set of ids to a post gives that post exactly those tags and no other post any |
| TagResolution.FirstOrCreate | app/Services/PostService.php:192-196 | an existing slug returns its row's id with the table untouched; a missing slug adds one row with the next id and the given name, unless that insert is refused |
| TagResolution.Truthy | app/Services/PostService.php:197 | filter() keeps exactly the non-null, non-zero ids |
| TagResolution.Unique | app/Services/PostService.php:197 | unique() keeps exactly the same ids, each once |
| TagResolution.MapNamesShape | app/Services/PostService.php:188-189 | the map step yields one entry per name, and the entry is null exactly for the blank names |
| TagResolution.ResolveNameEffect | app/Services/PostService.php:189-196 | one name keeps every existing row, adds at most its own slug, and a row it adds carries the next id and the trimmed name |
| TagResolution.MapNamesGrows | app/Services/PostService.php:192-195 | a pass keeps existing rows unchanged, and every row it adds has a fresh id from the counter |
| TagResolution.MapNamesKeys | app/Services/PostService.php:189-195 | the slugs in the table afterwards are the old ones plus the slugs of the non-blank names |
| TagResolution.MapNamesLookups | app/Services/PostService.php:191-196 | every non-blank name maps to the id that the final table holds under its slug |
| TagResolution.MapNamesNewRows | app/Services/PostService.php:192-195 | a created row is named after the first non-blank name with that slug, trimmed, and that name is never blank |
| TagResolution.MapNamesKeepsTable | app/Services/PostService.php:192-195 | tag ids stay positive, below the counter and distinct across slugs |
| TagResolution.MapNamesOverResolved | app/Services/PostService.php:192-195 | when every slug is already stored, a pass writes nothing, succeeds whatever the datastore would refuse, and maps each name to the stored id |
| TagResolution.MapNamesPrefix | app/Services/PostService.php:188-196 | if the whole pass succeeds, the pass over any prefix succeeds |
| TagResolution.MapNamesSkipsBlanks | app/Services/PostService.php:189 | a pass over the names and a pass over only the non-blank names agree on success, writes and filtered ids |
| TagResolution.AllBlankCreatesNothing | app/Services/PostService.php:184-189 | an empty list, or a list of blank names, returns no ids and leaves the tag table and counter as they were |
| TagResolution.BlankNamesIgnored | app/Services/PostService.php:189-197 | processTags on the names gives the same result as on only their non-blank names |
| TagResolution.ProcessTagsIds | app/Services/PostService.php:191-197 | the ids are pairwise distinct, every non-blank name's slug is stored, and an id is returned exactly when it is the stored id of some non-blank name's slug |
| TagResolution.ProcessTagsLookupOrCreate | app/Services/PostService.php:192-195 | existing rows are kept, exactly the missing slugs are added, each new row has a fresh id and the trimmed first name with that slug, and the table stays consistent |
| TagResolution.ProcessTagsIdempotent | app/Services/PostService.php:192-197 | running processTags again on the same names returns the same ids and adds no tag, whatever the datastore would refuse |
| PostTransactions.ProcessedIdsStored | app/Services/PostService.php:192-197 | every returned id is the id of a stored tag, and no existing tag id disappears |
| PostTransactions.ProcessTagsTotal | app/Services/PostService.php:182-198 | when the datastore refuses nothing, processTags always succeeds |
| PostTransactions.TagsOfDetach | app/Services/PostService.php:122 | removing a post's association rows empties that post's tags and keeps every other post's |
| PostTransactions.CreatePostFailures | app/Services/PostService.php:50-83 | no principal fails with OwnerMissing and only then; a used slug fails with SlugTaken; any failure leaves the store unchanged; with no refused write, create succeeds exactly when there is a principal and the slug is free |
| PostTransactions.CreatePostEffect | app/Services/PostService.php:53-74 | the new post gets the next id and the principal as owner (whatever user_id was sent), with its title, content and slug(title); its tags are the processTags ids when tags is set and none otherwise; other posts' tags are unchanged; the tag table and counter are exactly those processTags leaves when tags is set, and untouched otherwise |
| PostTransactions.CreatePostKeepsValid | app/Services/PostService.php:48-84 | createPost keeps ids in range, post slugs unique, tag ids distinct, and every association between a stored post and a stored tag |
| PostTransactions.UpdatePostFailures | app/Services/PostService.php:97-137 | a missing id fails with NotFound and only then; a non-owner (or no principal) fails with Forbidden and only then; any failure leaves the store unchanged; with no refused write, the owner's update succeeds unless the new slug is taken |
| PostTransactions.UpdatePostEffect | app/Services/PostService.php:106-124 | the owner never changes; title and content take the values sent; the slug is recomputed only for a title that differs; without a tags key the associations, the tag table and its counter are untouched; with one, the tag table and counter are exactly those processTags leaves and the post's tags are exactly its ids; other posts' tags never change |
| PostTransactions.UpdatePostKeepsValid | app/Services/PostService.php:95-138 | updatePost keeps the store consistent |
| PostTransactions.UpdateWithNoTagsDetachesAll | app/Services/PostService.php:120-122 | sending tags as null or [] leaves the post with no tags and creates none |
| PostTransactions.ProcessTagsOneName | app/Services/PostService.php:188-197 | processTags on one non-blank name returns exactly the id stored under that name's slug |
| PostTransactions.UpdateWithOneTag | app/Services/PostService.php:120-122 | sending one non-blank tag name leaves the post with exactly the tag stored under that name's slug, whatever it had before |
| PostTransactions.DeletePostFailures | app/Services/PostService.php:150-172 | a missing id fails with NotFound, a non-owner fails with Forbidden, each exactly then; any failure leaves the store unchanged; with no refused write, the owner's delete succeeds |
| PostTransactions.DeletePostEffect | app/Services/PostService.php:153-164 | a delete returns true, removes the post and its associations, and keeps every other post, association and tag, and both id counters; the store stays consistent |
| Service.PostService.Rollback | app/Services/PostService.php:76-77 | the state taken when the transaction began is restored |
| Service.PostService.ProcessTags | app/Services/PostService.php:182-198 | the loop over the names writes exactly the tag table and counter of the processTags function and returns its ids, or reports the refused insert; posts and associations are untouched |
| Service.PostService.CreatePost | app/Services/PostService.php:48-84 | the step-by-step insert, attach and rollback give exactly the result and store of the createPost function, and keep the store consistent |
| Service.PostService.UpdatePost | app/Services/PostService.php:95-138 | the step-by-step update, sync and rollback give exactly the result and store of the updatePost function, and keep the store consistent |
| Service.PostService.DeletePost | app/Services/PostService.php:148-173 | the checked delete gives exactly the result and store of the deletePost function, and keeps the store consistent |

## Left out

- `listPosts` (app/Services/PostService.php:23-26) only hands the query to the ORM's paginator.
- Logging (`Log::info`, `Log::error`) has no effect on the stored state and is not modelled.
- The HTTP layer, meaning the controllers, status codes, JSON bodies and the request validation rules, is not part of this model. Requests are taken to have passed validation, so a title or content that is present is a string.
- JWT authentication and `Auth::id()` are not part of this model. The acting principal is a parameter.
- The internals of `Str::slug` (transliteration, separators) are left out. The slug is an uninterpreted parameter, and nothing about it is assumed, not even idempotence.
- Concurrency is left out: transaction isolation, and two requests racing on `firstOrCreate` or on a post slug. The model is one sequential caller.
- The store's consistency rules for the association table are assumed rather than read from a schema, because that table's migration is not part of this model. Tag ids must be stored tags, and deleting a post removes its association rows.
- What a refused write is, and the error message it carries, are abstracted into the single error `WriteRefused`. Every write is treated as one that may be refused, including an update that changes no column and would issue no query.
- Auto-increment counters are restored on rollback in this model. Some database engines do not give the consumed ids back; the ids handed out later may then differ from the model's.
- TagResolution.Unique: its contract states that the same ids are kept, each once, but not that the first occurrences stay in order. The order does not matter to `attach` and `sync`. The non-consecutive keys that `toArray()` leaves after `filter()` are not modelled either, for the same reason.
- The returned `Post` holds only the owner, title, content and slug columns. The post id is the key of the `posts` map and is not repeated in the row. The `load('tags')` eager loading is not modelled; the post's tags are stated through the association rows instead.
- Timestamps are not modelled: the `created_at`/`updated_at` columns of posts and tags, and the `updated_at` change that `$post->update($data)` makes.
