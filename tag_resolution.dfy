/** processTags as a function of the tag table: each name is trimmed and
    skipped when blank, otherwise looked up by slug and created when
    missing (firstOrCreate); the ids are then filtered and deduplicated.
    The slug derivation is a parameter, so nothing here depends on it. */
module TagResolution {
  import opened PhpText
  import opened Datastore

  /** The tag table and counter after resolving a prefix of the names,
      with one entry per name: None for a skipped name, else the tag id. */
  datatype Resolution = Resolution(tags: TagTable, nextTagId: TagId, mapped: seq<Option<TagId>>)

  /** What processTags leaves behind and returns. */
  datatype Processed = Processed(tags: TagTable, nextTagId: TagId, ids: seq<TagId>)

  /** Tag::firstOrCreate(['slug' => slug], ['name' => name]); None when the
      datastore refuses the insert. */
  function FirstOrCreate(tags: TagTable, next: TagId, slug: string, name: string,
                         refuses: Write -> bool): (r: Option<(TagTable, TagId, TagId)>)
    ensures r.None? <==> slug !in tags && refuses(InsertTag(slug, name))
    ensures r.Some? ==> slug in r.value.0 && r.value.0[slug].id == r.value.2
    ensures slug in tags ==> r == Some((tags, next, tags[slug].id))
    ensures slug !in tags && r.Some? ==>
      r.value.0 == tags[slug := TagRow(next, name)] && r.value.1 == next + 1
  {
    if slug in tags then Some((tags, next, tags[slug].id))
    else if refuses(InsertTag(slug, name)) then None
    else Some((tags[slug := TagRow(next, name)], next + 1, next))
  }

  /** The closure mapped over the names: null for a blank name, else the
      id of the tag found or created under Slug(name), named trim(name). */
  function ResolveName(tags: TagTable, next: TagId, name: string,
                       slugOf: string -> string, refuses: Write -> bool): Option<(TagTable, TagId, Option<TagId>)>
  {
    if IsBlank(name) then Some((tags, next, None))
    else
      match FirstOrCreate(tags, next, slugOf(name), Trim(name), refuses)
      case None => None
      case Some((t, n, id)) => Some((t, n, Some(id)))
  }

  /** The map step over all names, left to right; None once a write is refused. */
  function MapNames(tags: TagTable, next: TagId, names: seq<string>,
                    slugOf: string -> string, refuses: Write -> bool): Option<Resolution>
    decreases |names|
  {
    if |names| == 0 then Some(Resolution(tags, next, []))
    else
      match MapNames(tags, next, names[..|names| - 1], slugOf, refuses)
      case None => None
      case Some(r) =>
        match ResolveName(r.tags, r.nextTagId, names[|names| - 1], slugOf, refuses)
        case None => None
        case Some((t, n, o)) => Some(Resolution(t, n, r.mapped + [o]))
  }

  /** Collection::filter() without a callback: drops null and the falsy id 0. */
  function Truthy(mapped: seq<Option<TagId>>): (r: seq<TagId>)
    ensures forall x :: x in r <==> x != 0 && Some(x) in mapped
    decreases |mapped|
  {
    if |mapped| == 0 then []
    else
      var init := mapped[..|mapped| - 1];
      var last := mapped[|mapped| - 1];
      assert mapped == init + [last];
      if last.Some? && last.value != 0 then Truthy(init) + [last.value] else Truthy(init)
  }

  ghost predicate Distinct(s: seq<TagId>) {
    forall i, j :: 0 <= i < j < |s| ==> s[i] != s[j]
  }

  /** Collection::unique(): the first occurrence of every id, in order. */
  function Unique(s: seq<TagId>): (r: seq<TagId>)
    ensures forall x :: x in r <==> x in s
    ensures Distinct(r)
    decreases |s|
  {
    if |s| == 0 then []
    else
      var init := s[..|s| - 1];
      var u := Unique(init);
      assert s == init + [s[|s| - 1]];
      if s[|s| - 1] in u then u else u + [s[|s| - 1]]
  }

  /** processTags: an empty list returns at once; otherwise map, filter, unique. */
  function ProcessTags(tags: TagTable, next: TagId, names: seq<string>,
                       slugOf: string -> string, refuses: Write -> bool): Option<Processed>
  {
    if |names| == 0 then Some(Processed(tags, next, []))
    else
      match MapNames(tags, next, names, slugOf, refuses)
      case None => None
      case Some(r) => Some(Processed(r.tags, r.nextTagId, Unique(Truthy(r.mapped))))
  }

  /** The names processTags does not skip, in order. */
  function NonBlank(names: seq<string>): (r: seq<string>)
    decreases |names|
  {
    if |names| == 0 then []
    else if IsBlank(names[|names| - 1]) then NonBlank(names[..|names| - 1])
    else NonBlank(names[..|names| - 1]) + [names[|names| - 1]]
  }

  /** The slugs of the names that are not skipped. */
  function NameSlugs(names: seq<string>, slugOf: string -> string): set<string> {
    set i | 0 <= i < |names| && !IsBlank(names[i]) :: slugOf(names[i])
  }

  /** Every row of `tags` is still in `tags'`, unchanged. */
  ghost predicate Extends(tags: TagTable, tags': TagTable) {
    forall k | k in tags :: k in tags' && tags'[k] == tags[k]
  }

  /** Name i is the first non-skipped name whose slug is `slug`. */
  ghost predicate FirstWithSlug(names: seq<string>, slugOf: string -> string, slug: string, i: int) {
    0 <= i < |names| && !IsBlank(names[i]) && slugOf(names[i]) == slug
    && forall j :: 0 <= j < i ==> IsBlank(names[j]) || slugOf(names[j]) != slug
  }

  // ---------------------------------------------------------------------
  // What one pass over the names does to the tag table.

  /** The pass over a non-empty list is the pass over all but its last
      name followed by one step for that name. */
  lemma MapNamesLast(tags: TagTable, next: TagId, names: seq<string>,
                     slugOf: string -> string, refuses: Write -> bool)
    requires |names| > 0
    requires MapNames(tags, next, names, slugOf, refuses).Some?
    ensures var r0 := MapNames(tags, next, names[..|names| - 1], slugOf, refuses);
      && r0.Some?
      && var step := ResolveName(r0.value.tags, r0.value.nextTagId, names[|names| - 1], slugOf, refuses);
      && step.Some?
      && MapNames(tags, next, names, slugOf, refuses).value
         == Resolution(step.value.0, step.value.1, r0.value.mapped + [step.value.2])
  {
  }

  /** The slugs of a list: those of all but its last name, plus the last
      name's unless it is blank. */
  lemma NameSlugsLast(names: seq<string>, slugOf: string -> string)
    requires |names| > 0
    ensures var init := names[..|names| - 1];
      var name := names[|names| - 1];
      NameSlugs(names, slugOf) == NameSlugs(init, slugOf) + (if IsBlank(name) then {} else {slugOf(name)})
  {
    var init := names[..|names| - 1];
    var name := names[|names| - 1];
    forall k | k in NameSlugs(names, slugOf)
      ensures k in NameSlugs(init, slugOf) + (if IsBlank(name) then {} else {slugOf(name)})
    {
      var i :| 0 <= i < |names| && !IsBlank(names[i]) && slugOf(names[i]) == k;
      if i < |init| { assert init[i] == names[i]; }
    }
    forall k | k in NameSlugs(init, slugOf) ensures k in NameSlugs(names, slugOf) {
      var i :| 0 <= i < |init| && !IsBlank(init[i]) && slugOf(init[i]) == k;
      assert names[i] == init[i];
    }
    if !IsBlank(name) {
      assert slugOf(names[|names| - 1]) in NameSlugs(names, slugOf);
    }
  }

  /** One entry per name: null exactly for the blank ones. */
  lemma {:induction false} MapNamesShape(tags: TagTable, next: TagId, names: seq<string>,
                                         slugOf: string -> string, refuses: Write -> bool)
    requires MapNames(tags, next, names, slugOf, refuses).Some?
    ensures var r := MapNames(tags, next, names, slugOf, refuses).value;
      && |r.mapped| == |names|
      && (forall i | 0 <= i < |names| :: r.mapped[i].None? <==> IsBlank(names[i]))
    decreases |names|
  {
    if |names| > 0 {
      var init := names[..|names| - 1];
      MapNamesShape(tags, next, init, slugOf, refuses);
      var r := MapNames(tags, next, names, slugOf, refuses).value;
      forall i | 0 <= i < |names| ensures r.mapped[i].None? <==> IsBlank(names[i]) {
        if i < |init| { assert init[i] == names[i]; }
      }
    }
  }

  /** One name: a blank name writes nothing; otherwise an existing row is
      reused untouched, or one row with the next id is added. */
  lemma ResolveNameEffect(tags: TagTable, next: TagId, name: string,
                          slugOf: string -> string, refuses: Write -> bool)
    requires ResolveName(tags, next, name, slugOf, refuses).Some?
    ensures var (t, n, o) := ResolveName(tags, next, name, slugOf, refuses).value;
      && Extends(tags, t)
      && t.Keys == tags.Keys + (if IsBlank(name) then {} else {slugOf(name)})
      && n == next + (|t| - |tags|)
      && (forall k | k in t && k !in tags :: t[k] == TagRow(next, Trim(name)))
  {
    var (t, n, o) := ResolveName(tags, next, name, slugOf, refuses).value;
    if !IsBlank(name) && slugOf(name) !in tags {
      assert t == tags[slugOf(name) := TagRow(next, Trim(name))];
      assert |t| == |tags| + 1;
    }
  }

  /** The keys one name adds: its slug, unless it is blank. */
  lemma ResolveNameKeys(tags: TagTable, next: TagId, name: string,
                        slugOf: string -> string, refuses: Write -> bool)
    requires ResolveName(tags, next, name, slugOf, refuses).Some?
    ensures ResolveName(tags, next, name, slugOf, refuses).value.0.Keys
         == tags.Keys + (if IsBlank(name) then {} else {slugOf(name)})
  {
  }

  /** Existing tags are reused untouched, and every row the pass adds has a
      fresh id: the counter advances by one per added row. */
  lemma {:induction false} MapNamesGrows(tags: TagTable, next: TagId, names: seq<string>,
                                         slugOf: string -> string, refuses: Write -> bool)
    requires MapNames(tags, next, names, slugOf, refuses).Some?
    ensures var r := MapNames(tags, next, names, slugOf, refuses).value;
      && Extends(tags, r.tags)
      && next <= r.nextTagId
      && r.nextTagId == next + (|r.tags| - |tags|)
      && (forall k | k in r.tags && k !in tags :: next <= r.tags[k].id < r.nextTagId)
    decreases |names|
  {
    if |names| > 0 {
      var init := names[..|names| - 1];
      var name := names[|names| - 1];
      MapNamesGrows(tags, next, init, slugOf, refuses);
      var r0 := MapNames(tags, next, init, slugOf, refuses).value;
      var r := MapNames(tags, next, names, slugOf, refuses).value;
      ResolveNameEffect(r0.tags, r0.nextTagId, name, slugOf, refuses);
      forall k | k in r.tags && k !in tags ensures next <= r.tags[k].id < r.nextTagId {
        if k in r0.tags {
          assert r.tags[k] == r0.tags[k];
        } else {
          assert r.tags[k] == TagRow(r0.nextTagId, Trim(name));
          assert r.tags.Keys == r0.tags.Keys + {k};
        }
      }
    }
  }

  /** The table gains exactly the slugs of the non-blank names. */
  lemma {:induction false} MapNamesKeys(tags: TagTable, next: TagId, names: seq<string>,
                                        slugOf: string -> string, refuses: Write -> bool)
    requires MapNames(tags, next, names, slugOf, refuses).Some?
    ensures MapNames(tags, next, names, slugOf, refuses).value.tags.Keys
         == tags.Keys + NameSlugs(names, slugOf)
    decreases |names|
  {
    if |names| > 0 {
      var init := names[..|names| - 1];
      var name := names[|names| - 1];
      MapNamesLast(tags, next, names, slugOf, refuses);
      MapNamesKeys(tags, next, init, slugOf, refuses);
      NameSlugsLast(names, slugOf);
      var r0 := MapNames(tags, next, init, slugOf, refuses).value;
      ResolveNameKeys(r0.tags, r0.nextTagId, name, slugOf, refuses);
    }
  }

  /** Both of the above. */
  lemma MapNamesTable(tags: TagTable, next: TagId, names: seq<string>,
                      slugOf: string -> string, refuses: Write -> bool)
    requires MapNames(tags, next, names, slugOf, refuses).Some?
    ensures var r := MapNames(tags, next, names, slugOf, refuses).value;
      && Extends(tags, r.tags)
      && r.tags.Keys == tags.Keys + NameSlugs(names, slugOf)
      && next <= r.nextTagId
      && r.nextTagId == next + (|r.tags| - |tags|)
      && (forall k | k in r.tags && k !in tags :: next <= r.tags[k].id < r.nextTagId)
  {
    MapNamesGrows(tags, next, names, slugOf, refuses);
    MapNamesKeys(tags, next, names, slugOf, refuses);
  }

  /** Every non-blank name maps to the id the final table holds under its slug. */
  lemma {:induction false} MapNamesLookups(tags: TagTable, next: TagId, names: seq<string>,
                                           slugOf: string -> string, refuses: Write -> bool)
    requires MapNames(tags, next, names, slugOf, refuses).Some?
    ensures var r := MapNames(tags, next, names, slugOf, refuses).value;
      && |r.mapped| == |names|
      && (forall i | 0 <= i < |names| && !IsBlank(names[i]) ::
            slugOf(names[i]) in r.tags && r.mapped[i] == Some(r.tags[slugOf(names[i])].id))
    decreases |names|
  {
    MapNamesShape(tags, next, names, slugOf, refuses);
    if |names| > 0 {
      var init := names[..|names| - 1];
      MapNamesLookups(tags, next, init, slugOf, refuses);
      var r0 := MapNames(tags, next, init, slugOf, refuses).value;
      var r := MapNames(tags, next, names, slugOf, refuses).value;
      assert Extends(r0.tags, r.tags);
      forall i | 0 <= i < |names| && !IsBlank(names[i])
        ensures slugOf(names[i]) in r.tags && r.mapped[i] == Some(r.tags[slugOf(names[i])].id)
      {
        if i < |init| {
          assert init[i] == names[i];
          assert r.mapped[i] == r0.mapped[i];
        }
      }
    }
  }

  /** The first name with a slug in a list stays the first once more
      names are appended. */
  lemma FirstWithSlugAppend(init: seq<string>, name: string, slugOf: string -> string, slug: string, i: int)
    requires FirstWithSlug(init, slugOf, slug, i)
    ensures FirstWithSlug(init + [name], slugOf, slug, i)
  {
    var names := init + [name];
    forall j | 0 <= j < i ensures IsBlank(names[j]) || slugOf(names[j]) != slug {
      assert names[j] == init[j];
    }
  }

  /** A non-blank last name whose slug no earlier name has is the first with it. */
  lemma FirstWithSlugLast(init: seq<string>, name: string, slugOf: string -> string)
    requires !IsBlank(name) && slugOf(name) !in NameSlugs(init, slugOf)
    ensures FirstWithSlug(init + [name], slugOf, slugOf(name), |init|)
  {
    var names := init + [name];
    forall j | 0 <= j < |init| ensures IsBlank(names[j]) || slugOf(names[j]) != slugOf(name) {
      assert names[j] == init[j];
      if !IsBlank(init[j]) {
        assert slugOf(init[j]) in NameSlugs(init, slugOf);
      }
    }
  }

  /** A row the pass creates is named after the first non-blank name with
      that slug (the first writer wins), trimmed; such a name is never
      blank and is already trimmed. */
  lemma {:induction false} MapNamesNewRows(tags: TagTable, next: TagId, names: seq<string>,
                                           slugOf: string -> string, refuses: Write -> bool)
    requires MapNames(tags, next, names, slugOf, refuses).Some?
    ensures var r := MapNames(tags, next, names, slugOf, refuses).value;
      forall k | k in r.tags && k !in tags ::
        && (exists i :: FirstWithSlug(names, slugOf, k, i) && r.tags[k].name == Trim(names[i]))
        && !IsBlank(r.tags[k].name) && Trim(r.tags[k].name) == r.tags[k].name
    decreases |names|
  {
    if |names| > 0 {
      var init := names[..|names| - 1];
      var name := names[|names| - 1];
      assert names == init + [name];
      MapNamesLast(tags, next, names, slugOf, refuses);
      MapNamesNewRows(tags, next, init, slugOf, refuses);
      MapNamesKeys(tags, next, init, slugOf, refuses);
      var r0 := MapNames(tags, next, init, slugOf, refuses).value;
      var r := MapNames(tags, next, names, slugOf, refuses).value;
      ResolveNameEffect(r0.tags, r0.nextTagId, name, slugOf, refuses);
      forall k | k in r.tags && k !in tags
        ensures exists i :: FirstWithSlug(names, slugOf, k, i) && r.tags[k].name == Trim(names[i])
        ensures !IsBlank(r.tags[k].name) && Trim(r.tags[k].name) == r.tags[k].name
      {
        if k in r0.tags {
          var i :| FirstWithSlug(init, slugOf, k, i) && r0.tags[k].name == Trim(init[i]);
          FirstWithSlugAppend(init, name, slugOf, k, i);
          assert init[i] == names[i];
          TrimmedNameNotBlank(names[i]);
        } else {
          FirstWithSlugLast(init, name, slugOf);
          TrimmedNameNotBlank(name);
        }
      }
    }
  }

  /** The pass keeps tag ids positive, below the counter and distinct. */
  lemma MapNamesKeepsTable(tags: TagTable, next: TagId, names: seq<string>,
                           slugOf: string -> string, refuses: Write -> bool)
    requires TagTableOk(tags, next)
    requires MapNames(tags, next, names, slugOf, refuses).Some?
    ensures var r := MapNames(tags, next, names, slugOf, refuses).value;
      TagTableOk(r.tags, r.nextTagId)
    decreases |names|
  {
    if |names| > 0 {
      var init := names[..|names| - 1];
      MapNamesKeepsTable(tags, next, init, slugOf, refuses);
    }
  }

  /** A pass that needs no new row writes nothing, whatever the datastore
      would refuse, and maps every name to the id already stored. */
  lemma {:induction false} MapNamesOverResolved(tags: TagTable, next: TagId, names: seq<string>,
                                                slugOf: string -> string, refuses: Write -> bool)
    requires NameSlugs(names, slugOf) <= tags.Keys
    ensures MapNames(tags, next, names, slugOf, refuses).Some?
    ensures var r := MapNames(tags, next, names, slugOf, refuses).value;
      && r.tags == tags && r.nextTagId == next && |r.mapped| == |names|
      && (forall i | 0 <= i < |names| ::
            r.mapped[i] == if IsBlank(names[i]) then None else Some(tags[slugOf(names[i])].id))
    decreases |names|
  {
    if |names| > 0 {
      var init := names[..|names| - 1];
      assert NameSlugs(init, slugOf) <= NameSlugs(names, slugOf) by {
        forall k | k in NameSlugs(init, slugOf) ensures k in NameSlugs(names, slugOf) {
          var i :| 0 <= i < |init| && !IsBlank(init[i]) && slugOf(init[i]) == k;
          assert names[i] == init[i];
        }
      }
      if !IsBlank(names[|names| - 1]) {
        assert slugOf(names[|names| - 1]) in NameSlugs(names, slugOf);
      }
      MapNamesOverResolved(tags, next, init, slugOf, refuses);
    }
  }

  /** If the whole pass succeeds, so does the pass over any prefix. */
  lemma {:induction false} MapNamesPrefix(tags: TagTable, next: TagId, names: seq<string>, k: nat,
                                          slugOf: string -> string, refuses: Write -> bool)
    requires k <= |names|
    requires MapNames(tags, next, names, slugOf, refuses).Some?
    ensures MapNames(tags, next, names[..k], slugOf, refuses).Some?
    decreases |names|
  {
    if k < |names| {
      var init := names[..|names| - 1];
      assert init[..k] == names[..k];
      MapNamesPrefix(tags, next, init, k, slugOf, refuses);
    } else {
      assert names[..k] == names;
    }
  }

  /** Two passes agree on everything processTags uses: success, the final
      table and counter, and the filtered ids. */
  ghost predicate SameOutcome(r: Option<Resolution>, r': Option<Resolution>) {
    r.Some? == r'.Some?
    && (r.Some? ==>
          r.value.tags == r'.value.tags && r.value.nextTagId == r'.value.nextTagId
          && Truthy(r.value.mapped) == Truthy(r'.value.mapped))
  }

  /** A blank name at the end changes nothing processTags uses. */
  lemma BlankLastStep(tags: TagTable, next: TagId, init: seq<string>, name: string,
                      slugOf: string -> string, refuses: Write -> bool)
    requires IsBlank(name)
    ensures SameOutcome(MapNames(tags, next, init + [name], slugOf, refuses),
                        MapNames(tags, next, init, slugOf, refuses))
  {
    assert (init + [name])[..|init|] == init;
    var r0 := MapNames(tags, next, init, slugOf, refuses);
    if r0.Some? {
      TruthyLast(r0.value.mapped, None);
    }
  }

  /** Passes that agree keep agreeing after the same name is appended. */
  lemma SameStep(tags: TagTable, next: TagId, a: seq<string>, b: seq<string>, name: string,
                 slugOf: string -> string, refuses: Write -> bool)
    requires SameOutcome(MapNames(tags, next, a, slugOf, refuses), MapNames(tags, next, b, slugOf, refuses))
    ensures SameOutcome(MapNames(tags, next, a + [name], slugOf, refuses),
                        MapNames(tags, next, b + [name], slugOf, refuses))
  {
    assert (a + [name])[..|a|] == a;
    assert (b + [name])[..|b|] == b;
    var ra := MapNames(tags, next, a, slugOf, refuses);
    var rb := MapNames(tags, next, b, slugOf, refuses);
    if ra.Some? {
      var step := ResolveName(ra.value.tags, ra.value.nextTagId, name, slugOf, refuses);
      if step.Some? {
        TruthyLast(ra.value.mapped, step.value.2);
        TruthyLast(rb.value.mapped, step.value.2);
      }
    }
  }

  /** Dropping the blank names first changes neither the writes nor the ids. */
  lemma {:induction false} MapNamesSkipsBlanks(tags: TagTable, next: TagId, names: seq<string>,
                                               slugOf: string -> string, refuses: Write -> bool)
    ensures SameOutcome(MapNames(tags, next, names, slugOf, refuses),
                        MapNames(tags, next, NonBlank(names), slugOf, refuses))
    decreases |names|
  {
    if |names| > 0 {
      var init := names[..|names| - 1];
      var name := names[|names| - 1];
      assert names == init + [name];
      MapNamesSkipsBlanks(tags, next, init, slugOf, refuses);
      if IsBlank(name) {
        BlankLastStep(tags, next, init, name, slugOf, refuses);
      } else {
        SameStep(tags, next, init, NonBlank(init), name, slugOf, refuses);
      }
    }
  }

  /** filter() over one more entry. */
  lemma TruthyLast(mapped: seq<Option<TagId>>, o: Option<TagId>)
    ensures Truthy(mapped + [o]) == Truthy(mapped) + (if o.Some? && o.value != 0 then [o.value] else [])
  {
    assert (mapped + [o])[..|mapped|] == mapped;
  }

  /** filter() keeps nothing of a list of nulls. */
  lemma TruthyOfNulls(mapped: seq<Option<TagId>>)
    requires forall i | 0 <= i < |mapped| :: mapped[i].None?
    ensures Truthy(mapped) == []
  {
  }

  // ---------------------------------------------------------------------
  // The promises of processTags.

  /** A list of blank names (the empty list included) returns no id and
      creates no tag, whatever the datastore would refuse. */
  lemma AllBlankCreatesNothing(tags: TagTable, next: TagId, names: seq<string>,
                               slugOf: string -> string, refuses: Write -> bool)
    requires forall i | 0 <= i < |names| :: IsBlank(names[i])
    ensures ProcessTags(tags, next, names, slugOf, refuses) == Some(Processed(tags, next, []))
  {
    if |names| > 0 {
      assert NameSlugs(names, slugOf) == {};
      MapNamesOverResolved(tags, next, names, slugOf, refuses);
      TruthyOfNulls(MapNames(tags, next, names, slugOf, refuses).value.mapped);
    }
  }

  /** Blank names contribute nothing: processing the list is the same as
      processing only its non-blank names. */
  lemma BlankNamesIgnored(tags: TagTable, next: TagId, names: seq<string>,
                          slugOf: string -> string, refuses: Write -> bool)
    ensures ProcessTags(tags, next, names, slugOf, refuses)
         == ProcessTags(tags, next, NonBlank(names), slugOf, refuses)
  {
    MapNamesSkipsBlanks(tags, next, names, slugOf, refuses);
    if |names| > 0 && |NonBlank(names)| == 0 {
      var m := MapNames(tags, next, names, slugOf, refuses);
      if m.Some? {
        assert MapNames(tags, next, NonBlank(names), slugOf, refuses) == Some(Resolution(tags, next, []));
      }
    }
  }

  /** The returned ids are pairwise distinct, and an id is returned exactly
      when it is the id of the tag stored under the slug of some non-blank
      name. */
  lemma ProcessTagsIds(tags: TagTable, next: TagId, names: seq<string>,
                       slugOf: string -> string, refuses: Write -> bool)
    requires TagTableOk(tags, next)
    requires ProcessTags(tags, next, names, slugOf, refuses).Some?
    ensures var p := ProcessTags(tags, next, names, slugOf, refuses).value;
      && Distinct(p.ids)
      && NameSlugs(names, slugOf) <= p.tags.Keys
      && (forall id :: id in p.ids <==>
            exists i :: 0 <= i < |names| && !IsBlank(names[i]) && p.tags[slugOf(names[i])].id == id)
  {
    var p := ProcessTags(tags, next, names, slugOf, refuses).value;
    if |names| > 0 {
      MapNamesShape(tags, next, names, slugOf, refuses);
      MapNamesLookups(tags, next, names, slugOf, refuses);
      MapNamesKeys(tags, next, names, slugOf, refuses);
      MapNamesKeepsTable(tags, next, names, slugOf, refuses);
      var r := MapNames(tags, next, names, slugOf, refuses).value;
      assert p.ids == Unique(Truthy(r.mapped));
      forall id | id in p.ids
        ensures exists i :: 0 <= i < |names| && !IsBlank(names[i]) && p.tags[slugOf(names[i])].id == id
      {
        assert Some(id) in r.mapped;
        var i :| 0 <= i < |r.mapped| && r.mapped[i] == Some(id);
        assert !IsBlank(names[i]);
      }
      forall i | 0 <= i < |names| && !IsBlank(names[i]) ensures p.tags[slugOf(names[i])].id in p.ids {
        var id := p.tags[slugOf(names[i])].id;
        assert r.mapped[i] == Some(id);
        assert id != 0;
        assert id in Truthy(r.mapped);
      }
    } else {
      assert NameSlugs(names, slugOf) == {};
    }
  }

  /** Lookup-or-create over the whole list: every stored tag keeps its id
      and its name, the table gains exactly the slugs of the non-blank names
      it lacked, each with one fresh id and the trimmed name of the first
      name that produced it, and the table stays consistent. */
  lemma ProcessTagsLookupOrCreate(tags: TagTable, next: TagId, names: seq<string>,
                                  slugOf: string -> string, refuses: Write -> bool)
    requires TagTableOk(tags, next)
    requires ProcessTags(tags, next, names, slugOf, refuses).Some?
    ensures var p := ProcessTags(tags, next, names, slugOf, refuses).value;
      && TagTableOk(p.tags, p.nextTagId)
      && Extends(tags, p.tags)
      && p.tags.Keys == tags.Keys + NameSlugs(names, slugOf)
      && p.nextTagId == next + (|p.tags| - |tags|)
      && (forall k | k in p.tags && k !in tags ::
            && next <= p.tags[k].id
            && (exists i :: FirstWithSlug(names, slugOf, k, i) && p.tags[k].name == Trim(names[i]))
            && !IsBlank(p.tags[k].name))
  {
    if |names| > 0 {
      var p := ProcessTags(tags, next, names, slugOf, refuses).value;
      var r := MapNames(tags, next, names, slugOf, refuses).value;
      assert p.tags == r.tags && p.nextTagId == r.nextTagId;
      assert Extends(tags, r.tags) && r.tags.Keys == tags.Keys + NameSlugs(names, slugOf)
             && r.nextTagId == next + (|r.tags| - |tags|)
             && (forall k | k in r.tags && k !in tags :: next <= r.tags[k].id) by {
        MapNamesTable(tags, next, names, slugOf, refuses);
      }
      MapNamesNewRows(tags, next, names, slugOf, refuses);
      MapNamesKeepsTable(tags, next, names, slugOf, refuses);
    } else {
      assert NameSlugs(names, slugOf) == {};
    }
  }

  /** Running processTags again on its own result returns the same ids and
      writes nothing, so no datastore refusal can make it fail. */
  lemma ProcessTagsIdempotent(tags: TagTable, next: TagId, names: seq<string>,
                              slugOf: string -> string, refuses: Write -> bool, refuses': Write -> bool)
    requires ProcessTags(tags, next, names, slugOf, refuses).Some?
    ensures var p := ProcessTags(tags, next, names, slugOf, refuses).value;
      ProcessTags(p.tags, p.nextTagId, names, slugOf, refuses') == Some(p)
  {
    var p := ProcessTags(tags, next, names, slugOf, refuses).value;
    if |names| > 0 {
      MapNamesShape(tags, next, names, slugOf, refuses);
      MapNamesKeys(tags, next, names, slugOf, refuses);
      MapNamesLookups(tags, next, names, slugOf, refuses);
      var r := MapNames(tags, next, names, slugOf, refuses).value;
      MapNamesOverResolved(p.tags, p.nextTagId, names, slugOf, refuses');
      var r' := MapNames(p.tags, p.nextTagId, names, slugOf, refuses').value;
      assert r'.mapped == r.mapped;
    }
  }
}
