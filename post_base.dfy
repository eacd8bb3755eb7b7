/**
 * `WP::PostBase`, one WordPress post being imported: its `id`, its `status=`
 * writer, and `build_extra_attributes`, which completes the target record
 * (`object`, a `BlogEntry`) and its attribute hash (`object_builder`) in five
 * steps: the author lookup, the tag and category associations, the embed
 * rewriting of the body, the caption expansion of the post's own content, and
 * the Disqus thread id.
 */
module PostBase {
  import opened Wrappers
  import opened Text
  import opened RubyInteger
  import opened PostRules
  import opened Embeds
  import opened Captions
  import opened Associations
  import opened Find

  /**
   * The two user tables the author lookup consults: `AdminUser` ids by
   * username, and `Bio` ids by user id. Both are given, not queried.
   */
  datatype Directory = Directory(users: map<string, nat>, bios: map<nat, nat>)

  /** What the author lookup of lines 78-80 decides. */
  datatype Author = KeepDefault | Override(bioId: nat) | NoBio

  /**
   * A creator with no admin user keeps the default author; one whose user has
   * a bio gets the bio's id; one whose user has none makes `.first.id` fail.
   */
  function AuthorFor(directory: Directory, creator: string): (a: Author)
    ensures a.KeepDefault? <==> creator !in directory.users
    ensures a.NoBio? <==> creator in directory.users && directory.users[creator] !in directory.bios
    ensures a.Override? ==> (creator in directory.users && directory.users[creator] in directory.bios &&
      a.bioId == directory.bios[directory.users[creator]])
  {
    if creator !in directory.users then KeepDefault
    else if directory.users[creator] in directory.bios then Override(directory.bios[directory.users[creator]])
    else NoBio
  }

  const DsqKey := "dsq_thread_id"

  function MetaKey(m: Meta): string { m.key }

  /** `postmeta.find { |p| p[:meta_key] == "dsq_thread_id" }`, its value */
  function DsqThreadId(metas: seq<Meta>): (v: Option<string>)
    ensures v.None? <==> forall i :: 0 <= i < |metas| ==> metas[i].key != DsqKey
    ensures v.Some? ==> exists i :: (0 <= i < |metas| && metas[i] == Meta(DsqKey, v.value) &&
      forall j :: 0 <= j < i ==> metas[j].key != DsqKey)
  {
    var i := FirstWith(metas, MetaKey, DsqKey);
    assert forall j :: 0 <= j < i ==> MetaKey(metas[j]) != DsqKey;
    if i < |metas| then Some(metas[i].value) else None
  }

  /** A later `dsq_thread_id` meta never overrides the first one. */
  lemma DsqFirstWins(first: seq<Meta>, value: string, rest: seq<Meta>)
    requires forall i :: 0 <= i < |first| ==> first[i].key != DsqKey
    ensures DsqThreadId(first + [Meta(DsqKey, value)] + rest) == Some(value)
  {
    var metas := first + [Meta(DsqKey, value)] + rest;
    assert metas[|first|] == Meta(DsqKey, value);
    forall j | 0 <= j < |first| ensures MetaKey(metas[j]) != DsqKey {
      assert metas[j] == first[j];
    }
    FirstWithIsLeast(metas, MetaKey, DsqKey, |first|);
  }

  /** The two collections of the target record that associations fill. */
  datatype Collection = Tags | BlogCategories

  /** The target record (`BlogEntry`) as far as this step writes it. */
  class BlogEntry {
    var tags: seq<Record>
    var blogCategories: seq<Record>
    var dsqThreadId: Option<string>

    constructor ()
      ensures tags == [] && blogCategories == [] && dsqThreadId == None
    {
      tags := [];
      blogCategories := [];
      dsqThreadId := None;
    }

    function Items(which: Collection): seq<Record>
      reads this
    {
      match which
      case Tags => tags
      case BlogCategories => blogCategories
    }

    /** `object.send(name).push(record)` */
    method Push(which: Collection, record: Record)
      modifies this
      ensures Items(which) == old(Items(which)) + [record]
      ensures Items(Other(which)) == old(Items(Other(which)))
      ensures dsqThreadId == old(dsqThreadId)
    {
      match which
      case Tags => tags := tags + [record];
      case BlogCategories => blogCategories := blogCategories + [record];
    }
  }

  function Other(which: Collection): Collection {
    match which
    case Tags => BlogCategories
    case BlogCategories => Tags
  }

  /** The attribute hash (`object_builder`) the record will be created from. */
  class AttributeBuilder {
    var attributes: map<string, Value>

    constructor (attributes: map<string, Value>)
      ensures this.attributes == attributes
    {
      this.attributes := attributes;
    }
  }

  /** What `build_extra_attributes` ends with: it returns, or raises where the source would. */
  datatype Outcome =
    | Built
      /** An admin user exists for the creator but has no bio (line 79 calls `id` on `nil`). */
    | MissingBio
      /** The reference at `index` of the selected tags matches no pooled `WP::Tag` (line 103). */
    | DanglingTag(index: nat)
      /** The same for the selected categories and `WP::Category`. */
    | DanglingCategory(index: nat)

  /** The post fields `build_extra_attributes` reads. */
  datatype PostData = PostData(creator: string, categories: seq<CategoryRef>, postmeta: seq<Meta>)

  /** Everything `build_extra_attributes` may write. */
  datatype State = State(
    tags: seq<Record>, blogCategories: seq<Record>, dsqThreadId: Option<string>,
    attributes: map<string, Value>, content: string,
    tagPool: Pooled, categoryPool: Pooled)

  /** A pool's record class and the stored reference field it compares keys with. */
  datatype PoolKind = PoolKind(className: string, refField: string)

  /** The keys of the references of `domain`, in order. */
  function SelectedKeys(refs: seq<CategoryRef>, domain: string, kind: PoolKind): (ks: seq<Option<string>>)
    ensures |ks| == |Select(refs, domain)|
  {
    RefKeys(Select(refs, domain), kind.refField)
  }

  predicate HasContent(attributes: map<string, Value>) {
    "content" in attributes && attributes["content"].Str?
  }

  /** Lines 76-80 on the attribute hash. */
  function WithAuthor(attributes: map<string, Value>, author: Author): (r: map<string, Value>)
    ensures r.Keys == attributes.Keys + (if author.Override? then {"author_id"} else {})
    ensures forall k :: k in attributes && k != "author_id" ==> r[k] == attributes[k]
    ensures author.Override? ==> r["author_id"] == Int(author.bioId)
    ensures !author.Override? ==> r == attributes
  {
    if author.Override? then attributes["author_id" := Int(author.bioId)] else attributes
  }

  /** Lines 118-131 on the attribute hash: its `content` string rewritten by the embeds. */
  function WithEmbeds(attributes: map<string, Value>, metas: seq<Meta>): (r: map<string, Value>)
    requires HasContent(attributes)
    ensures r.Keys == attributes.Keys && HasContent(r)
    ensures forall k :: k in attributes && k != "content" ==> r[k] == attributes[k]
  {
    attributes["content" := Str(ApplyEmbeds(metas, attributes["content"].s))]
  }

  /** Lines 146-149: the first `dsq_thread_id` meta's value, or what was there. */
  function WithDsq(current: Option<string>, metas: seq<Meta>): (r: Option<string>)
    ensures DsqThreadId(metas).Some? ==> r == DsqThreadId(metas)
    ensures DsqThreadId(metas).None? ==> r == current
  {
    match DsqThreadId(metas)
    case Some(v) => Some(v)
    case None => current
  }

  /** After the associations (lines 134-151): embeds, captions, Disqus thread id. */
  function Finish(post: PostData, s: State, render: Renderer): State
    requires HasContent(s.attributes)
  {
    s.(attributes := WithEmbeds(s.attributes, post.postmeta),
       content := Expand(s.content, CaptionBlock(render)),
       dsqThreadId := WithDsq(s.dsqThreadId, post.postmeta))
  }

  /**
   * Lines 84-112: the tags first, then the categories, each run stopping at
   * its first dangling reference. Nothing but the collections and the pools
   * changes.
   */
  function Associate(post: PostData, s: State, tagKind: PoolKind, categoryKind: PoolKind): (r: (Outcome, State))
    ensures r.1.attributes == s.attributes && r.1.content == s.content && r.1.dsqThreadId == s.dsqThreadId
  {
    var tagRun := ResolveAll(s.tagPool, tagKind.className, SelectedKeys(post.categories, TagDomain, tagKind));
    var s1 := s.(tags := s.tags + tagRun.pushed, tagPool := tagRun.pool);
    if !tagRun.ok then (DanglingTag(|tagRun.pushed|), s1)
    else
      var categoryRun := ResolveAll(s.categoryPool, categoryKind.className, SelectedKeys(post.categories, CategoryDomain, categoryKind));
      var s2 := s1.(blogCategories := s.blogCategories + categoryRun.pushed, categoryPool := categoryRun.pool);
      if !categoryRun.ok then (DanglingCategory(|categoryRun.pushed|), s2)
      else (Built, s2)
  }

  /** `build_extra_attributes` on values: what it does to everything it may write. */
  function Build(post: PostData, s: State, directory: Directory, tagKind: PoolKind, categoryKind: PoolKind, render: Renderer): (Outcome, State)
    requires HasContent(s.attributes)
  {
    var author := AuthorFor(directory, post.creator);
    if author.NoBio? then (MissingBio, s)
    else
      var associated := Associate(post, s.(attributes := WithAuthor(s.attributes, author)), tagKind, categoryKind);
      if associated.0.Built? then (Built, Finish(post, associated.1, render)) else associated
  }

  /** The author lookup alone decides whether the build fails before changing anything. */
  lemma MissingBioChangesNothing(post: PostData, s: State, directory: Directory, tagKind: PoolKind, categoryKind: PoolKind, render: Renderer)
    requires HasContent(s.attributes)
    ensures var r := Build(post, s, directory, tagKind, categoryKind, render);
      (r.0 == MissingBio <==> AuthorFor(directory, post.creator).NoBio?) &&
      (r.0 == MissingBio ==> r.1 == s)
  {
  }

  /**
   * A successful build pushes one record per selected reference onto each
   * collection, after what was there; rewrites the builder's `content` by the
   * embeds and overrides `author_id` only for a creator with a bio, keeping
   * every other attribute; expands the captions of the post's content; and
   * copies the first Disqus thread id, if any.
   */
  lemma BuiltState(post: PostData, s: State, directory: Directory, tagKind: PoolKind, categoryKind: PoolKind, render: Renderer)
    requires HasContent(s.attributes)
    requires Build(post, s, directory, tagKind, categoryKind, render).0 == Built
    ensures var t := Build(post, s, directory, tagKind, categoryKind, render).1;
      var author := AuthorFor(directory, post.creator);
      |t.tags| == |s.tags| + |Select(post.categories, TagDomain)| && t.tags[..|s.tags|] == s.tags &&
      |t.blogCategories| == |s.blogCategories| + |Select(post.categories, CategoryDomain)| &&
      t.blogCategories[..|s.blogCategories|] == s.blogCategories &&
      t.attributes.Keys == s.attributes.Keys + (if author.Override? then {"author_id"} else {}) &&
      t.attributes["content"] == Str(ApplyEmbeds(post.postmeta, s.attributes["content"].s)) &&
      (author.Override? ==> t.attributes["author_id"] == Int(author.bioId)) &&
      (forall k :: k in s.attributes && k != "content" && (k != "author_id" || author.KeepDefault?) ==>
        k in t.attributes && t.attributes[k] == s.attributes[k]) &&
      t.content == Expand(s.content, CaptionBlock(render)) &&
      t.dsqThreadId == (if DsqThreadId(post.postmeta).Some? then DsqThreadId(post.postmeta) else s.dsqThreadId)
  {
    var author := AuthorFor(directory, post.creator);
    var s1 := s.(attributes := WithAuthor(s.attributes, author));
    var associated := Associate(post, s1, tagKind, categoryKind);
    assert associated.0 == Built;
    var tagRun := ResolveAll(s.tagPool, tagKind.className, SelectedKeys(post.categories, TagDomain, tagKind));
    var categoryRun := ResolveAll(s.categoryPool, categoryKind.className, SelectedKeys(post.categories, CategoryDomain, categoryKind));
    assert tagRun.ok && categoryRun.ok;
    assert associated.1.tags == s.tags + tagRun.pushed;
    assert associated.1.blogCategories == s.blogCategories + categoryRun.pushed;
  }

  /**
   * The records pushed for the tags are, in reference order, the records the
   * tag pool holds afterwards for each reference's key; likewise for the
   * categories. So references with equal keys get the same record.
   */
  lemma BuiltRecordsFollowReferences(post: PostData, s: State, directory: Directory, tagKind: PoolKind, categoryKind: PoolKind, render: Renderer, i: nat)
    requires HasContent(s.attributes)
    requires Build(post, s, directory, tagKind, categoryKind, render).0 == Built
    ensures var t := Build(post, s, directory, tagKind, categoryKind, render).1;
      var tags, categories := Select(post.categories, TagDomain), Select(post.categories, CategoryDomain);
      (i < |tags| ==> HeldFor(t.tagPool, RefKey(tags[i], tagKind.refField)) == Some(t.tags[|s.tags| + i])) &&
      (i < |categories| ==>
        HeldFor(t.categoryPool, RefKey(categories[i], categoryKind.refField)) == Some(t.blogCategories[|s.blogCategories| + i]))
  {
    var tagKeys := SelectedKeys(post.categories, TagDomain, tagKind);
    var categoryKeys := SelectedKeys(post.categories, CategoryDomain, categoryKind);
    ResolveAllConsistent(s.tagPool, tagKind.className, tagKeys);
    ResolveAllConsistent(s.categoryPool, categoryKind.className, categoryKeys);
    var author := AuthorFor(directory, post.creator);
    var associated := Associate(post, s.(attributes := WithAuthor(s.attributes, author)), tagKind, categoryKind);
    assert associated.0 == Built;
    var t := Build(post, s, directory, tagKind, categoryKind, render).1;
    assert t.tags == associated.1.tags && t.blogCategories == associated.1.blogCategories;
    assert t.tagPool == associated.1.tagPool && t.categoryPool == associated.1.categoryPool;
    assert associated.1.tags == s.tags + ResolveAll(s.tagPool, tagKind.className, tagKeys).pushed;
    assert associated.1.blogCategories == s.blogCategories + ResolveAll(s.categoryPool, categoryKind.className, categoryKeys).pushed;
  }

  /**
   * A dangling tag reference stops the build at that reference: it matches
   * no pooled object, the tags before it are pushed after the existing ones,
   * the author override is kept, and the categories, the content and the
   * Disqus thread id are untouched.
   */
  lemma DanglingTagStops(post: PostData, s: State, directory: Directory, tagKind: PoolKind, categoryKind: PoolKind, render: Renderer)
    requires HasContent(s.attributes)
    requires Build(post, s, directory, tagKind, categoryKind, render).0.DanglingTag?
    ensures var r := Build(post, s, directory, tagKind, categoryKind, render);
      var k := r.0.index;
      var tags := Select(post.categories, TagDomain);
      k < |tags| && FirstWith(s.tagPool.entries, EntryKey, RefKey(tags[k], tagKind.refField)) == |s.tagPool.entries| &&
      |r.1.tags| == |s.tags| + k && r.1.tags[..|s.tags|] == s.tags &&
      r.1.blogCategories == s.blogCategories && r.1.categoryPool == s.categoryPool &&
      r.1.attributes == WithAuthor(s.attributes, AuthorFor(directory, post.creator)) &&
      r.1.content == s.content && r.1.dsqThreadId == s.dsqThreadId
  {
    var tagKeys := SelectedKeys(post.categories, TagDomain, tagKind);
    ResolveAllConsistent(s.tagPool, tagKind.className, tagKeys);
  }

  /**
   * A dangling category reference stops the build at that reference: it
   * matches no pooled object, every tag and the categories before it are
   * pushed after the existing ones, the author override is kept, and the
   * content and the Disqus thread id are untouched.
   */
  lemma DanglingCategoryStops(post: PostData, s: State, directory: Directory, tagKind: PoolKind, categoryKind: PoolKind, render: Renderer)
    requires HasContent(s.attributes)
    requires Build(post, s, directory, tagKind, categoryKind, render).0.DanglingCategory?
    ensures var r := Build(post, s, directory, tagKind, categoryKind, render);
      var k := r.0.index;
      var categories := Select(post.categories, CategoryDomain);
      k < |categories| && FirstWith(s.categoryPool.entries, EntryKey, RefKey(categories[k], categoryKind.refField)) == |s.categoryPool.entries| &&
      |r.1.tags| == |s.tags| + |Select(post.categories, TagDomain)| && r.1.tags[..|s.tags|] == s.tags &&
      |r.1.blogCategories| == |s.blogCategories| + k && r.1.blogCategories[..|s.blogCategories|] == s.blogCategories &&
      r.1.attributes == WithAuthor(s.attributes, AuthorFor(directory, post.creator)) &&
      r.1.content == s.content && r.1.dsqThreadId == s.dsqThreadId
  {
    var tagKeys := SelectedKeys(post.categories, TagDomain, tagKind);
    var categoryKeys := SelectedKeys(post.categories, CategoryDomain, categoryKind);
    ResolveAllConsistent(s.tagPool, tagKind.className, tagKeys);
    ResolveAllConsistent(s.categoryPool, categoryKind.className, categoryKeys);
  }

  /** A build keeps both pools valid: imports hand out fresh ids. */
  lemma BuildKeepsPoolsValid(post: PostData, s: State, directory: Directory, tagKind: PoolKind, categoryKind: PoolKind, render: Renderer)
    requires HasContent(s.attributes)
    requires Valid(s.tagPool, tagKind.className) && Valid(s.categoryPool, categoryKind.className)
    ensures var t := Build(post, s, directory, tagKind, categoryKind, render).1;
      Valid(t.tagPool, tagKind.className) && Valid(t.categoryPool, categoryKind.className)
  {
    ResolveAllKeepsValid(s.tagPool, tagKind.className, SelectedKeys(post.categories, TagDomain, tagKind));
    ResolveAllKeepsValid(s.categoryPool, categoryKind.className, SelectedKeys(post.categories, CategoryDomain, categoryKind));
  }

  /** A WordPress post as extracted from its `<item>`. */
  class Post {
    var postId: string
    /** `dc:creator`, the author's username. */
    var creator: string
    var categories: seq<CategoryRef>
    var postmeta: seq<Meta>
    var content: string
    var status: Option<int>

    constructor (postId: string, creator: string, categories: seq<CategoryRef>, postmeta: seq<Meta>, content: string)
      ensures this.postId == postId && this.creator == creator && this.categories == categories
      ensures this.postmeta == postmeta && this.content == content && status == None
    {
      this.postId := postId;
      this.creator := creator;
      this.categories := categories;
      this.postmeta := postmeta;
      this.content := content;
      status := None;
    }

    /** `id`: `post_id.to_i` */
    function Id(): int
      reads this
    {
      ToI(postId)
    }

    /** `id` recovers every post id written in decimal, however it is padded with leading white space. */
    lemma IdOfDecimal(space: string, n: int)
      requires forall i :: 0 <= i < |space| ==> IsSpace(space[i])
      requires postId == space + Decimal(n)
      ensures Id() == n
    {
      ToISkipsSpace(space, Decimal(n));
      ToIDecimal(n, "");
      assert Decimal(n) + "" == Decimal(n);
    }

    /** `status=`: the code of the label, `nil` for a label outside the table. */
    method SetStatus(value: string)
      modifies this
      ensures status == StatusCode(value)
      ensures postId == old(postId) && creator == old(creator) && categories == old(categories)
      ensures postmeta == old(postmeta) && content == old(content)
    {
      status := StatusCode(value);
    }

    function Data(): PostData
      reads this
    {
      PostData(creator, categories, postmeta)
    }

    function StateOf(entry: BlogEntry, builder: AttributeBuilder, tagPool: Pool, categoryPool: Pool): State
      reads this, entry, builder, tagPool, categoryPool
    {
      State(entry.tags, entry.blogCategories, entry.dsqThreadId, builder.attributes, content,
            tagPool.Snapshot(), categoryPool.Snapshot())
    }

    /**
     * `build_extra_attributes(object, object_builder)`: the new state of the
     * record, the attribute hash, the post's content and the two pools is
     * `Build` of the old one; on success the same two objects come back.
     */
    method BuildExtraAttributes(entry: BlogEntry, builder: AttributeBuilder, tagPool: Pool, categoryPool: Pool,
                                directory: Directory, render: Renderer)
      returns (outcome: Outcome, entryOut: BlogEntry, builderOut: AttributeBuilder)
      requires tagPool != categoryPool
      requires HasContent(builder.attributes)
      modifies this, entry, builder, tagPool, categoryPool
      ensures entryOut == entry && builderOut == builder
      ensures (outcome, StateOf(entry, builder, tagPool, categoryPool)) ==
        Build(old(Data()), old(StateOf(entry, builder, tagPool, categoryPool)), directory,
              PoolKind(tagPool.className, tagPool.refField), PoolKind(categoryPool.className, categoryPool.refField), render)
      ensures Data() == old(Data()) && postId == old(postId) && status == old(status)
    {
      entryOut, builderOut := entry, builder;
      var author := AuthorFor(directory, creator);
      if author.NoBio? {
        return MissingBio, entry, builder;
      }
      if author.Override? {
        builder.attributes := builder.attributes["author_id" := Int(author.bioId)];
      }
      outcome := MergeAssociations(entry, builder, tagPool, categoryPool);
      if !outcome.Built? {
        return;
      }
      FinishAttributes(entry, builder, tagPool, categoryPool, render);
    }

    /** Lines 84-112: the tag references, then the category references. */
    method MergeAssociations(entry: BlogEntry, builder: AttributeBuilder, tagPool: Pool, categoryPool: Pool)
      returns (outcome: Outcome)
      requires tagPool != categoryPool
      modifies entry, tagPool, categoryPool
      ensures (outcome, StateOf(entry, builder, tagPool, categoryPool)) ==
        Associate(Data(), old(StateOf(entry, builder, tagPool, categoryPool)),
                  PoolKind(tagPool.className, tagPool.refField), PoolKind(categoryPool.className, categoryPool.refField))
    {
      ghost var s0 := StateOf(entry, builder, tagPool, categoryPool);
      ghost var tagRun := ResolveAll(s0.tagPool, tagPool.className, SelectedKeys(categories, TagDomain, PoolKind(tagPool.className, tagPool.refField)));
      var tagCount, categoryCount := |entry.tags|, |entry.blogCategories|;
      var ok := ResolveAssociation(entry, Tags, tagPool, Select(categories, TagDomain));
      ghost var s1 := StateOf(entry, builder, tagPool, categoryPool);
      assert s1 == s0.(tags := s0.tags + tagRun.pushed, tagPool := tagRun.pool) && ok == tagRun.ok;
      if !ok {
        return DanglingTag(|entry.tags| - tagCount);
      }
      ghost var categoryRun := ResolveAll(s0.categoryPool, categoryPool.className, SelectedKeys(categories, CategoryDomain, PoolKind(categoryPool.className, categoryPool.refField)));
      ok := ResolveAssociation(entry, BlogCategories, categoryPool, Select(categories, CategoryDomain));
      assert StateOf(entry, builder, tagPool, categoryPool) ==
        s1.(blogCategories := s0.blogCategories + categoryRun.pushed, categoryPool := categoryRun.pool) && ok == categoryRun.ok;
      if !ok {
        return DanglingCategory(|entry.blogCategories| - categoryCount);
      }
      outcome := Built;
    }

    /** Lines 114-151 after the associations: embeds, captions, Disqus thread id. */
    method FinishAttributes(entry: BlogEntry, builder: AttributeBuilder, tagPool: Pool, categoryPool: Pool, render: Renderer)
      requires HasContent(builder.attributes)
      modifies this, entry, builder
      ensures StateOf(entry, builder, tagPool, categoryPool) == Finish(Data(), old(StateOf(entry, builder, tagPool, categoryPool)), render)
      ensures Data() == old(Data()) && postId == old(postId) && status == old(status)
    {
      EmbedContent(builder);
      content := Expand(content, CaptionBlock(render));
      var dsq := DsqThreadId(postmeta);
      if dsq.Some? {
        entry.dsqThreadId := dsq;
      }
    }

    /** Lines 118-131: each `_oembed` meta, in order, rewrites the builder's `content`. */
    method EmbedContent(builder: AttributeBuilder)
      requires HasContent(builder.attributes)
      modifies builder
      ensures builder.attributes == WithEmbeds(old(builder.attributes), postmeta)
    {
      ghost var attributes0 := builder.attributes;
      var oembeds := OembedMetas(postmeta);
      EmbedEach(builder, oembeds);
      SelectedEmbeds(attributes0, postmeta);
    }
  }

  /** Lines 118-131: the `_oembed` metas, one after the other, each on the content the earlier ones left. */
  method EmbedEach(builder: AttributeBuilder, oembeds: seq<Meta>)
    requires HasContent(builder.attributes) && forall m :: m in oembeds ==> IsOembed(m)
    modifies builder
    ensures builder.attributes == old(builder.attributes)["content" := Str(ApplyEmbeds(oembeds, old(builder.attributes["content"].s)))]
  {
    ghost var attributes0 := builder.attributes;
    ghost var body0 := builder.attributes["content"].s;
    var i := 0;
    while i < |oembeds|
      invariant i <= |oembeds|
      invariant builder.attributes == attributes0["content" := Str(ApplyEmbeds(oembeds[..i], body0))]
    {
      ApplyEmbedsPrefix(oembeds, i, body0);
      assert oembeds[i] in oembeds;
      EmbedMeta(builder, oembeds[i]);
      assert builder.attributes == attributes0["content" := Str(EmbedOne(oembeds[i], ApplyEmbeds(oembeds[..i], body0)))];
      i := i + 1;
    }
    assert oembeds[..i] == oembeds;
  }

  /** Rewriting with the `_oembed` metas alone is rewriting with all of them. */
  lemma SelectedEmbeds(attributes: map<string, Value>, metas: seq<Meta>)
    requires HasContent(attributes)
    ensures WithEmbeds(attributes, metas) == attributes["content" := Str(ApplyEmbeds(OembedMetas(metas), attributes["content"].s))]
  {
    OnlyOembedMetasCount(metas, attributes["content"].s);
  }

  /** Lines 119-130 for one `_oembed` meta: the first shape its value matches decides the rewrite. */
  method EmbedMeta(builder: AttributeBuilder, meta: Meta)
    requires HasContent(builder.attributes) && IsOembed(meta)
    modifies builder
    ensures builder.attributes == old(builder.attributes)["content" := Str(EmbedOne(meta, old(builder.attributes["content"].s)))]
  {
    match Classify(meta.value) {
      case Some(embed) =>
        builder.attributes := builder.attributes["content" := Str(Gsub(builder.attributes["content"].s, embed, meta.value))];
      case None =>
    }
  }

  /**
   * Lines 90-111 for one association: every selected reference resolved
   * against the pool and its record pushed onto the collection, in order;
   * `false` when a reference matches no pooled object (the source raises).
   */
  method ResolveAssociation(entry: BlogEntry, which: Collection, pool: Pool, refs: seq<CategoryRef>) returns (ok: bool)
    modifies entry, pool
    ensures var run := ResolveAll(old(pool.Snapshot()), pool.className, RefKeys(refs, pool.refField));
      ok == run.ok && pool.Snapshot() == run.pool && entry.Items(which) == old(entry.Items(which)) + run.pushed
    ensures entry.Items(Other(which)) == old(entry.Items(Other(which))) && entry.dsqThreadId == old(entry.dsqThreadId)
  {
    ghost var keys := RefKeys(refs, pool.refField);
    ghost var c := pool.className;
    ghost var p0 := pool.Snapshot();
    ghost var items0 := entry.Items(which);
    ghost var run := Run(p0, [], true);
    var i := 0;
    while i < |refs|
      invariant i <= |refs|
      invariant run == ResolveAll(p0, c, keys[..i])
      invariant run.ok && run.pool == pool.Snapshot() && entry.Items(which) == items0 + run.pushed
      invariant entry.Items(Other(which)) == old(entry.Items(Other(which))) && entry.dsqThreadId == old(entry.dsqThreadId)
    {
      ResolveAllPrefix(p0, c, keys, i);
      ok, run := ResolveAndPush(entry, which, pool, RefKey(refs[i], pool.refField), items0, run);
      if !ok {
        ResolveAllStaysFailed(p0, c, keys, i + 1);
        return;
      }
      i := i + 1;
    }
    assert keys[..i] == keys;
    return true;
  }

  /** Lines 98-110 for one reference: resolve its key on the pool and push the record. */
  method ResolveAndPush(entry: BlogEntry, which: Collection, pool: Pool, key: Option<string>,
                        ghost items0: seq<Record>, ghost run: Run)
    returns (ok: bool, ghost next: Run)
    requires run.ok && run.pool == pool.Snapshot() && entry.Items(which) == items0 + run.pushed
    modifies entry, pool
    ensures next == Next(run, pool.className, key) && ok == next.ok
    ensures next.pool == pool.Snapshot() && entry.Items(which) == items0 + next.pushed
    ensures entry.Items(Other(which)) == old(entry.Items(Other(which))) && entry.dsqThreadId == old(entry.dsqThreadId)
  {
    var record := pool.Resolve(key);
    NextResolves(run, pool.className, key, Resolution(pool.Snapshot(), record));
    next := Next(run, pool.className, key);
    if record.None? {
      return false, next;
    }
    entry.Push(which, record.value);
    assert items0 + next.pushed == (items0 + run.pushed) + [record.value];
    ok := true;
  }
}
