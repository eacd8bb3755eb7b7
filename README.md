# WP::PostBase import rules, modelled in Dafny

This project models `WP::PostBase` (`lib/multi_american/post_base.rb`). It is
the part of a WordPress-export-to-Rails importer that decides, for one
exported post, whether it is imported and what the resulting `BlogEntry`
record and its attribute hash contain.

- **Node rejectors** (`post_rules.dfy`). `invalid_item` accepts only items
  whose status is exactly `publish`. `invalid_child` drops comments,
  `{{unknown}}` postmeta and whatever the parent class drops.
- **Status and tables** (`post_rules.dfy`). `status=` is a closed table from
  label to code. `DEFAULTS` and `XML_AR_MAP` are constants.
- **Post id** (`ruby_integer.dfy`, `post_base.dfy`). `id` is `post_id.to_i`.
  Ruby's decimal `String#to_i` is written out, and it reads back every
  rendered integer.
- **`build_extra_attributes`** (`post_base.dfy`). This is the class `Post`
  with the method `BuildExtraAttributes` and its stage methods, acting on the
  classes `BlogEntry` (the `object`), `AttributeBuilder` (the `object_builder`)
  and two `Pool`s. It is proved against the value-level function `Build`. Its
  steps are:
  - the author lookup;
  - the tag and category associations (`associations.dfy`): select by
    domain, take the first match in the pool, reuse `ar_record` or import,
    push in reference order;
  - oembed line rewriting (`embeds.dfy`);
  - caption expansion with the attribute tokenizer (`captions.dfy`);
  - the Disqus thread id.
- `text.dfy` holds the Ruby string operations the rest relies on: search,
  `split`, `join`, `lstrip` and `chomp`. `find.dfy` holds `Enumerable#find`
  on one field, used for the pool lookup and the Disqus meta. `wrappers.dfy`
  holds `Option`.

Behaviours of the code that the model keeps:

- `status=` stores `nil` for an unknown label
  (lib/multi_american/post_base.rb:166-174).
- An admin user without a `Bio` makes the author lookup raise
  (lib/multi_american/post_base.rb:79); the model reports
  `Outcome.MissingBio` and changes nothing.
- A reference that matches no pooled object raises
  (lib/multi_american/post_base.rb:103); the model reports
  `Outcome.DanglingTag` / `DanglingCategory` and keeps the records already
  pushed.
- The embed pattern interpolates the video id as a plain substring, so a
  line linking to another video whose id contains the captured one is
  replaced too (`Embeds.LongerIdAlsoMatches`).

## Model

| member | source | states |
|---|---|---|
| PostRules.InvalidChild | lib/multi_american/post_base.rb:41-45 | `invalid_child`: a comment, an `{{unknown}}` postmeta, or whatever the parent rule rejects; characterised by `BaseRejectionApplies`, `InvalidChildMonotone` and `KeptChildIsClean` |
| PostRules.BaseRejectionApplies | lib/multi_american/post_base.rb:41-45 | whatever the parent `invalid_child` rejects is rejected |
| PostRules.InvalidChildMonotone | lib/multi_american/post_base.rb:41-45 | a stricter parent rule can only reject more children |
| PostRules.KeptChildIsClean | lib/multi_american/post_base.rb:41-45 | a kept child is no comment, no `{{unknown}}` postmeta, and passes the parent rule |
| PostRules.InvalidItem | lib/multi_american/post_base.rb:47-50 | `invalid_item`: true unless the status label is `publish`; characterised by `ImportedItemIsPublished` and `CodeFiveIsNotImportable` |
| PostRules.ImportedItemIsPublished | lib/multi_american/post_base.rb:47-50 | an item that is not rejected has status `publish`, whose code is 5 |
| PostRules.CodeFiveIsNotImportable | lib/multi_american/post_base.rb:47-50 | `inherit` gets code 5 and `draft` code 0, yet both items are rejected |
| PostRules.StatusCode | lib/multi_american/post_base.rb:166-174 | `publish`/`inherit` give 5, `draft` gives 0, any other label gives nil, in both directions |
| PostBase.Post.SetStatus | lib/multi_american/post_base.rb:166-174 | `status` becomes the table's code (nil for an unknown label); other fields unchanged |
| PostRules.Defaults | lib/multi_american/post_base.rb:5-12 | the default attributes have exactly the six keys, with the site author, unpublished, no comments |
| PostRules.TablesAreDisjoint | lib/multi_american/post_base.rb:5-22 | `XML_AR_MAP` targets no `DEFAULTS` key and is one-to-one; `content` maps to `content` |
| RubyInteger.ToI | lib/multi_american/post_base.rb:162-164 | Ruby's base-10 `String#to_i`: white space, an optional sign, the digit run with single underscores, 0 without digits; characterised by `ToIDecimal`, `ToISkipsSpace` and `NoDigitsIsZero` |
| PostBase.Post.Id | lib/multi_american/post_base.rb:162-164 | `id` is `ToI` of the post id text; characterised by `Post.IdOfDecimal` |
| RubyInteger.ToIDecimal | lib/multi_american/post_base.rb:162-164 | `to_i` of a decimal integer followed by non-numeric text gives the integer |
| RubyInteger.ToISkipsSpace | lib/multi_american/post_base.rb:162-164 | leading white space does not change `to_i` |
| RubyInteger.NoDigitsIsZero | lib/multi_american/post_base.rb:162-164 | text starting with no sign, digit or space reads as 0 |
| PostBase.Post.IdOfDecimal | lib/multi_american/post_base.rb:162-164 | `id` recovers a post id written in decimal, after any leading white space |
| Associations.Select | lib/multi_american/post_base.rb:85-86 | the selection is no longer than the references |
| Associations.SelectMembers | lib/multi_american/post_base.rb:85-86 | the selection holds exactly the references of the domain |
| Associations.SelectAppend | lib/multi_american/post_base.rb:85-86 | selection keeps reference order (distributes over concatenation) |
| Associations.SelectPartition | lib/multi_american/post_base.rb:84-87 | tags and categories share no reference and together are at most all references; other domains are ignored |
| Find.FirstWith | lib/multi_american/post_base.rb:98-100 | the index found has the field value and no earlier element has it; the length when none has it |
| Find.FirstWithIsLeast | lib/multi_american/post_base.rb:147 | any index with those two properties is the one found |
| Associations.Pool.constructor | lib/multi_american/post_base.rb:98-100 | a pool holds the given class, reference field, objects and next id |
| Associations.Lookup | lib/multi_american/post_base.rb:98-107 | a record comes back iff some object matches; the matched object then holds it; a held record is reused with no change to the pool; keys never change |
| Associations.ImportCreatesFresh | lib/multi_american/post_base.rb:103-107 | importing gives a record with the next id, held by no other object |
| Associations.LookupKeepsValid | lib/multi_american/post_base.rb:98-107 | resolution keeps every record of the pool's class, below the next id, and held once |
| Associations.LookupKeepsHeld | lib/multi_american/post_base.rb:98-107 | a record already held for any key is still held after a resolution |
| Associations.Next | lib/multi_american/post_base.rb:98-110 | one reference of the `each`: a failed run stays failed; a resolved reference pushes exactly one record; a dangling one pushes nothing and fails the run; `NextResolves` gives the new pool and record as `Lookup`'s |
| Associations.NextResolves | lib/multi_american/post_base.rb:98-110 | on a running run, `Next` pushes `Lookup`'s record and keeps its pool, or stops with the pool unchanged when there is none |
| Associations.ResolveAll | lib/multi_american/post_base.rb:89-111 | at most one record per reference, exactly one each when all resolve |
| Associations.ResolveAllConsistent | lib/multi_american/post_base.rb:89-111 | every pushed record is the one the pool holds for its reference's key; a run stops only at a reference that matches no object |
| Associations.ResolveAllStaysFailed | lib/multi_american/post_base.rb:98-103 | after a dangling reference no later reference is resolved |
| Associations.SameKeySameRecord | lib/multi_american/post_base.rb:98-107 | two references with the same key get the same record |
| Associations.ResolveAllKeepsValid | lib/multi_american/post_base.rb:89-111 | a run keeps the pool valid |
| Associations.ResolveAllImportsAtMost | lib/multi_american/post_base.rb:102-107 | a run imports at most once per reference |
| Associations.ResolveAgain | lib/multi_american/post_base.rb:98-107 | resolving again on the pool a run left imports nothing and pushes the same records |
| Associations.Pool.Resolve | lib/multi_american/post_base.rb:98-107 | the scan-and-import method leaves the pool and returns the record exactly as `Lookup` says |
| PostBase.BlogEntry.Push | lib/multi_american/post_base.rb:110 | the named collection grows by the record; the other collection and the thread id are unchanged |
| PostBase.ResolveAndPush | lib/multi_american/post_base.rb:98-110 | one reference: pool and collection advance as one `Next` step of the run |
| PostBase.ResolveAssociation | lib/multi_american/post_base.rb:89-111 | the loop leaves the pool and appends to the collection exactly as `ResolveAll` of the selected keys |
| Embeds.Search | lib/multi_american/post_base.rb:119-127 | `String#match` for a literal head followed by the rest of a pattern: the capture at the leftmost match; characterised by `SearchIsLeftmost` and `SearchFindsFirstMatch` |
| Embeds.YouTubeId | lib/multi_american/post_base.rb:119 | the search for `youtube\.com\/(?:.+?\/)?(?<vid>[\w-]+)`; characterised by `YouTubeIdIsFirstMatch` |
| Embeds.VimeoVideoId | lib/multi_american/post_base.rb:123 | the search for `vimeo\.com\/video\/(?<vid>\d+)`; characterised by `VimeoVideoIdIsFirstMatch` |
| Embeds.MoogaloopId | lib/multi_american/post_base.rb:127 | the search for `vimeo\.com\/moogaloop.+?clip_id=(?<vid>\d+)`; characterised by `MoogaloopIdIsFirstMatch` |
| Embeds.Classify | lib/multi_american/post_base.rb:119-130 | YouTube with the capture of the leftmost YouTube match; else Vimeo with the capture of the leftmost `vimeo.com/video/` match; else, when neither matches, Vimeo with the capture of the leftmost moogaloop match; none iff no pattern matches; every id is `[\w-]+` |
| Embeds.IdStartIsLongestRun | lib/multi_american/post_base.rb:119 | `[\w-]+` captures exactly the longest run of id characters at the start, in both directions |
| Embeds.DigitsStartIsLongest | lib/multi_american/post_base.rb:123 | `\d+` captures exactly the longest run of digits at the start, in both directions |
| Embeds.LazyGapIsShortest | lib/multi_american/post_base.rb:119 | a lazy `.+?` ends at the first place where the rest matches, with no line feed before it; it fails iff it can end nowhere |
| Embeds.YouTubeTailIsThePattern | lib/multi_american/post_base.rb:119 | after `youtube.com/`, the optional group closes at its first `/` followed by an id when there is one, else is skipped; the capture is the id run there, in both directions |
| Embeds.MoogaloopTailIsThePattern | lib/multi_american/post_base.rb:127 | after `vimeo.com/moogaloop`, the capture is the digits after the first `clip_id=` followed by a digit, past at least one character and no line feed, in both directions |
| Embeds.SearchIsLeftmost | lib/multi_american/post_base.rb:119-127 | the search returns what the pattern captures at its leftmost match at or after the start; nothing iff it matches nowhere there |
| Embeds.SearchFindsFirstMatch | lib/multi_american/post_base.rb:119-127 | a search gives `Some(id)` iff `id` is the capture at the leftmost match of the pattern's description; none iff no match |
| Embeds.YouTubeIdIsFirstMatch | lib/multi_american/post_base.rb:119 | the YouTube search gives `id` iff `id` is the capture at the leftmost YouTube match; none iff there is no match |
| Embeds.VimeoVideoIdIsFirstMatch | lib/multi_american/post_base.rb:123 | the same for `vimeo.com/video/(\d+)` |
| Embeds.MoogaloopIdIsFirstMatch | lib/multi_american/post_base.rb:127 | the same for `vimeo.com/moogaloop.+?clip_id=(\d+)` |
| Embeds.VideoLinkBeatsMoogaloop | lib/multi_american/post_base.rb:123-127 | with no YouTube match, a `vimeo.com/video/` match decides the id even when a moogaloop link comes earlier |
| Embeds.MoogaloopClassified | lib/multi_american/post_base.rb:127 | a first moogaloop link with a gap of no line feed and no `c`, then `clip_id=<digits>`, and no YouTube or `vimeo.com/video/` link, is a Vimeo embed of those digits |
| Embeds.YouTubeIframeClassified | lib/multi_american/post_base.rb:119 | a value linking `youtube.com/embed/<id>`, with no `y` before the link, is a YouTube embed of `<id>` |
| Embeds.VimeoIframeClassified | lib/multi_american/post_base.rb:123 | a value linking `vimeo.com/video/<digits>`, with no `v` before the link and no YouTube link anywhere, is a Vimeo embed of the digits |
| Embeds.Mentions | lib/multi_american/post_base.rb:121-129 | the line test of `^http.+?<provider>.+?<id>.*$`; characterised by `MentionsIsThePattern` |
| Embeds.MentionsIsThePattern | lib/multi_american/post_base.rb:121 | the line search agrees with the pattern `^http.+?<provider>.+?<id>.*$` on a line, both directions |
| Embeds.ReplaceMentioning | lib/multi_american/post_base.rb:121 | each line that mentions the provider and id becomes the value; the others are kept |
| Embeds.Gsub | lib/multi_american/post_base.rb:121-129 | `gsub!` of that pattern by the meta value on the content; characterised by `GsubReplacesWholeLines` and `GsubWithoutMatchIsIdentity` |
| Embeds.GsubReplacesWholeLines | lib/multi_american/post_base.rb:121-129 | the rewritten body has as many lines; matching lines are the meta value, the others unchanged |
| Embeds.GsubWithoutMatchIsIdentity | lib/multi_american/post_base.rb:116-121 | with no matching line the body is unchanged |
| Embeds.IsOembed | lib/multi_american/post_base.rb:118 | the key contains `_oembed`; characterised by `OembedMetas` |
| Embeds.EmbedOne | lib/multi_american/post_base.rb:119-130 | one pass of the loop body: classify the value, then `Gsub` or nothing; characterised by `UnrecognisedMetaChangesNothing` and `YouTubeLinkBecomesIframe` |
| Embeds.ApplyEmbeds | lib/multi_american/post_base.rb:118-131 | the `each` over the metas, in order; characterised by `ApplyEmbedsAppend` and `OnlyOembedMetasCount` |
| Embeds.UnrecognisedMetaChangesNothing | lib/multi_american/post_base.rb:118-131 | a non-oembed key or an unrecognised value changes nothing |
| Embeds.ApplyEmbedsAppend | lib/multi_american/post_base.rb:118-131 | metas apply in order, each on the body the earlier ones left |
| Embeds.OembedMetas | lib/multi_american/post_base.rb:118 | a meta is selected iff it is one of the metas and its key contains `_oembed` |
| Embeds.OembedMetasAppend | lib/multi_american/post_base.rb:118 | the selection keeps the input order: it distributes over concatenation |
| Embeds.OnlyOembedMetasCount | lib/multi_american/post_base.rb:118 | applying all metas equals applying the selected `_oembed` metas |
| Embeds.YouTubeLinkBecomesIframe | lib/multi_american/post_base.rb:118-121 | a body line `http://youtube.com/watch?v=<id>` becomes the iframe recorded for `<id>` |
| Embeds.LongerIdAlsoMatches | lib/multi_american/post_base.rb:121 | a line for id `123` is matched by the captured id `12` |
| PostBase.Post.EmbedContent | lib/multi_american/post_base.rb:118-131 | selects the `_oembed` metas and hands them to `EmbedEach`; the builder's attributes become `WithEmbeds` of the old ones: content rewritten by all metas, other attributes unchanged |
| PostBase.EmbedEach | lib/multi_american/post_base.rb:118-131 | the loop leaves the builder's content rewritten by each given meta in order, other attributes unchanged |
| PostBase.SelectedEmbeds | lib/multi_american/post_base.rb:118-131 | rewriting the content with the `_oembed` metas alone equals `WithEmbeds` of all metas |
| PostBase.EmbedMeta | lib/multi_american/post_base.rb:119-130 | one meta rewrites the content as `EmbedOne` says |
| Captions.TryAttributes | lib/multi_american/post_base.rb:136 | the backtracking search for `(.+?)\](.+?)\[\/caption\]` after `[caption`, trying longer `$1` in turn; a span found fits in the line |
| Captions.TryAttributesFindsSpan | lib/multi_american/post_base.rb:136 | what the search finds is a span of the line, with the captures at their places |
| Captions.TryAttributesIsShortest | lib/multi_american/post_base.rb:136 | the search finds the shortest `$1` that has a `$2`, and for it the shortest `$2`; finding none, there is none |
| Captions.MatchInLine | lib/multi_american/post_base.rb:136 | the match of the caption pattern at the start of a line; characterised by `MatchInLineIsShortest` |
| Captions.MatchInLineIsShortest | lib/multi_american/post_base.rb:136 | the match at a line start is a span with the shortest `$1`, then the shortest `$2`; none iff no span starts there |
| Captions.Expand | lib/multi_american/post_base.rb:136-142 | `gsub!` with a block over the whole content; characterised by `ExpandByLines`, `ExpandWithoutCaption`, `ExpandPlainPrefix` and `CaptionReplaced` |
| Captions.CaptionBlock | lib/multi_american/post_base.rb:136-141 | the block: the parsed attributes and `$2` handed to the renderer; characterised by `CaptionFragment` |
| Captions.ExpandByLines | lib/multi_american/post_base.rb:136 | no span crosses a line feed: expansion works line by line |
| Captions.ExpandWithoutCaption | lib/multi_american/post_base.rb:136 | a body without `[caption` is unchanged |
| Captions.ExpandPlainPrefix | lib/multi_american/post_base.rb:136 | text before the first `[caption` is copied through |
| Captions.CaptionReplaced | lib/multi_american/post_base.rb:136-142 | a well-delimited span becomes the block's fragment, and expansion resumes after it |
| Captions.SpanTextAt | lib/multi_american/post_base.rb:136 | a span's matched text is `[caption`, `$1`, `]`, `$2`, `[/caption]` in a row at the line start |
| Captions.SpanTextIsShortest | lib/multi_american/post_base.rb:136 | a written-out span at a line start, with no `]` in its attributes and no `[` in its content, is matched with its own attributes and content |
| Captions.QuoteSplit | lib/multi_american/post_base.rb:138 | `split("\"")`, with the trailing empty pieces dropped; characterised by `DropTrailingEmpty` and `SplitRendered` |
| Captions.SplitRendered | lib/multi_american/post_base.rb:138 | splitting rendered ` name="value"` groups at `"` gives the name pieces and values in turn, then one empty piece |
| Captions.Key | lib/multi_american/post_base.rb:138 | `pair[0].lstrip.chomp("=")`; characterised by `KeyOfRendered` |
| Captions.KeyOfRendered | lib/multi_american/post_base.rb:138 | the key of a piece ` name=` is `name` |
| Captions.Pair | lib/multi_american/post_base.rb:138 | `each_slice(2)` into the properties hash, a later key winning and a lone last piece mapping to nil; characterised by `PairPieces`, `LastGroupWins` and `UnpairedKeyIsNil` |
| Captions.PairPieces | lib/multi_american/post_base.rb:138 | pairing the pieces of rendered groups binds each name to the value of its last group |
| Captions.ParseAttributes | lib/multi_american/post_base.rb:138 | `QuoteSplit` then `Pair`; characterised by `ParseRendered` |
| Captions.ParseRendered | lib/multi_american/post_base.rb:138 | the tokenizer recovers every ` name="value"` group, a repeated name keeping the later value |
| Captions.CaptionFragment | lib/multi_american/post_base.rb:136-141 | the renderer receives exactly the bindings of the groups and the content |
| Captions.LastGroupWins | lib/multi_american/post_base.rb:138 | a name is bound to the value of its last group |
| Captions.UnboundName | lib/multi_american/post_base.rb:138 | a name no group carries is unbound |
| Captions.UnpairedKeyIsNil | lib/multi_american/post_base.rb:138 | a trailing unpaired piece maps its key to nil |
| Captions.EmptyLastValueIsNil | lib/multi_american/post_base.rb:138 | ` id=""` maps `id` to nil, since Ruby's `split` drops trailing empty pieces |
| Captions.DropTrailingEmpty | lib/multi_american/post_base.rb:138 | `split` keeps a prefix of the pieces, drops only empty ones, and ends in a non-empty one |
| Text.LStrip | lib/multi_american/post_base.rb:138 | `lstrip` removes a prefix made only of white space and NUL, leaving no leading white space or NUL |
| Text.Chomp | lib/multi_american/post_base.rb:138 | when the text ends with the suffix, the result followed by the suffix is the text; otherwise the text is unchanged |
| Text.JoinSplit | lib/multi_american/post_base.rb:121 | joining the lines of a text gives the text back |
| Text.SplitJoin | lib/multi_american/post_base.rb:121 | splitting a join of line-feed-free lines gives the lines back |
| PostBase.AuthorFor | lib/multi_american/post_base.rb:78-80 | no admin user keeps the default; a user with a bio gives the bio id; a user without one fails |
| PostBase.WithAuthor | lib/multi_american/post_base.rb:78-80 | only `author_id` is changed, and only for a user with a bio |
| PostBase.WithEmbeds | lib/multi_american/post_base.rb:118-131 | only `content` is changed, and it stays a string |
| PostBase.DsqThreadId | lib/multi_american/post_base.rb:147 | none iff no `dsq_thread_id` meta; else the value of the first one |
| PostBase.DsqFirstWins | lib/multi_american/post_base.rb:147-149 | a later `dsq_thread_id` never overrides the first |
| PostBase.WithDsq | lib/multi_american/post_base.rb:147-149 | the first thread id if any, else the old value |
| PostBase.SelectedKeys | lib/multi_american/post_base.rb:84-87 | the reference keys of the selection, one per selected reference |
| PostBase.Associate | lib/multi_american/post_base.rb:84-112 | the associations change only the collections and the pools |
| PostBase.Finish | lib/multi_american/post_base.rb:114-151 | embeds on the builder's content, captions on the post's content, then the thread id; characterised by `BuiltState` |
| PostBase.Build | lib/multi_american/post_base.rb:75-152 | `build_extra_attributes` on values; characterised by `MissingBioChangesNothing`, `BuiltState`, `BuiltRecordsFollowReferences`, `DanglingTagStops`, `DanglingCategoryStops` and `BuildKeepsPoolsValid` |
| PostBase.MissingBioChangesNothing | lib/multi_american/post_base.rb:78-80 | the build fails before any change iff the user has no bio |
| PostBase.BuiltState | lib/multi_american/post_base.rb:75-151 | on success: one record per selected reference after the old ones; content rewritten by embeds; `author_id` overridden only for a bio; other attributes kept and no other key added; captions expanded; first thread id copied |
| PostBase.BuiltRecordsFollowReferences | lib/multi_american/post_base.rb:89-111 | the i-th pushed tag (category) is the record the pool holds for the i-th selected reference |
| PostBase.DanglingTagStops | lib/multi_american/post_base.rb:98-107 | a dangling tag matches no pooled object and stops the build there; the earlier tags are pushed after the old ones; the author override is kept; categories, content, thread id untouched |
| PostBase.DanglingCategoryStops | lib/multi_american/post_base.rb:98-107 | a dangling category matches no pooled object and stops the build there; every tag and the earlier categories are pushed after the old ones; the author override is kept; content and thread id untouched |
| PostBase.BuildKeepsPoolsValid | lib/multi_american/post_base.rb:98-107 | a build keeps both pools valid |
| PostBase.Post.MergeAssociations | lib/multi_american/post_base.rb:84-112 | the two association loops leave the state `Associate` gives |
| PostBase.Post.FinishAttributes | lib/multi_american/post_base.rb:114-151 | embeds, captions and thread id leave the state `Finish` gives |
| PostBase.Post.BuildExtraAttributes | lib/multi_american/post_base.rb:75-152 | the new state of record, builder, content and pools is `Build` of the old; the same `object` and `object_builder` come back |

## Left out

- PostBase.Post.BuildExtraAttributes: the post's content and the builder's `content` are taken to be strings, which `Node` fills; a nil content would raise at lines 121-129 or 136, and the model has no such input.
- Admin registration and list columns (lines 24-32) are user-interface scaffolding.
- `sorter` (lines 68-70) is date parsing by a library call.
- `nested_attributes` and `initialize` (lines 54-66) only set up containers for the parent class `Node`, which is not part of this model.
- Everything inherited from `Node`: `super` in `invalid_child` (a parameter), how fields are filled from the XML, `find`, `raw_real_map`, `ar_record` and `import`. Each pool is given as a sequence of (key, record) objects. `import` creates a record with the pool's next id and attaches it to the object.
- `AdminUser.where` and `Bio.where` are given as a `Directory` of two maps. Usernames are taken as unique.
- The view rendering (lines 140-141) is a `Renderer` parameter. The `gsub!` block is a `Block` parameter, so expansion does not depend on what is rendered.
- Embeds.Gsub: does not model backslash sequences such as `\1` in the meta value, which Ruby's `gsub!` interprets in a replacement string. The value is inserted literally.
- Regular expressions are modelled as searches written out for the five patterns used, not by a regex engine: the three embed patterns (lines 119, 123, 127), the line pattern of the rewrite (lines 121-129) and the caption pattern (line 136). Each search is proved against a separate description of what its pattern captures at its leftmost match.
- Text.Chomp: an empty suffix is not modelled (Ruby's `chomp("")` strips trailing line ends); the importer only chomps `"="`.
- RubyInteger.ToI: does not model the `0d` prefix that Ruby's base-10 `to_i` skips. Ruby reads `"0d12"` as 12; the model reads it as 0.
- Ruby hashes keep insertion order; the attribute maps here do not.
- Whether `self.content` and `object_builder[:content]` are one string depends on `Node`. They are modelled as two strings, so the embed rewrite does not reach the caption pass.
- `nil` meta values and `nil` category fields other than the key are not modelled. The key itself may be `nil`, and then `nil` equals `nil`.
- Associations.SelectPartition: states that the two selections are disjoint and together at most all references. It does not count the ignored ones.
- The loop over the two associations (line 89) is written as two calls in order.
