/**
 * Embed normalisation in `build_extra_attributes`: each `_oembed` postmeta is
 * classified by the first of three URL shapes its value matches, and every
 * body line that is a bare link to the same provider and video id is
 * replaced, whole, by the meta value.
 *
 * The regular expressions are written out as the searches they perform. The
 * rewriting pattern `^http.+?<provider>.+?<id>.*$` is anchored at line starts
 * and ends and `.` does not cross a line feed, so `gsub!` with it acts on each
 * line on its own; it is modelled on the lines of the body.
 */
module Embeds {
  import opened Wrappers
  import opened Text

  /** A `wp:postmeta` entry: its `meta_key` and `meta_value`. */
  datatype Meta = Meta(key: string, value: string)

  datatype Provider = YouTube | Vimeo

  /** The provider name the rewriting pattern looks for in a body line. */
  function ProviderName(p: Provider): string {
    match p
    case YouTube => "youtube"
    case Vimeo => "vimeo"
  }

  /** A recognised embed: the provider and the captured `vid`. */
  datatype Embed = Embed(provider: Provider, id: string)

  /** `[\w-]` */
  predicate IsIdChar(c: char) { IsWordChar(c) || c == '-' }

  predicate IsIdText(id: string) {
    |id| > 0 && forall i :: 0 <= i < |id| ==> IsIdChar(id[i])
  }

  predicate IsDigitText(id: string) {
    |id| > 0 && forall i :: 0 <= i < |id| ==> IsDigit(id[i])
  }

  /** The longest run of `[\w-]` at the start of `s` (a greedy `[\w-]+`). */
  function IdRun(s: string): (id: string)
    ensures StartsWith(s, id) && forall i :: 0 <= i < |id| ==> IsIdChar(id[i])
    ensures |s| > 0 && IsIdChar(s[0]) ==> |id| > 0
    ensures |id| < |s| ==> !IsIdChar(s[|id|])
  {
    if |s| > 0 && IsIdChar(s[0]) then [s[0]] + IdRun(s[1..]) else ""
  }

  /** The longest run of digits at the start of `s` (a greedy `\d+`). */
  function DigitPrefix(s: string): (id: string)
    ensures StartsWith(s, id) && forall i :: 0 <= i < |id| ==> IsDigit(id[i])
    ensures |s| > 0 && IsDigit(s[0]) ==> |id| > 0
    ensures |id| < |s| ==> !IsDigit(s[|id|])
  {
    if |s| > 0 && IsDigit(s[0]) then [s[0]] + DigitPrefix(s[1..]) else ""
  }

  const YouTubeHost := "youtube.com/"
  const VimeoVideo := "vimeo.com/video/"
  const Moogaloop := "vimeo.com/moogaloop"
  const ClipId := "clip_id="

  /** `id` is what a greedy `[\w-]+` captures at the start of `s`. */
  ghost predicate LongestIdRun(s: string, id: string) {
    IsIdText(id) && StartsWith(s, id) && (|id| == |s| || !IsIdChar(s[|id|]))
  }

  /** `id` is what a greedy `\d+` captures at the start of `s`. */
  ghost predicate LongestDigits(s: string, id: string) {
    IsDigitText(id) && StartsWith(s, id) && (|id| == |s| || !IsDigit(s[|id|]))
  }

  /** What the rest of a pattern captures from the start of a text, if it matches there. */
  type Matcher = string -> Option<string>

  /** `[\w-]+` */
  function IdStart(s: string): Option<string> {
    if |s| > 0 && IsIdChar(s[0]) then Some(IdRun(s)) else None
  }

  /** `\d+` */
  function DigitsStart(s: string): Option<string> {
    if |s| > 0 && IsDigit(s[0]) then Some(DigitPrefix(s)) else None
  }

  /** `\/(?<vid>[\w-]+)` */
  function SlashId(s: string): Option<string> {
    if |s| > 0 && s[0] == '/' then IdStart(s[1..]) else None
  }

  /** `clip_id=(?<vid>\d+)` */
  function ClipDigits(s: string): Option<string> {
    if StartsWith(s, ClipId) then DigitsStart(s[|ClipId|..]) else None
  }

  /**
   * `.+?` followed by `rest`: the shortest gap of `k` or more characters,
   * none of them a line feed, after which `rest` matches.
   */
  function LazyGap(r: string, rest: Matcher, k: nat): Option<string>
    requires k >= 1
    decreases |r| - k
  {
    if k >= |r| || r[k - 1] == '\n' then None
    else if rest(r[k..]).Some? then rest(r[k..])
    else LazyGap(r, rest, k + 1)
  }

  /** `(?:.+?\/)?(?<vid>[\w-]+)`: the optional group is tried first, and left out only when it cannot match. */
  function YouTubeTail(r: string): Option<string> {
    match LazyGap(r, SlashId, 1)
    case Some(id) => Some(id)
    case None => IdStart(r)
  }

  /** `.+?clip_id=(?<vid>\d+)` */
  function MoogaloopTail(r: string): Option<string> {
    LazyGap(r, ClipDigits, 1)
  }

  /** The pattern made of the literal `head` and then `tail` matches at `p`. */
  predicate MatchesAt(value: string, head: string, tail: Matcher, p: nat) {
    OccursAt(value, head, p) && tail(value[p + |head|..]).Some?
  }

  /** What the pattern `head` + `tail` captures at its leftmost match at or after `from`. */
  function Search(value: string, head: string, tail: Matcher, from: nat): Option<string>
    decreases |value| - from
  {
    if from + |head| > |value| then None
    else if MatchesAt(value, head, tail, from) then tail(value[from + |head|..])
    else Search(value, head, tail, from + 1)
  }

  /** `value.match(/youtube\.com\/(?:.+?\/)?(?<vid>[\w-]+)/)` */
  function YouTubeId(value: string): Option<string> {
    Search(value, YouTubeHost, YouTubeTail, 0)
  }

  /** `value.match(/vimeo\.com\/video\/(?<vid>\d+)/)` */
  function VimeoVideoId(value: string): Option<string> {
    Search(value, VimeoVideo, DigitsStart, 0)
  }

  /** `value.match(/vimeo\.com\/moogaloop.+?clip_id=(?<vid>\d+)/)` */
  function MoogaloopId(value: string): Option<string> {
    Search(value, Moogaloop, MoogaloopTail, 0)
  }

  /*
   * The three patterns stated as what they match, apart from the searches
   * above: what each accepts after its literal head and what it captures,
   * then the leftmost position where it matches.
   */

  /** `(?:.+?\/)` can close after `k` characters, none a line feed, with an id character after the `/`. */
  ghost predicate GroupClosesAt(r: string, k: nat) {
    1 <= k && k + 1 < |r| && r[k] == '/' && IsIdChar(r[k + 1]) && forall j :: 0 <= j < k ==> r[j] != '\n'
  }

  /**
   * `(?:.+?\/)?(?<vid>[\w-]+)` captures `id` at the start of `r`: the group
   * closes as early as it can, and is left out only when it cannot close.
   */
  ghost predicate YouTubeCaptures(r: string, id: string) {
    if exists k: nat :: GroupClosesAt(r, k) then
      exists k: nat :: GroupClosesAt(r, k) && (forall j: nat :: 1 <= j < k ==> !GroupClosesAt(r, j)) && LongestIdRun(r[k + 1..], id)
    else LongestIdRun(r, id)
  }

  /** `.+?clip_id=\d` can close after `k` characters, none a line feed. */
  ghost predicate ClipAt(r: string, k: nat) {
    1 <= k && k + |ClipId| < |r| && OccursAt(r, ClipId, k) && IsDigit(r[k + |ClipId|]) &&
    forall j :: 0 <= j < k ==> r[j] != '\n'
  }

  /** `.+?clip_id=(?<vid>\d+)` captures `id` at the start of `r`: the digits after the first `clip_id=` that has any. */
  ghost predicate MoogaloopCaptures(r: string, id: string) {
    exists k: nat :: ClipAt(r, k) && (forall j: nat :: 1 <= j < k ==> !ClipAt(r, j)) && LongestDigits(r[k + |ClipId|..], id)
  }

  /** The pattern `head` + `captures` matches at `p`, capturing `id`. */
  ghost predicate MatchOf(value: string, head: string, captures: (string, string) -> bool, p: nat, id: string) {
    OccursAt(value, head, p) && captures(value[p + |head|..], id)
  }

  /** `id` is what the pattern captures at the leftmost position where it matches. */
  ghost predicate FirstMatchOf(value: string, head: string, captures: (string, string) -> bool, id: string) {
    exists p: nat :: MatchOf(value, head, captures, p, id) &&
      forall q: nat, other :: 0 <= q < p ==> !MatchOf(value, head, captures, q, other)
  }

  ghost predicate NoMatchOf(value: string, head: string, captures: (string, string) -> bool) {
    forall p: nat, id :: !MatchOf(value, head, captures, p, id)
  }

  /**
   * The `if`/`elsif` chain of lines 119-130: the first pattern that matches
   * anywhere decides the provider, and the id is what that pattern captures
   * at its leftmost match. Every captured id is a non-empty run of `[\w-]`,
   * so interpolating it into the rewriting pattern matches it literally.
   */
  function Classify(value: string): (e: Option<Embed>)
    ensures e.Some? ==> IsIdText(e.value.id)
    ensures match e
      case Some(Embed(YouTube, id)) => FirstMatchOf(value, YouTubeHost, YouTubeCaptures, id)
      case Some(Embed(Vimeo, id)) =>
        NoMatchOf(value, YouTubeHost, YouTubeCaptures) &&
        (FirstMatchOf(value, VimeoVideo, LongestDigits, id) ||
         (NoMatchOf(value, VimeoVideo, LongestDigits) && FirstMatchOf(value, Moogaloop, MoogaloopCaptures, id)))
      case None =>
        NoMatchOf(value, YouTubeHost, YouTubeCaptures) && NoMatchOf(value, VimeoVideo, LongestDigits) &&
        NoMatchOf(value, Moogaloop, MoogaloopCaptures)
  {
    YouTubeIdIsFirstMatch(value);
    match YouTubeId(value)
    case Some(id) => Some(Embed(YouTube, id))
    case None =>
      VimeoVideoIdIsFirstMatch(value);
      match VimeoVideoId(value)
      case Some(id) => Some(Embed(Vimeo, id))
      case None =>
        MoogaloopIdIsFirstMatch(value);
        match MoogaloopId(value)
        case Some(id) => Some(Embed(Vimeo, id))
        case None => None
  }

  /**
   * `^http.+?<provider>.+?<id>.*$` matches `line` (which holds no line feed):
   * it starts with `http`, the provider name follows after at least one more
   * character, and the id follows after at least one more.
   */
  ghost predicate MentionsPattern(line: string, provider: string, id: string) {
    StartsWith(line, "http") &&
    exists a: nat, b: nat :: 5 <= a && a + |provider| < b && OccursAt(line, provider, a) && OccursAt(line, id, b)
  }

  /** The same test by search: the first provider occurrence gives the id the most room. */
  predicate Mentions(line: string, provider: string, id: string) {
    StartsWith(line, "http") &&
    match IndexOf(line, provider, 5)
    case None => false
    case Some(a) => IndexOf(line, id, a + |provider| + 1).Some?
  }

  lemma MentionsIsThePattern(line: string, provider: string, id: string)
    ensures Mentions(line, provider, id) <==> MentionsPattern(line, provider, id)
  {
    if MentionsPattern(line, provider, id) {
      var a: nat, b: nat :| 5 <= a && a + |provider| < b && OccursAt(line, provider, a) && OccursAt(line, id, b);
      var first := IndexOf(line, provider, 5);
      assert first.Some? && first.value <= a;
      assert IndexOf(line, id, first.value + |provider| + 1).Some?;
    }
    if Mentions(line, provider, id) {
      var a := IndexOf(line, provider, 5).value;
      var b := IndexOf(line, id, a + |provider| + 1).value;
      assert 5 <= a && a + |provider| < b && OccursAt(line, provider, a) && OccursAt(line, id, b);
    }
  }

  /** Each line that mentions the provider and id replaced by `value`, the others kept. */
  function ReplaceMentioning(lines: seq<string>, provider: string, id: string, value: string): (r: seq<string>)
    ensures |r| == |lines|
    ensures forall i :: 0 <= i < |lines| ==> r[i] == if Mentions(lines[i], provider, id) then value else lines[i]
  {
    if |lines| == 0 then []
    else
      var last := lines[|lines| - 1];
      ReplaceMentioning(lines[..|lines| - 1], provider, id, value) + [if Mentions(last, provider, id) then value else last]
  }

  /** `content.gsub!(/^http.+?<provider>.+?<id>.*$/, value)` */
  function Gsub(content: string, embed: Embed, value: string): string {
    Unlines(ReplaceMentioning(Lines(content), ProviderName(embed.provider), embed.id, value))
  }

  /**
   * Read back line by line, the rewritten body has the same number of lines;
   * each line that links to the provider and id is now the embed value, every
   * other line is unchanged.
   */
  lemma {:induction false} GsubReplacesWholeLines(content: string, embed: Embed, value: string)
    requires '\n' !in value
    ensures var before, after := Lines(content), Lines(Gsub(content, embed, value));
      |after| == |before| &&
      forall i :: 0 <= i < |before| ==>
        after[i] == if MentionsPattern(before[i], ProviderName(embed.provider), embed.id) then value else before[i]
  {
    var before := Lines(content);
    var replaced := ReplaceMentioning(before, ProviderName(embed.provider), embed.id, value);
    SplitJoin(replaced, '\n');
    forall i | 0 <= i < |before| {
      MentionsIsThePattern(before[i], ProviderName(embed.provider), embed.id);
    }
  }

  /** A body without a matching line comes back unchanged (`gsub!` returns nil and changes nothing). */
  lemma {:induction false} GsubWithoutMatchIsIdentity(content: string, embed: Embed, value: string)
    requires forall i :: 0 <= i < |Lines(content)| ==> !MentionsPattern(Lines(content)[i], ProviderName(embed.provider), embed.id)
    ensures Gsub(content, embed, value) == content
  {
    var before := Lines(content);
    var replaced := ReplaceMentioning(before, ProviderName(embed.provider), embed.id, value);
    forall i | 0 <= i < |before| ensures replaced[i] == before[i] {
      MentionsIsThePattern(before[i], ProviderName(embed.provider), embed.id);
    }
    assert replaced == before;
    JoinSplit(content, '\n');
  }

  /** `pm[:meta_key] =~ /_oembed/` */
  predicate IsOembed(meta: Meta) {
    IndexOf(meta.key, "_oembed", 0).Some?
  }

  /** One pass of the loop body of lines 118-131. */
  function EmbedOne(meta: Meta, content: string): string {
    if !IsOembed(meta) then content
    else match Classify(meta.value)
      case None => content
      case Some(embed) => Gsub(content, embed, meta.value)
  }

  /** The whole loop of lines 118-131: the `_oembed` metas in order, each on the body the previous left. */
  function ApplyEmbeds(metas: seq<Meta>, content: string): string {
    if |metas| == 0 then content
    else EmbedOne(metas[|metas| - 1], ApplyEmbeds(metas[..|metas| - 1], content))
  }

  lemma ApplyEmbedsPrefix(metas: seq<Meta>, i: nat, content: string)
    requires i < |metas|
    ensures ApplyEmbeds(metas[..i + 1], content) == EmbedOne(metas[i], ApplyEmbeds(metas[..i], content))
  {
    assert metas[..i + 1][..i] == metas[..i];
  }

  /** A meta whose key is not an oembed key, or whose value has no known shape, changes nothing. */
  lemma UnrecognisedMetaChangesNothing(meta: Meta, content: string)
    requires !IsOembed(meta) || Classify(meta.value).None?
    ensures EmbedOne(meta, content) == content
  {
  }

  /** Metas apply in order: the later ones act on the body the earlier ones produced. */
  lemma {:induction false} ApplyEmbedsAppend(first: seq<Meta>, rest: seq<Meta>, content: string)
    ensures ApplyEmbeds(first + rest, content) == ApplyEmbeds(rest, ApplyEmbeds(first, content))
  {
    if |rest| == 0 {
      assert first + rest == first;
    } else {
      ApplyEmbedsAppend(first, rest[..|rest| - 1], content);
      assert (first + rest)[..|first + rest| - 1] == first + rest[..|rest| - 1];
    }
  }

  /** `postmeta.select { |pm| pm[:meta_key] =~ /_oembed/ }` */
  function OembedMetas(metas: seq<Meta>): (r: seq<Meta>)
    ensures forall m :: m in r <==> m in metas && IsOembed(m)
    ensures |r| <= |metas|
  {
    if |metas| == 0 then []
    else OembedMetas(metas[..|metas| - 1]) + (if IsOembed(metas[|metas| - 1]) then [metas[|metas| - 1]] else [])
  }

  /** The selection keeps the input order: selecting from a concatenation concatenates the selections. */
  lemma {:induction false} OembedMetasAppend(first: seq<Meta>, rest: seq<Meta>)
    ensures OembedMetas(first + rest) == OembedMetas(first) + OembedMetas(rest)
  {
    if |rest| == 0 {
      assert first + rest == first;
    } else {
      var init, last := rest[..|rest| - 1], rest[|rest| - 1];
      var kept := if IsOembed(last) then [last] else [];
      assert rest == init + [last];
      assert first + rest == (first + init) + [last];
      calc {
        OembedMetas(first + rest);
        { OembedMetasSnoc(first + init, last); }
        OembedMetas(first + init) + kept;
        { OembedMetasAppend(first, init); }
        (OembedMetas(first) + OembedMetas(init)) + kept;
        OembedMetas(first) + (OembedMetas(init) + kept);
        { OembedMetasSnoc(init, last); }
        OembedMetas(first) + OembedMetas(rest);
      }
    }
  }

  lemma OembedMetasSnoc(metas: seq<Meta>, m: Meta)
    ensures OembedMetas(metas + [m]) == OembedMetas(metas) + (if IsOembed(m) then [m] else [])
  {
    assert (metas + [m])[..|metas|] == metas;
  }

  /** Only the metas whose key contains `_oembed` take part. */
  lemma {:induction false} OnlyOembedMetasCount(metas: seq<Meta>, content: string)
    ensures ApplyEmbeds(metas, content) == ApplyEmbeds(OembedMetas(metas), content)
  {
    if |metas| > 0 {
      var init, last := metas[..|metas| - 1], metas[|metas| - 1];
      OnlyOembedMetasCount(init, content);
      if IsOembed(last) {
        ApplyEmbedsAppend(OembedMetas(init), [last], content);
      } else {
        assert OembedMetas(metas) == OembedMetas(init);
      }
    }
  }

  lemma {:induction false} IdRunStops(id: string, suffix: string)
    requires forall i :: 0 <= i < |id| ==> IsIdChar(id[i])
    requires |suffix| == 0 || !IsIdChar(suffix[0])
    ensures IdRun(id + suffix) == id
  {
    if |id| > 0 {
      assert (id + suffix)[1..] == id[1..] + suffix;
      IdRunStops(id[1..], suffix);
    } else {
      assert id + suffix == suffix;
    }
  }

  lemma {:induction false} DigitPrefixStops(id: string, suffix: string)
    requires forall i :: 0 <= i < |id| ==> IsDigit(id[i])
    requires |suffix| == 0 || !IsDigit(suffix[0])
    ensures DigitPrefix(id + suffix) == id
  {
    if |id| > 0 {
      assert (id + suffix)[1..] == id[1..] + suffix;
      DigitPrefixStops(id[1..], suffix);
    } else {
      assert id + suffix == suffix;
    }
  }

  lemma IdStartIsLongestRun(s: string, id: string)
    ensures IdStart(s) == Some(id) <==> LongestIdRun(s, id)
  {
    if LongestIdRun(s, id) {
      assert s == id + s[|id|..];
      IdRunStops(id, s[|id|..]);
    }
  }

  lemma DigitsStartIsLongest(s: string, id: string)
    ensures DigitsStart(s) == Some(id) <==> LongestDigits(s, id)
  {
    if LongestDigits(s, id) {
      assert s == id + s[|id|..];
      DigitPrefixStops(id, s[|id|..]);
    }
  }

  /** The gap can end after `k` characters, none a line feed, with `rest` matching there. */
  ghost predicate GapEndsAt(r: string, rest: Matcher, k: nat) {
    1 <= k < |r| && rest(r[k..]).Some? && forall j :: 0 <= j < k ==> r[j] != '\n'
  }

  /** `LazyGap` ends the gap at the first place it can end, and fails only when it can end nowhere. */
  lemma {:induction false} LazyGapIsShortest(r: string, rest: Matcher, k: nat)
    requires 1 <= k && forall j :: 0 <= j < k - 1 && j < |r| ==> r[j] != '\n'
    ensures LazyGap(r, rest, k).None? <==> forall m: nat :: k <= m ==> !GapEndsAt(r, rest, m)
    ensures LazyGap(r, rest, k).Some? ==>
      exists m: nat :: k <= m && GapEndsAt(r, rest, m) && LazyGap(r, rest, k) == rest(r[m..]) &&
        forall j: nat :: k <= j < m ==> !GapEndsAt(r, rest, j)
    decreases |r| - k
  {
    if k >= |r| || r[k - 1] == '\n' {
    } else if rest(r[k..]).Some? {
      assert GapEndsAt(r, rest, k);
    } else {
      LazyGapIsShortest(r, rest, k + 1);
    }
  }

  lemma {:induction false} LazyGapSkips(r: string, rest: Matcher, k: nat, until: nat)
    requires 1 <= k <= until < |r|
    requires forall j :: k - 1 <= j < until - 1 ==> r[j] != '\n'
    requires forall j: nat :: k <= j < until ==> rest(r[j..]).None?
    ensures LazyGap(r, rest, k) == LazyGap(r, rest, until)
    decreases until - k
  {
    if k < until {
      assert r[k - 1] != '\n' && rest(r[k..]).None?;
      LazyGapSkips(r, rest, k + 1, until);
    }
  }

  lemma SlashIdAt(r: string, k: nat)
    requires k < |r|
    ensures SlashId(r[k..]) == if r[k] == '/' then IdStart(r[k + 1..]) else None
  {
    assert r[k..][1..] == r[k + 1..];
  }

  lemma ClipDigitsAt(r: string, k: nat)
    requires k < |r|
    ensures ClipDigits(r[k..]) == if OccursAt(r, ClipId, k) then DigitsStart(r[k + |ClipId|..]) else None
  {
    if k + |ClipId| <= |r| {
      assert r[k..][..|ClipId|] == r[k..k + |ClipId|];
      assert r[k..][|ClipId|..] == r[k + |ClipId|..];
    }
  }

  lemma GroupClosesWhereGapEnds(r: string)
    ensures forall k: nat :: GapEndsAt(r, SlashId, k) <==> GroupClosesAt(r, k)
  {
    forall k: nat ensures GapEndsAt(r, SlashId, k) <==> GroupClosesAt(r, k) {
      if k < |r| {
        SlashIdAt(r, k);
      }
    }
  }

  lemma ClipAtWhereGapEnds(r: string)
    ensures forall k: nat :: GapEndsAt(r, ClipDigits, k) <==> ClipAt(r, k)
  {
    forall k: nat ensures GapEndsAt(r, ClipDigits, k) <==> ClipAt(r, k) {
      if k < |r| {
        ClipDigitsAt(r, k);
      }
    }
  }

  lemma YouTubeTailIsThePattern(r: string, id: string)
    ensures YouTubeTail(r) == Some(id) <==> YouTubeCaptures(r, id)
  {
    GroupClosesWhereGapEnds(r);
    LazyGapIsShortest(r, SlashId, 1);
    if LazyGap(r, SlashId, 1).Some? {
      var m: nat :| 1 <= m && GapEndsAt(r, SlashId, m) && LazyGap(r, SlashId, 1) == SlashId(r[m..]) &&
        forall j: nat :: 1 <= j < m ==> !GapEndsAt(r, SlashId, j);
      SlashIdAt(r, m);
      IdStartIsLongestRun(r[m + 1..], id);
    } else {
      IdStartIsLongestRun(r, id);
    }
  }

  lemma MoogaloopTailIsThePattern(r: string, id: string)
    ensures MoogaloopTail(r) == Some(id) <==> MoogaloopCaptures(r, id)
  {
    ClipAtWhereGapEnds(r);
    LazyGapIsShortest(r, ClipDigits, 1);
    if MoogaloopTail(r).Some? {
      var m: nat :| 1 <= m && GapEndsAt(r, ClipDigits, m) && MoogaloopTail(r) == ClipDigits(r[m..]) &&
        forall j: nat :: 1 <= j < m ==> !GapEndsAt(r, ClipDigits, j);
      ClipDigitsAt(r, m);
      DigitsStartIsLongest(r[m + |ClipId|..], id);
      FirstClipCaptures(r, m, id);
    }
  }

  lemma FirstClipCaptures(r: string, m: nat, id: string)
    requires ClipAt(r, m) && forall j: nat :: 1 <= j < m ==> !ClipAt(r, j)
    ensures MoogaloopCaptures(r, id) <==> LongestDigits(r[m + |ClipId|..], id)
  {
    if MoogaloopCaptures(r, id) {
      var k: nat :| ClipAt(r, k) && (forall j: nat :: 1 <= j < k ==> !ClipAt(r, j)) && LongestDigits(r[k + |ClipId|..], id);
      assert k == m;
    }
  }

  /** `Search` passes every position where the pattern does not match. */
  lemma {:induction false} SearchSkips(value: string, head: string, tail: Matcher, from: nat, until: nat)
    requires from <= until
    requires forall j: nat :: from <= j < until ==> !MatchesAt(value, head, tail, j)
    ensures Search(value, head, tail, from) == Search(value, head, tail, until)
    decreases until - from
  {
    if from < until && from + |head| <= |value| {
      SearchSkips(value, head, tail, from + 1, until);
    }
  }

  /** `Search` stops at the leftmost match, and finds nothing only when nothing matches. */
  lemma {:induction false} SearchIsLeftmost(value: string, head: string, tail: Matcher, from: nat)
    ensures Search(value, head, tail, from).None? <==> forall p: nat :: from <= p ==> !MatchesAt(value, head, tail, p)
    ensures Search(value, head, tail, from).Some? ==>
      exists p: nat :: from <= p && MatchesAt(value, head, tail, p) && Search(value, head, tail, from) == tail(value[p + |head|..]) &&
        forall q: nat :: from <= q < p ==> !MatchesAt(value, head, tail, q)
    decreases |value| - from
  {
    if from + |head| > |value| {
      forall p: nat | from <= p ensures !MatchesAt(value, head, tail, p) { }
    } else if MatchesAt(value, head, tail, from) {
      assert Search(value, head, tail, from) == tail(value[from + |head|..]);
    } else {
      SearchIsLeftmost(value, head, tail, from + 1);
      assert Search(value, head, tail, from) == Search(value, head, tail, from + 1);
      if Search(value, head, tail, from + 1).Some? {
        var p: nat :| from + 1 <= p && MatchesAt(value, head, tail, p) &&
          Search(value, head, tail, from + 1) == tail(value[p + |head|..]) &&
          forall q: nat :: from + 1 <= q < p ==> !MatchesAt(value, head, tail, q);
        assert forall q: nat :: from <= q < p ==> !MatchesAt(value, head, tail, q);
      }
    }
  }

  /**
   * When `tail` computes exactly what `captures` describes, `Search` returns
   * the capture of the leftmost match, and nothing when the pattern matches
   * nowhere.
   */
  lemma SearchFindsFirstMatch(value: string, head: string, tail: Matcher, captures: (string, string) -> bool)
    requires forall r, id :: tail(r) == Some(id) <==> captures(r, id)
    ensures Search(value, head, tail, 0).None? <==> NoMatchOf(value, head, captures)
    ensures forall id :: Search(value, head, tail, 0) == Some(id) <==> FirstMatchOf(value, head, captures, id)
  {
    SearchIsLeftmost(value, head, tail, 0);
    forall p: nat, id | MatchOf(value, head, captures, p, id) ensures MatchesAt(value, head, tail, p) {
    }
    if Search(value, head, tail, 0).Some? {
      var p: nat :| MatchesAt(value, head, tail, p) && Search(value, head, tail, 0) == tail(value[p + |head|..]) &&
        forall q: nat :: 0 <= q < p ==> !MatchesAt(value, head, tail, q);
      LeftmostIsFirstMatch(value, head, tail, captures, p);
    }
  }

  /** A position where `captures` holds is one where `tail` succeeds. */
  lemma MatchOfMatches(value: string, head: string, tail: Matcher, captures: (string, string) -> bool, q: nat, id: string)
    requires forall r, id :: tail(r) == Some(id) <==> captures(r, id)
    requires MatchOf(value, head, captures, q, id)
    ensures MatchesAt(value, head, tail, q) && tail(value[q + |head|..]) == Some(id)
  {
    assert captures(value[q + |head|..], id);
  }

  lemma LeftmostIsFirstMatch(value: string, head: string, tail: Matcher, captures: (string, string) -> bool, p: nat)
    requires forall r, id :: tail(r) == Some(id) <==> captures(r, id)
    requires MatchesAt(value, head, tail, p) && forall q: nat :: 0 <= q < p ==> !MatchesAt(value, head, tail, q)
    ensures forall id :: tail(value[p + |head|..]) == Some(id) <==> FirstMatchOf(value, head, captures, id)
  {
    var found := tail(value[p + |head|..]).value;
    assert captures(value[p + |head|..], found);
    assert MatchOf(value, head, captures, p, found);
    forall q: nat, other | q < p ensures !MatchOf(value, head, captures, q, other) {
      if MatchOf(value, head, captures, q, other) {
        MatchOfMatches(value, head, tail, captures, q, other);
      }
    }
    assert FirstMatchOf(value, head, captures, found);
    forall id | FirstMatchOf(value, head, captures, id) ensures id == found {
      var p': nat :| MatchOf(value, head, captures, p', id) &&
        forall q: nat, other :: 0 <= q < p' ==> !MatchOf(value, head, captures, q, other);
      MatchOfMatches(value, head, tail, captures, p', id);
      assert p <= p';
      assert p' <= p;
      assert tail(value[p + |head|..]) == Some(id);
    }
  }

  lemma YouTubeIdIsFirstMatch(value: string)
    ensures YouTubeId(value).None? <==> NoMatchOf(value, YouTubeHost, YouTubeCaptures)
    ensures forall id :: YouTubeId(value) == Some(id) <==> FirstMatchOf(value, YouTubeHost, YouTubeCaptures, id)
    ensures YouTubeId(value).Some? ==> IsIdText(YouTubeId(value).value)
  {
    forall r, id ensures YouTubeTail(r) == Some(id) <==> YouTubeCaptures(r, id) {
      YouTubeTailIsThePattern(r, id);
    }
    SearchFindsFirstMatch(value, YouTubeHost, YouTubeTail, YouTubeCaptures);
  }

  lemma VimeoVideoIdIsFirstMatch(value: string)
    ensures VimeoVideoId(value).None? <==> NoMatchOf(value, VimeoVideo, LongestDigits)
    ensures forall id :: VimeoVideoId(value) == Some(id) <==> FirstMatchOf(value, VimeoVideo, LongestDigits, id)
    ensures VimeoVideoId(value).Some? ==> IsIdText(VimeoVideoId(value).value)
  {
    forall r, id ensures DigitsStart(r) == Some(id) <==> LongestDigits(r, id) {
      DigitsStartIsLongest(r, id);
    }
    SearchFindsFirstMatch(value, VimeoVideo, DigitsStart, LongestDigits);
  }

  lemma MoogaloopIdIsFirstMatch(value: string)
    ensures MoogaloopId(value).None? <==> NoMatchOf(value, Moogaloop, MoogaloopCaptures)
    ensures forall id :: MoogaloopId(value) == Some(id) <==> FirstMatchOf(value, Moogaloop, MoogaloopCaptures, id)
    ensures MoogaloopId(value).Some? ==> IsIdText(MoogaloopId(value).value)
  {
    forall r, id ensures MoogaloopTail(r) == Some(id) <==> MoogaloopCaptures(r, id) {
      MoogaloopTailIsThePattern(r, id);
    }
    SearchFindsFirstMatch(value, Moogaloop, MoogaloopTail, MoogaloopCaptures);
  }

  /** A `vimeo.com/video/<digits>` link wins over a moogaloop link wherever each occurs. */
  lemma VideoLinkBeatsMoogaloop(value: string, id: string)
    requires NoMatchOf(value, YouTubeHost, YouTubeCaptures)
    requires FirstMatchOf(value, VimeoVideo, LongestDigits, id)
    ensures Classify(value) == Some(Embed(Vimeo, id))
  {
    YouTubeIdIsFirstMatch(value);
    VimeoVideoIdIsFirstMatch(value);
  }

  /** What follows `youtube.com/` in an iframe's `src`: `embed/` and the id. */
  lemma EmbedPathTail(id: string, suffix: string)
    requires IsIdText(id) && (|suffix| == 0 || !IsIdChar(suffix[0]))
    ensures YouTubeTail("embed/" + id + suffix) == Some(id)
  {
    var r := "embed/" + id + suffix;
    assert r[..6] == "embed/";
    forall j | 0 <= j < 5 ensures r[j] != '\n' && r[j] != '/' {
      assert r[j] == r[..6][j];
    }
    forall j: nat | 1 <= j < 5 ensures SlashId(r[j..]).None? {
      SlashIdAt(r, j);
    }
    LazyGapSkips(r, SlashId, 1, 5);
    SlashIdAt(r, 5);
    assert r[6..] == id + suffix;
    IdRunStops(id, suffix);
  }

  /**
   * An embed whose value links to `youtube.com/embed/<id>` (with no `y`
   * before the link, as in an iframe's `src`) is a YouTube embed of `<id>`.
   */
  lemma {:induction false} YouTubeIframeClassified(prefix: string, id: string, suffix: string)
    requires 'y' !in prefix
    requires IsIdText(id) && (|suffix| == 0 || !IsIdChar(suffix[0]))
    ensures Classify(prefix + YouTubeHost + "embed/" + id + suffix) == Some(Embed(YouTube, id))
  {
    assert prefix + YouTubeHost + "embed/" + id + suffix == prefix + YouTubeHost + ("embed/" + id + suffix);
    EmbedPathTail(id, suffix);
    SearchAfterPrefix(prefix, YouTubeHost, "embed/" + id + suffix, YouTubeTail);
  }

  /** A pattern whose head's first character is not in `prefix` is found right after it, if it matches there. */
  lemma {:induction false} SearchAfterPrefix(prefix: string, head: string, rest: string, tail: Matcher)
    requires |head| > 0 && head[0] !in prefix && tail(rest).Some?
    ensures Search(prefix + head + rest, head, tail, 0) == tail(rest)
  {
    var value := prefix + head + rest;
    var p := |prefix|;
    forall j | 0 <= j < p ensures !MatchesAt(value, head, tail, j) {
      assert value[j] == prefix[j] && prefix[j] in prefix;
      MismatchAt(value, head, j);
    }
    assert value[p..p + |head|] == head && value[p + |head|..] == rest;
    SearchSkips(value, head, tail, 0, p);
  }

  /** `Search` returns the capture at the first position where the head occurs and the pattern matches. */
  lemma SearchAt(value: string, head: string, tail: Matcher, p: nat)
    requires MatchesAt(value, head, tail, p) && forall j :: 0 <= j < p ==> !OccursAt(value, head, j)
    ensures Search(value, head, tail, 0) == tail(value[p + |head|..])
  {
    forall j | 0 <= j < p ensures !MatchesAt(value, head, tail, j) {
    }
    SearchSkips(value, head, tail, 0, p);
  }

  /**
   * An embed whose value links to `vimeo.com/video/<digits>` (with no `v`
   * before the link and no YouTube link anywhere) is a Vimeo embed of the digits.
   */
  lemma {:induction false} VimeoIframeClassified(prefix: string, id: string, suffix: string)
    requires 'v' !in prefix
    requires IsDigitText(id) && (|suffix| == 0 || !IsDigit(suffix[0]))
    requires forall j :: !OccursAt(prefix + VimeoVideo + id + suffix, YouTubeHost, j)
    ensures Classify(prefix + VimeoVideo + id + suffix) == Some(Embed(Vimeo, id))
  {
    SearchNowhere(prefix + VimeoVideo + id + suffix, YouTubeHost, YouTubeTail);
    VimeoLinkFound(prefix, id, suffix);
  }

  lemma {:induction false} VimeoLinkFound(prefix: string, id: string, suffix: string)
    requires 'v' !in prefix
    requires IsDigitText(id) && (|suffix| == 0 || !IsDigit(suffix[0]))
    ensures VimeoVideoId(prefix + VimeoVideo + id + suffix) == Some(id)
  {
    assert prefix + VimeoVideo + id + suffix == prefix + VimeoVideo + (id + suffix);
    DigitPrefixStops(id, suffix);
    SearchAfterPrefix(prefix, VimeoVideo, id + suffix, DigitsStart);
  }

  /** A pattern whose head occurs nowhere matches nowhere. */
  lemma SearchNowhere(value: string, head: string, tail: Matcher)
    requires forall j :: !OccursAt(value, head, j)
    ensures Search(value, head, tail, 0).None?
  {
    SearchIsLeftmost(value, head, tail, 0);
  }

  lemma MismatchAt(s: string, pattern: string, i: nat)
    requires i < |s| && |pattern| > 0 && s[i] != pattern[0]
    ensures !OccursAt(s, pattern, i)
  {
    if i + |pattern| <= |s| {
      assert s[i..i + |pattern|][0] == s[i];
    }
  }

  /** What follows `vimeo.com/moogaloop` in an old-style embed: a gap, `clip_id=` and the digits. */
  lemma {:induction false} ClipTailOf(gap: string, id: string, suffix: string)
    requires |gap| >= 1 && '\n' !in gap && 'c' !in gap
    requires IsDigitText(id) && (|suffix| == 0 || !IsDigit(suffix[0]))
    ensures MoogaloopTail(gap + ClipId + id + suffix) == Some(id)
  {
    var after := ClipId + (id + suffix);
    var r := gap + after;
    assert gap + ClipId + id + suffix == r;
    ClipGapSkipped(gap, after);
    var g := |gap|;
    assert r[g - 1] == gap[g - 1] && gap[g - 1] in gap;
    assert r[g..] == after && after[..|ClipId|] == ClipId && after[|ClipId|..] == id + suffix;
    DigitPrefixStops(id, suffix);
  }

  /** The lazy gap passes over text holding no `c` and no line feed. */
  lemma {:induction false} ClipGapSkipped(gap: string, after: string)
    requires |gap| >= 1 && |after| >= 1 && '\n' !in gap && 'c' !in gap
    ensures LazyGap(gap + after, ClipDigits, 1) == LazyGap(gap + after, ClipDigits, |gap|)
  {
    var r := gap + after;
    var g := |gap|;
    forall j | 0 <= j < g ensures r[j] != '\n' && r[j] != 'c' {
      assert r[j] == gap[j] && gap[j] in gap;
    }
    forall j: nat | 1 <= j < g ensures ClipDigits(r[j..]).None? {
      ClipDigitsAt(r, j);
      MismatchAt(r, ClipId, j);
    }
    LazyGapSkips(r, ClipDigits, 1, g);
  }

  /**
   * An old-style embed `...vimeo.com/moogaloop<gap>clip_id=<digits>...`, with
   * no earlier moogaloop link, no YouTube and no `vimeo.com/video/` link, is
   * a Vimeo embed of the digits after the first `clip_id=`.
   */
  lemma {:induction false} MoogaloopClassified(value: string, p: nat, gap: string, id: string, suffix: string)
    requires p <= |value| && value[p..] == Moogaloop + gap + ClipId + id + suffix
    requires forall j :: 0 <= j < p ==> !OccursAt(value, Moogaloop, j)
    requires |gap| >= 1 && '\n' !in gap && 'c' !in gap
    requires IsDigitText(id) && (|suffix| == 0 || !IsDigit(suffix[0]))
    requires forall j :: !OccursAt(value, YouTubeHost, j) && !OccursAt(value, VimeoVideo, j)
    ensures Classify(value) == Some(Embed(Vimeo, id))
  {
    SearchNowhere(value, YouTubeHost, YouTubeTail);
    SearchNowhere(value, VimeoVideo, DigitsStart);
    MoogaloopLinkFound(value, p, gap, id, suffix);
  }

  lemma MoogaloopLinkFound(value: string, p: nat, gap: string, id: string, suffix: string)
    requires p <= |value| && value[p..] == Moogaloop + gap + ClipId + id + suffix
    requires forall j :: 0 <= j < p ==> !OccursAt(value, Moogaloop, j)
    requires |gap| >= 1 && '\n' !in gap && 'c' !in gap
    requires IsDigitText(id) && (|suffix| == 0 || !IsDigit(suffix[0]))
    ensures MoogaloopId(value) == Some(id)
  {
    var r := gap + ClipId + id + suffix;
    assert value[p..p + |Moogaloop|] == Moogaloop && value[p + |Moogaloop|..] == r by {
      assert value[p..] == Moogaloop + r;
    }
    ClipTailOf(gap, id, suffix);
    SearchAt(value, Moogaloop, MoogaloopTail, p);
  }

  /**
   * A bare link line naming the provider and then the id, with at least one
   * character before each, is what the rewriting pattern matches.
   */
  lemma LinkLineMentions(gap: string, provider: string, between: string, id: string, tail: string)
    requires |gap| >= 1 && |between| >= 1
    ensures MentionsPattern("http" + gap + provider + between + id + tail, provider, id)
  {
    var line := "http" + gap + provider + between + id + tail;
    var a := 4 + |gap|;
    var b := a + |provider| + |between|;
    assert line[a..a + |provider|] == provider;
    assert line[b..b + |id|] == id;
    assert OccursAt(line, provider, a) && OccursAt(line, id, b);
  }

  /**
   * End to end for one oembed meta: a body line `http://youtube.com/watch?v=<id>`
   * becomes the iframe the meta recorded for that id.
   */
  lemma {:induction false} YouTubeLinkBecomesIframe(key: string, prefix: string, id: string, suffix: string, content: string, i: nat)
    requires IndexOf(key, "_oembed", 0).Some?
    requires 'y' !in prefix && '\n' !in prefix && '\n' !in suffix
    requires IsIdText(id) && (|suffix| == 0 || !IsIdChar(suffix[0]))
    requires i < |Lines(content)| && Lines(content)[i] == "http://youtube.com/watch?v=" + id
    ensures var value := prefix + YouTubeHost + "embed/" + id + suffix;
      var after := Lines(EmbedOne(Meta(key, value), content));
      i < |after| && after[i] == value
  {
    var value := prefix + YouTubeHost + "embed/" + id + suffix;
    YouTubeIframeClassified(prefix, id, suffix);
    NoLineFeedIn(prefix, YouTubeHost + "embed/", id, suffix);
    YouTubeLinkMentions(id);
    var meta := Meta(key, value);
    assert EmbedOne(meta, content) == Gsub(content, Embed(YouTube, id), value) by {
      assert IsOembed(meta);
      assert Classify(meta.value) == Some(Embed(YouTube, id));
    }
    GsubReplacesWholeLines(content, Embed(YouTube, id), value);
  }

  lemma NoLineFeedIn(a: string, b: string, c: string, d: string)
    requires '\n' !in a && '\n' !in b && '\n' !in c && '\n' !in d
    ensures '\n' !in a + b + c + d
  {
  }

  lemma YouTubeLinkMentions(id: string)
    ensures MentionsPattern("http://youtube.com/watch?v=" + id, "youtube", id)
  {
    var line := "http://youtube.com/watch?v=" + id;
    assert line[..27] == "http://youtube.com/watch?v=";
    assert line[7..14] == line[..27][7..14] == "youtube";
    assert line[27..27 + |id|] == id;
    assert OccursAt(line, "youtube", 7) && OccursAt(line, id, 27);
  }

  /**
   * The id is matched as a substring: a line linking to another video whose
   * id merely contains the captured one is replaced too.
   */
  lemma LongerIdAlsoMatches()
    ensures Mentions("http://vimeo.com/123", "vimeo", "12")
  {
    LinkLineMentions("://", "vimeo", ".com/", "12", "3");
    assert "http" + "://" + "vimeo" + ".com/" + "12" + "3" == "http://vimeo.com/123";
    MentionsIsThePattern("http://vimeo.com/123", "vimeo", "12");
  }
}
