/**
 * The class-level rules of `WP::PostBase`: which exported nodes are imported
 * at all, how a WordPress status label becomes a status code, and the two
 * constant tables that seed and map a post's attributes.
 */
module PostRules {
  import opened Wrappers

  /** An exported `<item>` as the rejector sees it: the text of its `wp:status`. */
  datatype ItemNode = ItemNode(status: string)

  /**
   * A child of an `<item>`: its tag name, whether it is a `wp:postmeta`, and
   * (for a postmeta) the text of its `wp:meta_value`.
   */
  datatype ChildNode = ChildNode(name: string, isPostmeta: bool, metaValue: string)

  const Publish := "publish"
  const UnknownMeta := "{{unknown}}"

  /** `invalid_item`: only published content is imported. */
  predicate InvalidItem(node: ItemNode) {
    node.status != Publish
  }

  /**
   * `invalid_child`: comments and placeholder postmeta are dropped, and so is
   * whatever the parent class `Node` drops (`base`).
   */
  predicate InvalidChild(node: ChildNode, base: ChildNode -> bool) {
    node.name == "comment" || (node.isPostmeta && node.metaValue == UnknownMeta) || base(node)
  }

  /** The parent class's rejection is always in force. */
  lemma BaseRejectionApplies(node: ChildNode, base: ChildNode -> bool)
    requires base(node)
    ensures InvalidChild(node, base)
  {
  }

  /** A stricter parent rule makes `invalid_child` stricter, never looser. */
  lemma InvalidChildMonotone(node: ChildNode, base: ChildNode -> bool, stricter: ChildNode -> bool)
    requires base(node) ==> stricter(node)
    ensures InvalidChild(node, base) ==> InvalidChild(node, stricter)
  {
  }

  /** A child that survives the filter is no comment, no placeholder meta, and passes the parent rule. */
  lemma KeptChildIsClean(node: ChildNode, base: ChildNode -> bool)
    requires !InvalidChild(node, base)
    ensures node.name != "comment"
    ensures node.isPostmeta ==> node.metaValue != UnknownMeta
    ensures !base(node)
  {
  }

  /** The `status=` lookup table. */
  const StatusMap: map<string, int> := map["publish" := 5, "inherit" := 5, "draft" := 0]

  /** `status=`: the code of a known label, `nil` for any other label. */
  function StatusCode(status: string): (code: Option<int>)
    ensures code.Some? <==> status == "publish" || status == "inherit" || status == "draft"
    ensures code == Some(5) <==> status == "publish" || status == "inherit"
    ensures code == Some(0) <==> status == "draft"
  {
    if status in StatusMap then Some(StatusMap[status]) else None
  }

  /** Every imported item carries the published status code. */
  lemma ImportedItemIsPublished(node: ItemNode)
    requires !InvalidItem(node)
    ensures StatusCode(node.status) == Some(5)
  {
  }

  /**
   * The code does not decide importability: an `inherit` item gets the
   * published code yet is rejected, and a `draft` is rejected with code 0.
   */
  lemma CodeFiveIsNotImportable()
    ensures StatusCode("inherit") == Some(5) && InvalidItem(ItemNode("inherit"))
    ensures StatusCode("draft") == Some(0) && InvalidItem(ItemNode("draft"))
  {
  }

  /** An attribute value as the attribute hash holds it. */
  datatype Value = Int(i: int) | Str(s: string) | Nil

  /** The site constants of `MultiAmerican`, which are not part of this model. */
  datatype Site = Site(blogId: int, blogSlug: string, authorId: int)

  /** `DEFAULTS`: the constant attributes every imported post starts from. */
  function Defaults(site: Site): (d: map<string, Value>)
    ensures d.Keys == DefaultKeys
    ensures d["author_id"] == Int(site.authorId)
    ensures d["is_published"] == Int(0) && d["comment_count"] == Int(0)
  {
    map[
      "blog_id" := Int(site.blogId),
      "blog_slug" := Str(site.blogSlug),
      "author_id" := Int(site.authorId),
      "is_published" := Int(0),
      "blog_asset_scheme" := Str(""),
      "comment_count" := Int(0)
    ]
  }

  const DefaultKeys: set<string> :=
    {"blog_id", "blog_slug", "author_id", "is_published", "blog_asset_scheme", "comment_count"}

  /** `XML_AR_MAP`: export field name to target attribute name, in table order. */
  const FieldMap: seq<(string, string)> := [
    ("id", "wp_id"),
    ("post_name", "slug"),
    ("title", "title"),
    ("content", "content"),
    ("pubDate", "published_at"),
    ("status", "status"),
    ("excerpt", "_teaser")
  ]

  /**
   * The two tables never compete for a target attribute and map no two export
   * fields to one attribute, so the seeded attributes do not depend on the
   * order in which the tables are applied. The post body lands in `content`,
   * which the embed pass rewrites, and the author the lookup may override is
   * one of the defaults.
   */
  lemma TablesAreDisjoint()
    ensures forall i :: 0 <= i < |FieldMap| ==> FieldMap[i].1 !in DefaultKeys
    ensures forall i, j :: 0 <= i < j < |FieldMap| ==> FieldMap[i].1 != FieldMap[j].1 && FieldMap[i].0 != FieldMap[j].0
    ensures ("content", "content") in FieldMap && "author_id" in DefaultKeys
  {
  }
}
