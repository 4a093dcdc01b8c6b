/**
  The slug and path helpers of autopop.py: how an OpenAPI tag names a
  navigation group, which tags are ignored, and how an operation's page path
  is spelled.
*/
module Slugs {
  import opened Wrappers
  import opened Text

  /** Tags whose operations never get documentation pages. */
  const IgnoredTags: set<string> := {"public", "chat", "websocket only"}

  /** Every page path starts with this directory. */
  const PagePrefix: string := "api-reference/"

  /** `tag_to_group_slug`: trimmed, lower-cased, spaces turned into hyphens.
      A slug has no space, no upper-case letter and no surrounding whitespace. */
  function GroupSlug(tag: string): (slug: string)
    ensures ' ' !in slug
    ensures forall i :: 0 <= i < |slug| ==> !IsUpper(slug[i])
    ensures slug != [] ==> !IsSpace(slug[0]) && !IsSpace(slug[|slug| - 1])
  {
    Replace(Lower(Strip(tag)), ' ', '-')
  }

  /** Re-slugging a slug changes nothing. */
  lemma GroupSlugIdempotent(tag: string)
    ensures GroupSlug(GroupSlug(tag)) == GroupSlug(tag)
  {
    var slug := GroupSlug(tag);
    StripFixed(slug);
    LowerFixed(slug);
    assert Replace(slug, ' ', '-') == slug;
  }

  /** Surrounding whitespace of a tag does not matter. */
  lemma GroupSlugOfStripped(tag: string)
    ensures GroupSlug(Strip(tag)) == GroupSlug(tag)
  {
    StripFixed(Strip(tag));
  }

  /** Tags that differ only in letter case name the same group. */
  lemma GroupSlugIgnoresCase(tag: string)
    ensures GroupSlug(Lower(tag)) == GroupSlug(tag)
  {
    StripLower(tag);
    LowerFixed(Lower(Strip(tag)));
  }

  /** `is_ignored_tag`: the trimmed, lower-cased tag is one of the ignored
      names, so an ignored tag would slug to one of three fixed group slugs. */
  function IsIgnoredTag(tag: string): (b: bool)
    ensures b ==> GroupSlug(tag) in {"public", "chat", "websocket-only"}
  {
    var name := Lower(Strip(tag));
    if name in IgnoredTags then
      IgnoredSlug(name);
      true
    else false
  }

  /** The group slugs of the three ignored names. */
  lemma IgnoredSlug(name: string)
    requires name in IgnoredTags
    ensures Replace(name, ' ', '-') in {"public", "chat", "websocket-only"}
  {
    if name == "websocket only" {
      var w := Replace(name, ' ', '-');
      assert forall i :: 0 <= i < 14 ==> w[i] == "websocket-only"[i];
      assert w == "websocket-only";
    } else {
      assert name == "public" || name == "chat";
      assert ' ' !in name;
      assert Replace(name, ' ', '-') == name;
    }
  }

  /** Whether a tag is ignored depends neither on letter case nor on
      surrounding whitespace. */
  lemma IsIgnoredTagNormalised(tag: string)
    ensures IsIgnoredTag(Lower(tag)) == IsIgnoredTag(tag)
    ensures IsIgnoredTag(Strip(tag)) == IsIgnoredTag(tag)
  {
    StripLower(tag);
    LowerFixed(Lower(Strip(tag)));
    StripFixed(Strip(tag));
  }

  /** `generate_page_slug`: the lower-cased method, a hyphen, and the path with
      every slash removed (the leading `lstrip("/")` is subsumed). */
  function PageSlug(httpMethod: string, path: string): (r: string)
    ensures r == Lower(httpMethod) + "-" + Remove(path, '/')
    ensures '/' !in r[|httpMethod| + 1..]
    ensures '/' !in httpMethod ==> '/' !in r
  {
    RemoveAfterLStrip(path, '/');
    Lower(httpMethod) + "-" + Remove(LStripChar(path, '/'), '/')
  }

  /** `to_page_path`: the page path of a page slug under a tag's group.
      `PagePathRoundTrip` shows what it preserves. */
  function ToPagePath(tag: string, pageSlug: string): string
  {
    PagePrefix + GroupSlug(tag) + "/" + pageSlug
  }

  /** Reads a page path back into its group slug and page slug: the page slug
      is what follows the last slash. */
  function SplitPagePath(path: string): Option<(string, string)>
  {
    if |path| < |PagePrefix| || path[..|PagePrefix|] != PagePrefix then None
    else
      var rest := path[|PagePrefix|..];
      var k := LastIndexOf(rest, '/');
      if k < 0 then None else Some((rest[..k], rest[k + 1..]))
  }

  /** Splitting undoes the joining of a group slug and a slash-free page slug. */
  lemma SplitJoined(slug: string, pageSlug: string)
    requires '/' !in pageSlug
    ensures SplitPagePath(PagePrefix + slug + "/" + pageSlug) == Some((slug, pageSlug))
  {
    var rest := slug + "/" + pageSlug;
    var path := PagePrefix + rest;
    assert PagePrefix + slug + "/" + pageSlug == path;
    assert path[..|PagePrefix|] == PagePrefix && path[|PagePrefix|..] == rest;
    assert rest[..|slug|] == slug && rest[|slug| + 1..] == pageSlug;
    assert LastIndexOf(rest, '/') == |slug| by {
      assert rest[|slug|] == '/';
      assert forall j :: |slug| < j < |rest| ==> rest[j] == pageSlug[j - |slug| - 1];
      LastIndexOfUnique(rest, '/', |slug|);
    }
  }

  /** A page path determines the group slug and the page slug it was built
      from, as long as the page slug has no slash (true of every page slug
      generated for the seven HTTP methods). */
  lemma PagePathRoundTrip(tag: string, pageSlug: string)
    requires '/' !in pageSlug
    ensures SplitPagePath(ToPagePath(tag, pageSlug)) == Some((GroupSlug(tag), pageSlug))
  {
    SplitJoined(GroupSlug(tag), pageSlug);
  }
}
