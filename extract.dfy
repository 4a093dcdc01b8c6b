/**
  `extract_tagged_pages_from_openapi`: walks the `paths` object of an OpenAPI
  document (Path Item and Operation objects, sections 4.7.9 and 4.7.10 of the
  OpenAPI Specification 3.0.3) and collects, per tag, the page paths of the
  operations carrying that tag, sorted and without repeats.
*/
module Extract {
  import opened Wrappers
  import opened Json
  import opened Text
  import opened Sorted
  import opened Slugs

  /** The Path Item keys that name operations, compared lower-cased.
      `trace` is not among them. */
  const HttpMethods: seq<string> := ["get", "post", "put", "patch", "delete", "options", "head"]

  /** The method filter, case-insensitive. A key that passes it has no
      slash, so its page slug has none. */
  function IsHttpMethod(key: string): (b: bool)
    ensures b ==> '/' !in key
  {
    var lowered := Lower(key);
    if lowered in HttpMethods then
      assert '/' !in lowered;
      LowerKeepsSlash(key);
      true
    else false
  }

  /** The tag-to-pages dict: (tag, pages) entries in insertion order. */
  type TagPages = seq<(string, seq<string>)>

  /** The dict's keys in order. */
  function Keys(m: TagPages): (ks: seq<string>)
    ensures |ks| == |m|
    ensures forall e :: 0 <= e < |m| ==> ks[e] == m[e].0
  {
    if m == [] then [] else [m[0].0] + Keys(m[1..])
  }

  /** `m.get(tag, [])`. The tag dict is not a JSON value (its values are page
      lists and a missing tag reads as an empty list), so it has its own
      lookup rather than `Json.Lookup`. */
  function PagesFor(m: TagPages, tag: string): seq<string>
  {
    if m == [] then []
    else if m[0].0 == tag then m[0].1
    else PagesFor(m[1..], tag)
  }

  predicate Distinct(ks: seq<string>)
  {
    forall i, j :: 0 <= i < j < |ks| ==> ks[i] != ks[j]
  }

  /** With distinct keys, looking up the key of an entry gives that entry's pages. */
  lemma {:induction false} PagesForEntry(m: TagPages, e: int)
    requires Distinct(Keys(m)) && 0 <= e < |m|
    ensures PagesFor(m, m[e].0) == m[e].1
  {
    if e > 0 {
      assert Keys(m)[0] != Keys(m)[e];
      assert Distinct(Keys(m[1..])) by {
        forall i, j | 0 <= i < j < |m| - 1
          ensures Keys(m[1..])[i] != Keys(m[1..])[j]
        {
          assert Keys(m)[i + 1] != Keys(m)[j + 1];
        }
      }
      PagesForEntry(m[1..], e - 1);
    }
  }

  /** `tag_to_pages[tag].append(page)` on a `defaultdict(list)`: a new tag is
      added at the end with a one-page list; every other tag keeps its pages. */
  function Append(m: TagPages, tag: string, page: string): (r: TagPages)
    ensures Keys(r) == if tag in Keys(m) then Keys(m) else Keys(m) + [tag]
    ensures forall t :: PagesFor(r, t) == if t == tag then PagesFor(m, t) + [page] else PagesFor(m, t)
  {
    if m == [] then [(tag, [page])]
    else if m[0].0 == tag then [(tag, m[0].1 + [page])] + m[1..]
    else
      var r := [m[0]] + Append(m[1..], tag, page);
      assert r[1..] == Append(m[1..], tag, page);
      assert Keys(m) == [m[0].0] + Keys(m[1..]);
      r
  }

  /** The dict after appending each (tag, page) pair of `pairs` to `m` in turn. */
  function AppendAll(m: TagPages, pairs: seq<(string, string)>): TagPages
  {
    if pairs == [] then m
    else
      var last := pairs[|pairs| - 1];
      Append(AppendAll(m, pairs[..|pairs| - 1]), last.0, last.1)
  }

  /** Appending two runs of pairs is appending their concatenation. */
  lemma {:induction false} AppendAllConcat(m: TagPages, a: seq<(string, string)>, b: seq<(string, string)>)
    ensures AppendAll(m, a + b) == AppendAll(AppendAll(m, a), b)
  {
    if b == [] {
      assert a + b == a;
    } else {
      var init := b[..|b| - 1];
      assert (a + b)[..|a + b| - 1] == a + init;
      assert (a + b)[|a + b| - 1] == b[|b| - 1];
      AppendAllConcat(m, a, init);
    }
  }

  /** The dict built from an empty `defaultdict(list)`. */
  function Grouped(pairs: seq<(string, string)>): TagPages
  {
    AppendAll([], pairs)
  }

  /** The grouped dict has one key per tag that occurs, each listing exactly
      the pages paired with it. */
  lemma GroupedFacts(pairs: seq<(string, string)>)
    ensures Distinct(Keys(Grouped(pairs)))
    ensures forall t :: t in Keys(Grouped(pairs)) <==> exists p :: (t, p) in pairs
    ensures forall t, p :: p in PagesFor(Grouped(pairs), t) <==> (t, p) in pairs
  {
    GroupedDistinct(pairs);
    GroupedKeys(pairs);
    GroupedPages(pairs);
  }

  /** Grouping the pairs one more: one more `append`. */
  lemma GroupedSnoc(pairs: seq<(string, string)>)
    requires pairs != []
    ensures var last := pairs[|pairs| - 1];
      Grouped(pairs) == Append(Grouped(pairs[..|pairs| - 1]), last.0, last.1)
  {
  }

  lemma {:induction false} GroupedDistinct(pairs: seq<(string, string)>)
    ensures Distinct(Keys(Grouped(pairs)))
  {
    if pairs != [] {
      var init, last := pairs[..|pairs| - 1], pairs[|pairs| - 1];
      GroupedDistinct(init);
      GroupedSnoc(pairs);
      AppendDistinct(Grouped(init), last.0, last.1);
    }
  }

  lemma {:induction false} GroupedKeys(pairs: seq<(string, string)>)
    ensures forall t :: t in Keys(Grouped(pairs)) <==> exists p :: (t, p) in pairs
  {
    if pairs != [] {
      GroupedKeys(pairs[..|pairs| - 1]);
      forall t
        ensures t in Keys(Grouped(pairs)) <==> exists p :: (t, p) in pairs
      {
        GroupedKeyStep(pairs, t);
      }
    }
  }

  /** One more pair adds its tag to the keys and no other. */
  lemma GroupedKeyStep(pairs: seq<(string, string)>, t: string)
    requires pairs != []
    requires t in Keys(Grouped(pairs[..|pairs| - 1])) <==> exists p :: (t, p) in pairs[..|pairs| - 1]
    ensures t in Keys(Grouped(pairs)) <==> exists p :: (t, p) in pairs
  {
    var init, last := pairs[..|pairs| - 1], pairs[|pairs| - 1];
    assert pairs == init + [last];
    GroupedSnoc(pairs);
    AppendMembers(Grouped(init), last.0, last.1);
    if t == last.0 {
      assert (t, last.1) in pairs;
    }
    if t in Keys(Grouped(init)) {
      var p :| (t, p) in init;
      assert (t, p) in pairs;
    }
    if exists p :: (t, p) in pairs {
      var p :| (t, p) in pairs;
      assert (t, p) in init || (t, p) == last;
    }
  }

  lemma {:induction false} GroupedPages(pairs: seq<(string, string)>)
    ensures forall t, p :: p in PagesFor(Grouped(pairs), t) <==> (t, p) in pairs
  {
    if pairs != [] {
      var init, last := pairs[..|pairs| - 1], pairs[|pairs| - 1];
      assert pairs == init + [last];
      GroupedPages(init);
      GroupedSnoc(pairs);
      AppendMembers(Grouped(init), last.0, last.1);
      forall t, p
        ensures p in PagesFor(Grouped(pairs), t) <==> (t, p) in pairs
      {
        assert (t, p) in pairs <==> (t, p) in init || (t, p) == last;
      }
    }
  }

  /** One append keeps the tags distinct. */
  lemma AppendDistinct(m: TagPages, tag: string, page: string)
    requires Distinct(Keys(m))
    ensures Distinct(Keys(Append(m, tag, page)))
  {
    var ks := Keys(m);
    if tag !in ks {
      var ks' := ks + [tag];
      forall i, j | 0 <= i < j < |ks'|
        ensures ks'[i] != ks'[j]
      {
        if j == |ks| {
          assert ks'[i] == ks[i];
        }
      }
    }
  }

  /** One append adds its tag to the keys, and its page to that tag's list only. */
  lemma AppendMembers(m: TagPages, tag: string, page: string)
    ensures forall t :: t in Keys(Append(m, tag, page)) <==> t in Keys(m) || t == tag
    ensures forall t, p :: p in PagesFor(Append(m, tag, page), t) <==> p in PagesFor(m, t) || (t == tag && p == page)
  {
    var r := Append(m, tag, page);
    forall t
      ensures t in Keys(r) <==> t in Keys(m) || t == tag
    {
      assert t in Keys(m) + [tag] <==> t in Keys(m) || t == tag;
    }
    forall t, p
      ensures p in PagesFor(r, t) <==> p in PagesFor(m, t) || (t == tag && p == page)
    {
      assert p in PagesFor(m, t) + [page] <==> p in PagesFor(m, t) || p == page;
    }
  }

  /** `sorted(set(...))` applied to every list of the dict. */
  function Finalize(m: TagPages): TagPages
  {
    seq(|m|, e requires 0 <= e < |m| => (m[e].0, SortedSet(m[e].1)))
  }

  lemma {:induction false} FinalizeFacts(m: TagPages)
    ensures Keys(Finalize(m)) == Keys(m)
    ensures forall t :: PagesFor(Finalize(m), t) == SortedSet(PagesFor(m, t))
  {
    if m != [] {
      assert Finalize(m)[1..] == Finalize(m[1..]);
      FinalizeFacts(m[1..]);
    }
  }

  /** `openapi.get("paths", {})`, as the items it is iterated by. */
  function PathsOf(openapi: Json): seq<(string, Json)>
  {
    var paths := GetOr(openapi, "paths", JObj([]));
    if paths.JObj? then paths.fields else []
  }

  /** `op.get("tags", [])` as iterated, nothing when it is falsy: tags come
      only from a truthy iterable, and are exactly what the loop visits. */
  function TagsOf(op: Json): (r: seq<Json>)
    ensures var tags := GetOr(op, "tags", JArr([]));
      r != [] ==> Truthy(tags) && Iterated(tags) == Some(r)
    ensures var tags := GetOr(op, "tags", JArr([]));
      Truthy(tags) && Iterated(tags).Some? ==> r == Iterated(tags).value
  {
    var tags := GetOr(op, "tags", JArr([]));
    if Truthy(tags) then
      match Iterated(tags)
      case Some(items) => items
      case None => []
    else []
  }

  /** The pairs each item contributes, one item after another: the order in
      which a loop over `items` appends them. */
  function Concat<T>(items: seq<T>, f: T -> seq<(string, string)>): seq<(string, string)>
  {
    if items == [] then []
    else Concat(items[..|items| - 1], f) + f(items[|items| - 1])
  }

  lemma ConcatSnoc<T>(items: seq<T>, f: T -> seq<(string, string)>, k: int)
    requires 0 <= k < |items|
    ensures Concat(items[..k + 1], f) == Concat(items[..k], f) + f(items[k])
  {
    assert items[..k + 1][..k] == items[..k];
  }

  /** A pair is contributed exactly when some item contributes it. */
  lemma {:induction false} ConcatMembers<T>(items: seq<T>, f: T -> seq<(string, string)>, x: (string, string))
    ensures x in Concat(items, f) <==> exists j :: 0 <= j < |items| && x in f(items[j])
  {
    if items != [] {
      var init := items[..|items| - 1];
      ConcatMembers(init, f, x);
      if exists j :: 0 <= j < |items| && x in f(items[j]) {
        var j :| 0 <= j < |items| && x in f(items[j]);
        if j < |items| - 1 {
          assert init[j] == items[j];
        }
      }
      if exists j :: 0 <= j < |init| && x in f(init[j]) {
        var j :| 0 <= j < |init| && x in f(init[j]);
        assert items[j] == init[j];
      }
    }
  }

  /** The (tag, page path) pairs one operation's tags contribute, in order. */
  function TagPairs(tags: seq<Json>, pageSlug: string): seq<(string, string)>
  {
    Concat(tags, tag => TagPair(tag, pageSlug))
  }

  function TagPair(tag: Json, pageSlug: string): seq<(string, string)>
  {
    if tag.JStr? && !IsIgnoredTag(tag.s) then [(tag.s, ToPagePath(tag.s, pageSlug))] else []
  }

  function OperationPairs(path: string, key: string, op: Json): seq<(string, string)>
  {
    if IsHttpMethod(key) && op.JObj? then TagPairs(TagsOf(op), PageSlug(key, path)) else []
  }

  function MethodPairs(path: string, methods: seq<(string, Json)>): seq<(string, string)>
  {
    Concat(methods, (kv: (string, Json)) => OperationPairs(path, kv.0, kv.1))
  }

  function PathItemPairs(path: string, item: Json): seq<(string, string)>
  {
    if item.JObj? then MethodPairs(path, item.fields) else []
  }

  function PathPairs(paths: seq<(string, Json)>): seq<(string, string)>
  {
    Concat(paths, (kv: (string, Json)) => PathItemPairs(kv.0, kv.1))
  }

  /** The dict `extract_tagged_pages_from_openapi` returns. */
  function ExtractSpec(openapi: Json): (r: TagPages)
    ensures Distinct(Keys(r))
  {
    var grouped := Grouped(PathPairs(PathsOf(openapi)));
    GroupedFacts(PathPairs(PathsOf(openapi)));
    FinalizeFacts(grouped);
    Finalize(grouped)
  }

  /** The operation under `key` of the Path Item at `path` yields `page` for `tag`. */
  predicate OperationProduces(path: string, key: string, op: Json, tag: string, page: string)
  {
    && IsHttpMethod(key)
    && op.JObj?
    && JStr(tag) in TagsOf(op)
    && !IsIgnoredTag(tag)
    && page == ToPagePath(tag, PageSlug(key, path))
  }

  predicate PathItemProduces(path: string, item: Json, tag: string, page: string)
  {
    item.JObj? && exists j :: 0 <= j < |item.fields| && OperationProduces(path, item.fields[j].0, item.fields[j].1, tag, page)
  }

  /** Some operation of the document yields `page` for `tag`. */
  predicate Produces(openapi: Json, tag: string, page: string)
  {
    exists i :: 0 <= i < |PathsOf(openapi)| && PathItemProduces(PathsOf(openapi)[i].0, PathsOf(openapi)[i].1, tag, page)
  }

  lemma TagPairsMembers(tags: seq<Json>, pageSlug: string, tag: string, page: string)
    ensures (tag, page) in TagPairs(tags, pageSlug)
        <==> JStr(tag) in tags && !IsIgnoredTag(tag) && page == ToPagePath(tag, pageSlug)
  {
    ConcatMembers(tags, t => TagPair(t, pageSlug), (tag, page));
    if JStr(tag) in tags {
      var j :| 0 <= j < |tags| && tags[j] == JStr(tag);
    }
  }

  /** An operation contributes a pair exactly when it produces it. */
  lemma OperationPairsMembers(path: string, key: string, op: Json, tag: string, page: string)
    ensures (tag, page) in OperationPairs(path, key, op) <==> OperationProduces(path, key, op, tag, page)
  {
    if IsHttpMethod(key) && op.JObj? {
      TagPairsMembers(TagsOf(op), PageSlug(key, path), tag, page);
    }
  }

  lemma MethodPairsMembers(path: string, methods: seq<(string, Json)>, tag: string, page: string)
    ensures (tag, page) in MethodPairs(path, methods)
        <==> exists j :: 0 <= j < |methods| && OperationProduces(path, methods[j].0, methods[j].1, tag, page)
  {
    ConcatMembers(methods, (kv: (string, Json)) => OperationPairs(path, kv.0, kv.1), (tag, page));
    forall j | 0 <= j < |methods|
      ensures (tag, page) in OperationPairs(path, methods[j].0, methods[j].1)
          <==> OperationProduces(path, methods[j].0, methods[j].1, tag, page)
    {
      OperationPairsMembers(path, methods[j].0, methods[j].1, tag, page);
    }
  }

  lemma PathPairsMembers(paths: seq<(string, Json)>, tag: string, page: string)
    ensures (tag, page) in PathPairs(paths)
        <==> exists i :: 0 <= i < |paths| && PathItemProduces(paths[i].0, paths[i].1, tag, page)
  {
    ConcatMembers(paths, (kv: (string, Json)) => PathItemPairs(kv.0, kv.1), (tag, page));
    forall i | 0 <= i < |paths|
      ensures (tag, page) in PathItemPairs(paths[i].0, paths[i].1) <==> PathItemProduces(paths[i].0, paths[i].1, tag, page)
    {
      if paths[i].1.JObj? {
        MethodPairsMembers(paths[i].0, paths[i].1.fields, tag, page);
      }
    }
  }

  /** Soundness and completeness: a page is listed under a tag exactly when
      some operation of the document yields it for that tag. */
  lemma ExtractSoundComplete(openapi: Json, tag: string, page: string)
    ensures page in PagesFor(ExtractSpec(openapi), tag) <==> Produces(openapi, tag, page)
  {
    var pairs := PathPairs(PathsOf(openapi));
    GroupedFacts(pairs);
    FinalizeFacts(Grouped(pairs));
    PathPairsMembers(PathsOf(openapi), tag, page);
  }

  /** Every entry of the dict: its tag is not ignored, occurs once, and lists
      at least one page, in strictly ascending order (so sorted and without
      repeats), each page filed under the group slug of that tag. */
  lemma ExtractShape(openapi: Json)
    ensures Distinct(Keys(ExtractSpec(openapi)))
    ensures forall e :: 0 <= e < |ExtractSpec(openapi)| ==>
      var entry := ExtractSpec(openapi)[e];
      && !IsIgnoredTag(entry.0)
      && entry.1 != []
      && StrictlyAscending(entry.1)
      && forall p :: p in entry.1 ==> SplitPagePath(p).Some? && SplitPagePath(p).value.0 == GroupSlug(entry.0)
  {
    var pairs := PathPairs(PathsOf(openapi));
    var grouped := Grouped(pairs);
    var r := ExtractSpec(openapi);
    GroupedFacts(pairs);
    FinalizeFacts(grouped);
    forall e | 0 <= e < |r|
      ensures !IsIgnoredTag(r[e].0) && r[e].1 != [] && StrictlyAscending(r[e].1)
      ensures forall p :: p in r[e].1 ==> SplitPagePath(p).Some? && SplitPagePath(p).value.0 == GroupSlug(r[e].0)
    {
      var tag := r[e].0;
      PagesForEntry(r, e);
      assert tag in Keys(grouped) by {
        assert Keys(r)[e] == tag;
      }
      var p0 :| (tag, p0) in pairs;
      assert p0 in r[e].1;
      forall p | p in r[e].1
        ensures !IsIgnoredTag(tag)
        ensures SplitPagePath(p).Some? && SplitPagePath(p).value.0 == GroupSlug(tag)
      {
        ExtractSoundComplete(openapi, tag, p);
        ProducedPageSplits(openapi, tag, p);
      }
    }
  }

  /** A page some operation yields for a tag is not for an ignored tag, and
      it splits back into the tag's group slug. */
  lemma ProducedPageSplits(openapi: Json, tag: string, page: string)
    requires Produces(openapi, tag, page)
    ensures !IsIgnoredTag(tag)
    ensures SplitPagePath(page).Some? && SplitPagePath(page).value.0 == GroupSlug(tag)
  {
    var i :| 0 <= i < |PathsOf(openapi)| && PathItemProduces(PathsOf(openapi)[i].0, PathsOf(openapi)[i].1, tag, page);
    var item := PathsOf(openapi)[i];
    var j :| 0 <= j < |item.1.fields| && OperationProduces(item.0, item.1.fields[j].0, item.1.fields[j].1, tag, page);
    OperationPageSplits(item.0, item.1.fields[j].0, item.1.fields[j].1, tag, page);
  }

  /** The page an operation yields for a tag splits back into the tag's group
      slug and the operation's page slug. */
  lemma OperationPageSplits(path: string, key: string, op: Json, tag: string, page: string)
    requires OperationProduces(path, key, op, tag, page)
    ensures SplitPagePath(page) == Some((GroupSlug(tag), PageSlug(key, path)))
  {
    assert '/' !in PageSlug(key, path);
    PagePathRoundTrip(tag, PageSlug(key, path));
  }

  /** An ignored tag never becomes a key of the dict, whatever the document holds. */
  lemma IgnoredTagsAbsent(openapi: Json, tag: string)
    requires IsIgnoredTag(tag)
    ensures tag !in Keys(ExtractSpec(openapi))
  {
    ExtractShape(openapi);
  }

  /** The dict is empty exactly when no operation of the document yields a
      page for any tag. */
  lemma ExtractEmptyIffNothingTagged(openapi: Json)
    ensures ExtractSpec(openapi) == [] <==> forall tag, page :: !Produces(openapi, tag, page)
  {
    var m := ExtractSpec(openapi);
    if m == [] {
      forall tag, page
        ensures !Produces(openapi, tag, page)
      {
        ExtractSoundComplete(openapi, tag, page);
      }
    } else {
      ExtractShape(openapi);
      PagesForEntry(m, 0);
      ExtractSoundComplete(openapi, m[0].0, m[0].1[0]);
    }
  }

  /** The inputs `extract_tagged_pages_from_openapi` runs on without raising:
      a dict whose `paths` (if present) is a dict, and whose operations' truthy
      `tags` are iterable and hold only strings. */
  predicate OperationWellFormed(op: Json)
  {
    var tags := GetOr(op, "tags", JArr([]));
    Truthy(tags) ==> Iterated(tags).Some? && forall t :: t in Iterated(tags).value ==> t.JStr?
  }

  predicate PathItemWellFormed(item: Json)
  {
    item.JObj? ==>
      forall j :: 0 <= j < |item.fields| && IsHttpMethod(item.fields[j].0) && item.fields[j].1.JObj? ==>
        OperationWellFormed(item.fields[j].1)
  }

  predicate OpenApiWellFormed(openapi: Json)
  {
    && openapi.JObj?
    && GetOr(openapi, "paths", JObj([])).JObj?
    && forall i :: 0 <= i < |PathsOf(openapi)| ==> PathItemWellFormed(PathsOf(openapi)[i].1)
  }

  lemma TagPairsSnoc(tags: seq<Json>, k: int, pageSlug: string)
    requires 0 <= k < |tags|
    ensures TagPairs(tags[..k + 1], pageSlug) == TagPairs(tags[..k], pageSlug) + TagPair(tags[k], pageSlug)
  {
    ConcatSnoc(tags, t => TagPair(t, pageSlug), k);
  }

  lemma AppendAllSnoc(m: TagPages, pairs: seq<(string, string)>, tag: string, page: string)
    ensures AppendAll(m, pairs + [(tag, page)]) == Append(AppendAll(m, pairs), tag, page)
  {
    assert (pairs + [(tag, page)])[..|pairs|] == pairs;
  }

  lemma MethodPairsSnoc(path: string, methods: seq<(string, Json)>, j: int)
    requires 0 <= j < |methods|
    ensures MethodPairs(path, methods[..j + 1]) == MethodPairs(path, methods[..j]) + OperationPairs(path, methods[j].0, methods[j].1)
  {
    ConcatSnoc(methods, (kv: (string, Json)) => OperationPairs(path, kv.0, kv.1), j);
  }

  lemma PathPairsSnoc(paths: seq<(string, Json)>, i: int)
    requires 0 <= i < |paths|
    ensures PathPairs(paths[..i + 1]) == PathPairs(paths[..i]) + PathItemPairs(paths[i].0, paths[i].1)
  {
    ConcatSnoc(paths, (kv: (string, Json)) => PathItemPairs(kv.0, kv.1), i);
  }

  /** One turn of the innermost loop appends the pair of one tag, if any. */
  lemma TagStep(tagToPages: TagPages, tags: seq<Json>, k: int, pageSlug: string, r: TagPages)
    requires 0 <= k < |tags| && tags[k].JStr?
    requires r == AppendAll(tagToPages, TagPairs(tags[..k], pageSlug))
    ensures var tag := tags[k].s;
      (if IsIgnoredTag(tag) then r else Append(r, tag, ToPagePath(tag, pageSlug)))
        == AppendAll(tagToPages, TagPairs(tags[..k + 1], pageSlug))
  {
    TagPairsSnoc(tags, k, pageSlug);
    var tag := tags[k].s;
    if !IsIgnoredTag(tag) {
      AppendAllSnoc(tagToPages, TagPairs(tags[..k], pageSlug), tag, ToPagePath(tag, pageSlug));
    } else {
      assert TagPairs(tags[..k], pageSlug) + [] == TagPairs(tags[..k], pageSlug);
    }
  }

  /** The innermost loop: every tag of one operation that is not ignored gets
      the operation's page path appended. */
  method AppendTagPages(tagToPages: TagPages, tags: seq<Json>, pageSlug: string) returns (r: TagPages)
    requires forall t :: t in tags ==> t.JStr?
    ensures r == AppendAll(tagToPages, TagPairs(tags, pageSlug))
  {
    r := tagToPages;
    var k := 0;
    while k < |tags|
      invariant 0 <= k <= |tags|
      invariant r == AppendAll(tagToPages, TagPairs(tags[..k], pageSlug))
    {
      assert tags[k] in tags;
      TagStep(tagToPages, tags, k, pageSlug, r);
      var tag := tags[k].s;
      if !IsIgnoredTag(tag) {
        r := Append(r, tag, ToPagePath(tag, pageSlug));
      }
      k := k + 1;
    }
    assert tags[..k] == tags;
  }

  /** One turn of the middle loop appends the pairs of one operation. */
  lemma MethodStep(tagToPages: TagPages, path: string, methods: seq<(string, Json)>, j: int, r: TagPages)
    requires 0 <= j < |methods|
    requires r == AppendAll(tagToPages, MethodPairs(path, methods[..j]))
    ensures AppendAll(r, OperationPairs(path, methods[j].0, methods[j].1))
         == AppendAll(tagToPages, MethodPairs(path, methods[..j + 1]))
  {
    MethodPairsSnoc(path, methods, j);
    AppendAllConcat(tagToPages, MethodPairs(path, methods[..j]), OperationPairs(path, methods[j].0, methods[j].1));
  }

  /** The middle loop over one Path Item's keys: only the seven HTTP methods
      whose value is a dict with truthy `tags` contribute. */
  method AppendPathItemPages(tagToPages: TagPages, path: string, methods: seq<(string, Json)>) returns (r: TagPages)
    requires PathItemWellFormed(JObj(methods))
    ensures r == AppendAll(tagToPages, MethodPairs(path, methods))
  {
    r := tagToPages;
    var j := 0;
    while j < |methods|
      invariant 0 <= j <= |methods|
      invariant r == AppendAll(tagToPages, MethodPairs(path, methods[..j]))
    {
      var httpMethod, op := methods[j].0, methods[j].1;
      MethodStep(tagToPages, path, methods, j, r);
      if IsHttpMethod(httpMethod) && op.JObj? {
        var tags := GetOr(op, "tags", JArr([]));
        if Truthy(tags) {
          assert OperationWellFormed(op);
          r := AppendTagPages(r, Iterated(tags).value, PageSlug(httpMethod, path));
        }
      }
      j := j + 1;
    }
    assert methods[..j] == methods;
  }

  /** `extract_tagged_pages_from_openapi`: the outer loop over the document's
      paths, then each list replaced by `sorted(set(...))`. */
  method ExtractTaggedPages(openapi: Json) returns (tagToPages: TagPages)
    requires OpenApiWellFormed(openapi)
    ensures tagToPages == ExtractSpec(openapi)
  {
    tagToPages := [];
    var paths := GetOr(openapi, "paths", JObj([])).fields;
    assert paths == PathsOf(openapi);
    var i := 0;
    while i < |paths|
      invariant 0 <= i <= |paths|
      invariant tagToPages == Grouped(PathPairs(paths[..i]))
    {
      var path, methods := paths[i].0, paths[i].1;
      PathPairsSnoc(paths, i);
      AppendAllConcat([], PathPairs(paths[..i]), PathItemPairs(path, methods));
      if methods.JObj? {
        assert PathItemWellFormed(paths[i].1);
        tagToPages := AppendPathItemPages(tagToPages, path, methods.fields);
      }
      i := i + 1;
    }
    assert paths[..i] == paths;

    ghost var grouped := tagToPages;
    var n := 0;
    while n < |tagToPages|
      invariant 0 <= n <= |tagToPages| == |grouped|
      invariant forall e :: 0 <= e < n ==> tagToPages[e] == (grouped[e].0, SortedSet(grouped[e].1))
      invariant forall e :: n <= e < |tagToPages| ==> tagToPages[e] == grouped[e]
    {
      tagToPages := tagToPages[n := (tagToPages[n].0, SortedSet(tagToPages[n].1))];
      n := n + 1;
    }
  }
}
