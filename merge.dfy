/**
  `update_docs_groups_with_pages` and its two finders: locate the "Methods"
  tab of the docs navigation and its "Methods overview" group, index that
  group's subgroups by slug, and overwrite the `pages` of every subgroup
  whose slug some tag of the extracted mapping has.

  Python mutates the loaded document in place; here the document is a value
  and the merge returns the new one.  A found tab, group or subgroup is
  referred to by its index in the list that holds it.
*/
module Merge {
  import opened Wrappers
  import opened Json
  import opened Slugs
  import opened Extract

  /** The first item satisfying `p`, as a `for ... if p(x): return x` search. */
  function FirstWhere(items: seq<Json>, p: Json -> bool): (r: Option<nat>)
    ensures r.Some? ==> r.value < |items| && p(items[r.value])
    ensures r.Some? ==> forall k :: 0 <= k < r.value ==> !p(items[k])
    ensures r.None? ==> forall k :: 0 <= k < |items| ==> !p(items[k])
  {
    if items == [] then None
    else if p(items[0]) then Some(0)
    else
      match FirstWhere(items[1..], p)
      case None => None
      case Some(k) => Some(k + 1)
  }

  /** `isinstance(tab, dict) and tab.get("tab") == "Methods"`. */
  predicate IsMethodsTab(tab: Json)
  {
    tab.JObj? && GetOr(tab, "tab", JNull) == JStr("Methods")
  }

  /** `grp.get("group") == "Methods overview"`, on a group that is a dict. */
  predicate IsMethodsOverview(grp: Json)
  {
    grp.JObj? && GetOr(grp, "group", JNull) == JStr("Methods overview")
  }

  /** `docs.get("navigation", {})`. */
  function NavigationOf(docs: Json): Json
  {
    GetOr(docs, "navigation", JObj([]))
  }

  /** `docs.get("navigation", {}).get("tabs", [])`. */
  function TabsOf(docs: Json): Json
  {
    GetOr(NavigationOf(docs), "tabs", JArr([]))
  }

  /** `methods_tab.get("groups", [])`. */
  function GroupsOf(tab: Json): Json
  {
    GetOr(tab, "groups", JArr([]))
  }

  /** `api_v2.get("pages", [])`. */
  function SubgroupsOf(group: Json): Json
  {
    GetOr(group, "pages", JArr([]))
  }

  /** `find_methods_tab`: the index of the first tab that is the "Methods" tab.
      Only a list of tabs can hold one. */
  function FindMethodsTab(docs: Json): (r: Option<nat>)
    requires docs.JObj? && NavigationOf(docs).JObj? && Iterated(TabsOf(docs)).Some?
    ensures r.Some? ==> TabsOf(docs).JArr? && r.value < |TabsOf(docs).items|
    ensures r.Some? ==> IsMethodsTab(TabsOf(docs).items[r.value])
    ensures r.Some? ==> forall k :: 0 <= k < r.value ==> !IsMethodsTab(TabsOf(docs).items[k])
    ensures r.None? ==> forall x :: x in Iterated(TabsOf(docs)).value ==> !IsMethodsTab(x)
  {
    var r := FirstWhere(Iterated(TabsOf(docs)).value, IsMethodsTab);
    assert r.Some? ==> Iterated(TabsOf(docs)).value[r.value].JObj?;
    r
  }

  /** The groups can be searched without raising: every group looked at
      before the search stops is a dict. */
  predicate Searchable(groups: seq<Json>)
  {
    var visited := match FirstWhere(groups, IsMethodsOverview) case Some(i) => i case None => |groups|;
    forall k :: 0 <= k < visited ==> groups[k].JObj?
  }

  /** `find_api_v2_group`: the index of the first "Methods overview" group.
      Only a list of groups can hold one. */
  function FindApiV2Group(tab: Json): (r: Option<nat>)
    requires tab.JObj? && Iterated(GroupsOf(tab)).Some? && Searchable(Iterated(GroupsOf(tab)).value)
    ensures r.Some? ==> GroupsOf(tab).JArr? && r.value < |GroupsOf(tab).items|
    ensures r.Some? ==> IsMethodsOverview(GroupsOf(tab).items[r.value])
    ensures r.Some? ==> forall k :: 0 <= k < r.value ==> !IsMethodsOverview(GroupsOf(tab).items[k])
    ensures r.None? ==> forall x :: x in Iterated(GroupsOf(tab)).value ==> !IsMethodsOverview(x)
  {
    var r := FirstWhere(Iterated(GroupsOf(tab)).value, IsMethodsOverview);
    assert r.Some? ==> Iterated(GroupsOf(tab)).value[r.value].JObj?;
    r
  }

  /** `group_obj.get("group")` on a subgroup. */
  function NameOf(g: Json): Json
  {
    GetOr(g, "group", JNull)
  }

  /** The slug a subgroup is indexed under: only dicts with a truthy `group`
      name are indexed. */
  function SubgroupSlug(g: Json): Option<string>
  {
    if g.JObj? && Truthy(NameOf(g)) && NameOf(g).JStr? then Some(GroupSlug(NameOf(g).s)) else None
  }

  /** Every indexed subgroup's name is a string, so that slugging it does not raise. */
  predicate SubgroupsNamed(subs: seq<Json>)
  {
    forall k :: 0 <= k < |subs| && subs[k].JObj? && Truthy(NameOf(subs[k])) ==> NameOf(subs[k]).JStr?
  }

  /** The documents `update_docs_groups_with_pages` runs on without raising. */
  predicate MergeWellFormed(docs: Json)
  {
    && docs.JObj?
    && NavigationOf(docs).JObj?
    && Iterated(TabsOf(docs)).Some?
    && (FindMethodsTab(docs).Some? ==>
          var tab := TabsOf(docs).items[FindMethodsTab(docs).value];
          && Iterated(GroupsOf(tab)).Some?
          && Searchable(Iterated(GroupsOf(tab)).value)
          && (FindApiV2Group(tab).Some? ==>
                var subs := SubgroupsOf(GroupsOf(tab).items[FindApiV2Group(tab).value]);
                subs.JArr? ==> SubgroupsNamed(subs.items)))
  }

  /** Where the merge writes: the Methods tab, its Methods overview group, and
      that group's list of subgroups. */
  datatype Target = Target(tab: nat, group: nat, subgroups: seq<Json>)

  /** The target, or None for the three early exits: no Methods tab, no Methods
      overview group, or `pages` of that group not a list. */
  function Locate(docs: Json): (r: Option<Target>)
    requires MergeWellFormed(docs)
    ensures r.Some? ==> TabsOf(docs).JArr? && r.value.tab < |TabsOf(docs).items|
    ensures r.Some? ==> var tab := TabsOf(docs).items[r.value.tab];
      && GroupsOf(tab).JArr? && r.value.group < |GroupsOf(tab).items|
      && SubgroupsOf(GroupsOf(tab).items[r.value.group]) == JArr(r.value.subgroups)
  {
    match FindMethodsTab(docs)
    case None => None
    case Some(ti) =>
      var tab := TabsOf(docs).items[ti];
      match FindApiV2Group(tab)
      case None => None
      case Some(gi) =>
        var subs := SubgroupsOf(GroupsOf(tab).items[gi]);
        if subs.JArr? then Some(Target(ti, gi, subs.items)) else None
  }

  /** The chain of in-place assignments that replaces the subgroups, given
      the documents, their navigation, its tabs and the groups of tab `ti`. */
  function Rebuild(docs: Json, nav: Json, tabs: seq<Json>, ti: nat, groups: seq<Json>, gi: nat, subs: seq<Json>): Json
    requires ti < |tabs| && gi < |groups|
  {
    SetExisting(docs, "navigation",
      SetExisting(nav, "tabs",
        JArr(tabs[ti := SetExisting(tabs[ti], "groups",
          JArr(groups[gi := SetExisting(groups[gi], "pages", JArr(subs))]))])))
  }

  /** The document with the subgroups of group `gi` of tab `ti` replaced: the
      change the in-place updates make to the document.  A group without a
      `pages` key has no subgroups in the document to change. */
  function SetSubgroups(docs: Json, ti: nat, gi: nat, subs: seq<Json>): Json
    requires TabsOf(docs).JArr? && ti < |TabsOf(docs).items|
    requires GroupsOf(TabsOf(docs).items[ti]).JArr? && gi < |GroupsOf(TabsOf(docs).items[ti]).items|
  {
    Rebuild(docs, NavigationOf(docs), TabsOf(docs).items, ti, GroupsOf(TabsOf(docs).items[ti]).items, gi, subs)
  }

  /** A list of page paths as JSON. */
  function PagesJson(pages: seq<string>): (r: Json)
    ensures r.JArr? && |r.items| == |pages|
    ensures forall i :: 0 <= i < |pages| ==> r.items[i] == JStr(pages[i])
  {
    JArr(seq(|pages|, i requires 0 <= i < |pages| => JStr(pages[i])))
  }

  /** `group_obj["pages"] = pages`: `pages` reads back as the list written,
      and no other key of the subgroup changes. */
  function WithPages(g: Json, pages: seq<string>): (r: Json)
    ensures r.JObj? == g.JObj?
    ensures g.JObj? ==> GetOr(r, "pages", JNull) == PagesJson(pages)
    ensures forall key, default :: key != "pages" ==> GetOr(r, key, default) == GetOr(g, key, default)
  {
    Set(g, "pages", PagesJson(pages))
  }

  /** The pages of the last tag (in the mapping's order) whose slug is `slug`:
      a later tag with the same slug overwrites an earlier one's pages. */
  function LastPagesFor(m: TagPages, slug: string): (r: Option<seq<string>>)
    ensures r.Some? <==> exists i :: 0 <= i < |m| && GroupSlug(m[i].0) == slug
  {
    if m == [] then None
    else if GroupSlug(m[|m| - 1].0) == slug then Some(m[|m| - 1].1)
    else
      var r := LastPagesFor(m[..|m| - 1], slug);
      assert forall i :: 0 <= i < |m| - 1 ==> m[i] == m[..|m| - 1][i];
      r
  }

  /** The slug each subgroup is indexed under, in order. */
  function SubgroupSlugs(subs: seq<Json>): (r: seq<Option<string>>)
    ensures |r| == |subs|
  {
    seq(|subs|, k requires 0 <= k < |subs| => SubgroupSlug(subs[k]))
  }

  /** Position `k` is the one the slug index keeps for its slug: a later
      subgroup with the same slug replaces an earlier one in the index. */
  predicate IsLastWithSlug(slugs: seq<Option<string>>, k: int)
  {
    && 0 <= k < |slugs|
    && slugs[k].Some?
    && forall l :: k < l < |slugs| ==> slugs[l] != slugs[k]
  }

  /** Two positions that are each the last with the same slug are the same one. */
  lemma LastWithSlugUnique(slugs: seq<Option<string>>, a: int, b: int)
    requires IsLastWithSlug(slugs, a) && IsLastWithSlug(slugs, b) && slugs[a] == slugs[b]
    ensures a == b
  {
  }

  /** `slug_to_group_obj` once built: every slug present is a key, and each
      key names the last position with that slug. */
  predicate IndexesLast(slugs: seq<Option<string>>, index: map<string, nat>)
  {
    && (forall s :: s in index ==> IsLastWithSlug(slugs, index[s]) && slugs[index[s]] == Some(s))
    && (forall l :: 0 <= l < |slugs| && slugs[l].Some? ==> slugs[l].value in index)
  }

  /** Subgroup `k` after the second loop of `update_docs_groups_with_pages`,
      `slugs` being the slugs the subgroups are indexed under. */
  function UpdatedSubgroup(subs: seq<Json>, slugs: seq<Option<string>>, k: int, m: TagPages): Json
    requires |slugs| == |subs| && 0 <= k < |subs|
  {
    if IsLastWithSlug(slugs, k) then
      match LastPagesFor(m, slugs[k].value)
      case Some(pages) => WithPages(subs[k], pages)
      case None => subs[k]
    else subs[k]
  }

  /** The subgroups after the second loop. */
  function UpdatedSubgroups(subs: seq<Json>, slugs: seq<Option<string>>, m: TagPages): seq<Json>
    requires |slugs| == |subs|
  {
    seq(|subs|, k requires 0 <= k < |subs| => UpdatedSubgroup(subs, slugs, k, m))
  }

  /** Writing pages twice leaves the second list. */
  lemma WithPagesTwice(g: Json, first: seq<string>, second: seq<string>)
    ensures WithPages(WithPages(g, first), second) == WithPages(g, second)
  {
    if g.JObj? {
      PutPut(g.fields, "pages", PagesJson(first), PagesJson(second));
    }
  }

  /** The group slug of each tag of the mapping, in order. */
  function TagSlugs(m: TagPages): (r: seq<string>)
    ensures |r| == |m|
  {
    seq(|m|, i requires 0 <= i < |m| => GroupSlug(m[i].0))
  }

  /** `any_updates` after going through the tag slugs `tagSlugs` in order: set
      once a tag's slug is in the index. */
  predicate AnyMatch(slugs: seq<Option<string>>, tagSlugs: seq<string>)
  {
    tagSlugs != [] && (AnyMatch(slugs, tagSlugs[..|tagSlugs| - 1]) || Some(tagSlugs[|tagSlugs| - 1]) in slugs)
  }

  /** The document and the result `update_docs_groups_with_pages` leaves. */
  function MergeSpec(docs: Json, m: TagPages): (r: (Json, bool))
    requires MergeWellFormed(docs)
    ensures Locate(docs).None? ==> r == (docs, false)
  {
    match Locate(docs)
    case None => (docs, false)
    case Some(t) =>
      var slugs := SubgroupSlugs(t.subgroups);
      (SetSubgroups(docs, t.tab, t.group, UpdatedSubgroups(t.subgroups, slugs, m)), AnyMatch(slugs, TagSlugs(m)))
  }

  lemma LastPagesForSnoc(done: TagPages, q: (string, seq<string>), slug: string)
    ensures LastPagesFor(done + [q], slug)
         == if GroupSlug(q.0) == slug then Some(q.1) else LastPagesFor(done, slug)
  {
    assert (done + [q])[..|done|] == done;
  }

  lemma AnyMatchSnoc(slugs: seq<Option<string>>, tagSlugs: seq<string>, t: int)
    requires 0 <= t < |tagSlugs|
    ensures AnyMatch(slugs, tagSlugs[..t + 1]) <==> AnyMatch(slugs, tagSlugs[..t]) || Some(tagSlugs[t]) in slugs
  {
    assert tagSlugs[..t + 1][..t] == tagSlugs[..t];
  }

  /** A tag whose slug no indexed subgroup has changes no subgroup. */
  lemma UnmatchedTagStep(subs: seq<Json>, slugs: seq<Option<string>>, done: TagPages, q: (string, seq<string>))
    requires |slugs| == |subs| && Some(GroupSlug(q.0)) !in slugs
    ensures forall l :: 0 <= l < |subs| ==> UpdatedSubgroup(subs, slugs, l, done + [q]) == UpdatedSubgroup(subs, slugs, l, done)
  {
    forall l | 0 <= l < |subs|
      ensures UpdatedSubgroup(subs, slugs, l, done + [q]) == UpdatedSubgroup(subs, slugs, l, done)
    {
      if IsLastWithSlug(slugs, l) {
        LastPagesForSnoc(done, q, slugs[l].value);
      }
    }
  }

  /** A tag whose slug the indexed subgroup `idx` has overwrites that
      subgroup's pages and changes no other subgroup. */
  lemma MatchedTagStep(subs: seq<Json>, slugs: seq<Option<string>>, done: TagPages, q: (string, seq<string>),
                       idx: int, current: seq<Json>, next: seq<Json>)
    requires |slugs| == |subs| && IsLastWithSlug(slugs, idx) && slugs[idx] == Some(GroupSlug(q.0))
    requires |current| == |subs|
    requires forall l :: 0 <= l < |subs| ==> current[l] == UpdatedSubgroup(subs, slugs, l, done)
    requires next == current[idx := WithPages(current[idx], q.1)]
    ensures forall l :: 0 <= l < |subs| ==> next[l] == UpdatedSubgroup(subs, slugs, l, done + [q])
  {
    forall l | 0 <= l < |subs|
      ensures next[l] == UpdatedSubgroup(subs, slugs, l, done + [q])
    {
      MatchedTagAt(subs, slugs, done, q, idx, current[l], l);
    }
  }

  lemma MatchedTagAt(subs: seq<Json>, slugs: seq<Option<string>>, done: TagPages, q: (string, seq<string>),
                     idx: int, current: Json, l: int)
    requires |slugs| == |subs| && IsLastWithSlug(slugs, idx) && slugs[idx] == Some(GroupSlug(q.0))
    requires 0 <= l < |subs| && current == UpdatedSubgroup(subs, slugs, l, done)
    ensures (if l == idx then WithPages(current, q.1) else current) == UpdatedSubgroup(subs, slugs, l, done + [q])
  {
    if IsLastWithSlug(slugs, l) {
      LastPagesForSnoc(done, q, slugs[l].value);
      if slugs[l] == slugs[idx] {
        LastWithSlugUnique(slugs, l, idx);
        match LastPagesFor(done, slugs[idx].value)
        case Some(earlier) => WithPagesTwice(subs[idx], earlier, q.1);
        case None =>
      }
    }
  }

  /** One turn of the second loop keeps the subgroups and the flag as the
      tags seen so far determine them. */
  lemma ApplyStep(subs: seq<Json>, slugs: seq<Option<string>>, index: map<string, nat>, m: TagPages, t: int,
                  current: seq<Json>)
    requires |slugs| == |subs| && IndexesLast(slugs, index) && 0 <= t < |m|
    requires current == UpdatedSubgroups(subs, slugs, m[..t])
    ensures var slug := GroupSlug(m[t].0);
      && (slug in index ==>
            current[index[slug] := WithPages(current[index[slug]], m[t].1)] == UpdatedSubgroups(subs, slugs, m[..t + 1]))
      && (slug !in index ==> current == UpdatedSubgroups(subs, slugs, m[..t + 1]))
      && AnyMatch(slugs, TagSlugs(m)[..t + 1]) == (AnyMatch(slugs, TagSlugs(m)[..t]) || slug in index)
  {
    var slug := GroupSlug(m[t].0);
    assert m[..t + 1] == m[..t] + [m[t]];
    AnyMatchSnoc(slugs, TagSlugs(m), t);
    assert TagSlugs(m)[t] == slug;
    if slug in index {
      var idx := index[slug];
      var next := current[idx := WithPages(current[idx], m[t].1)];
      MatchedTagStep(subs, slugs, m[..t], m[t], idx, current, next);
    } else {
      assert forall l :: 0 <= l < |slugs| ==> slugs[l] != Some(slug);
      UnmatchedTagStep(subs, slugs, m[..t], m[t]);
    }
  }

  /** What the slug index holds after looking at the first `k` subgroups. */
  predicate IndexedUpTo(slugs: seq<Option<string>>, k: int, index: map<string, nat>)
    requires 0 <= k <= |slugs|
  {
    && (forall s :: s in index ==> index[s] < k && slugs[index[s]] == Some(s))
    && (forall s, l :: s in index && index[s] < l < k ==> slugs[l] != Some(s))
    && (forall l :: 0 <= l < k && slugs[l].Some? ==> slugs[l].value in index)
  }

  lemma IndexStep(slugs: seq<Option<string>>, k: int, index: map<string, nat>)
    requires 0 <= k < |slugs| && IndexedUpTo(slugs, k, index)
    ensures IndexedUpTo(slugs, k + 1, if slugs[k].Some? then index[slugs[k].value := k] else index)
  {
  }

  lemma IndexDone(slugs: seq<Option<string>>, index: map<string, nat>)
    requires IndexedUpTo(slugs, |slugs|, index)
    ensures IndexesLast(slugs, index)
  {
  }

  /** The first loop of `update_docs_groups_with_pages`: index the subgroups
      by slug, a later subgroup replacing an earlier one with the same slug. */
  method IndexSubgroups(groups: seq<Json>) returns (slugToGroup: map<string, nat>)
    requires SubgroupsNamed(groups)
    ensures IndexesLast(SubgroupSlugs(groups), slugToGroup)
  {
    ghost var slugs := SubgroupSlugs(groups);
    slugToGroup := map[];
    var k := 0;
    while k < |groups|
      invariant 0 <= k <= |groups|
      invariant IndexedUpTo(slugs, k, slugToGroup)
    {
      IndexStep(slugs, k, slugToGroup);
      var groupObj := groups[k];
      assert slugs[k] == SubgroupSlug(groupObj);
      if groupObj.JObj? {
        var groupName := GetOr(groupObj, "group", JNull);
        if Truthy(groupName) {
          slugToGroup := slugToGroup[GroupSlug(groupName.s) := k];
        }
      }
      k := k + 1;
    }
    IndexDone(slugs, slugToGroup);
  }

  /** The second loop of `update_docs_groups_with_pages`: for each tag in
      order, overwrite the pages of the subgroup its slug indexes, and record
      whether any tag matched. */
  method ApplyPages(groups: seq<Json>, ghost slugs: seq<Option<string>>, slugToGroup: map<string, nat>, tagToPages: TagPages)
    returns (newGroups: seq<Json>, updated: bool)
    requires |slugs| == |groups| && IndexesLast(slugs, slugToGroup)
    ensures newGroups == UpdatedSubgroups(groups, slugs, tagToPages)
    ensures updated == AnyMatch(slugs, TagSlugs(tagToPages))
  {
    newGroups := groups;
    updated := false;
    var t := 0;
    while t < |tagToPages|
      invariant 0 <= t <= |tagToPages|
      invariant newGroups == UpdatedSubgroups(groups, slugs, tagToPages[..t])
      invariant updated == AnyMatch(slugs, TagSlugs(tagToPages)[..t])
    {
      var tagName, pages := tagToPages[t].0, tagToPages[t].1;
      var slug := GroupSlug(tagName);
      ApplyStep(groups, slugs, slugToGroup, tagToPages, t, newGroups);
      if slug in slugToGroup {
        var idx := slugToGroup[slug];
        newGroups := newGroups[idx := WithPages(newGroups[idx], pages)];
        updated := true;
      }
      t := t + 1;
    }
    assert tagToPages[..t] == tagToPages;
    assert TagSlugs(tagToPages)[..t] == TagSlugs(tagToPages);
  }

  /** `update_docs_groups_with_pages`: the three early exits, then the two
      loops on the subgroups of the Methods overview group. */
  method UpdateDocsGroupsWithPages(docs: Json, tagToPages: TagPages) returns (newDocs: Json, updated: bool)
    requires MergeWellFormed(docs)
    ensures (newDocs, updated) == MergeSpec(docs, tagToPages)
  {
    var ti := FindMethodsTab(docs);
    if ti.None? {
      return docs, false;
    }
    var methodsTab := TabsOf(docs).items[ti.value];
    var gi := FindApiV2Group(methodsTab);
    if gi.None? {
      return docs, false;
    }
    var apiV2 := GroupsOf(methodsTab).items[gi.value];
    var pagesGroups := SubgroupsOf(apiV2);
    if !pagesGroups.JArr? {
      return docs, false;
    }
    var groups := pagesGroups.items;
    var slugToGroup := IndexSubgroups(groups);
    var newGroups;
    newGroups, updated := ApplyPages(groups, SubgroupSlugs(groups), slugToGroup, tagToPages);
    newDocs := SetSubgroups(docs, ti.value, gi.value, newGroups);
  }
}
