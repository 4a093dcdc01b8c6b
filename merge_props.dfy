/**
  What `update_docs_groups_with_pages` does to the document: which subgroups
  change and how, what its result reports, that nothing outside the list of
  subgroups changes, and that merging twice is merging once.
*/
module MergeProps {
  import opened Wrappers
  import opened Json
  import opened Text
  import opened Sorted
  import opened Slugs
  import opened Extract
  import opened Merge

  /** `any_updates` is true exactly when some tag's slug is the slug of an
      indexed subgroup. */
  lemma {:induction false} AnyMatchExists(slugs: seq<Option<string>>, tagSlugs: seq<string>)
    ensures AnyMatch(slugs, tagSlugs) <==> exists i :: 0 <= i < |tagSlugs| && Some(tagSlugs[i]) in slugs
  {
    if tagSlugs != [] {
      var init := tagSlugs[..|tagSlugs| - 1];
      AnyMatchExists(slugs, init);
      if AnyMatch(slugs, init) {
        var i :| 0 <= i < |init| && Some(init[i]) in slugs;
        assert init[i] == tagSlugs[i];
      } else if Some(tagSlugs[|tagSlugs| - 1]) in slugs {
      } else {
        forall i | 0 <= i < |tagSlugs|
          ensures Some(tagSlugs[i]) !in slugs
        {
          if i < |tagSlugs| - 1 {
            assert init[i] == tagSlugs[i];
          }
        }
      }
    }
  }

  /** Every slug that occurs has a last position in the index. */
  lemma LastPositionExists(slugs: seq<Option<string>>, l: int)
    requires 0 <= l < |slugs| && slugs[l].Some?
    ensures exists k :: IsLastWithSlug(slugs, k) && slugs[k] == slugs[l]
    decreases |slugs| - l
  {
    if !IsLastWithSlug(slugs, l) {
      var l2 :| l < l2 < |slugs| && slugs[l2] == slugs[l];
      LastPositionExists(slugs, l2);
    }
  }

  /** The result is true exactly when the pages of some subgroup are written. */
  lemma UpdatedIffWritten(slugs: seq<Option<string>>, m: TagPages)
    ensures AnyMatch(slugs, TagSlugs(m)) <==> exists k :: IsLastWithSlug(slugs, k) && LastPagesFor(m, slugs[k].value).Some?
  {
    var tagSlugs := TagSlugs(m);
    AnyMatchExists(slugs, tagSlugs);
    if AnyMatch(slugs, tagSlugs) {
      var i :| 0 <= i < |tagSlugs| && Some(tagSlugs[i]) in slugs;
      var l :| 0 <= l < |slugs| && slugs[l] == Some(tagSlugs[i]);
      LastPositionExists(slugs, l);
      var k :| IsLastWithSlug(slugs, k) && slugs[k] == slugs[l];
      assert GroupSlug(m[i].0) == slugs[k].value;
    }
    if exists k :: IsLastWithSlug(slugs, k) && LastPagesFor(m, slugs[k].value).Some? {
      var k :| IsLastWithSlug(slugs, k) && LastPagesFor(m, slugs[k].value).Some?;
      var i :| 0 <= i < |m| && GroupSlug(m[i].0) == slugs[k].value;
      assert Some(tagSlugs[i]) == slugs[k];
    }
  }

  /** The pages the last tag with a slug carries are the ones written. */
  lemma {:induction false} LastPagesForIs(m: TagPages, i: int, slug: string)
    requires 0 <= i < |m| && GroupSlug(m[i].0) == slug
    requires forall j :: i < j < |m| ==> GroupSlug(m[j].0) != slug
    ensures LastPagesFor(m, slug) == Some(m[i].1)
  {
    var last := |m| - 1;
    if i < last {
      var init := m[..last];
      assert LastPagesFor(m, slug) == LastPagesFor(init, slug) by {
        assert GroupSlug(m[last].0) != slug;
      }
      assert forall j :: i < j < |init| ==> GroupSlug(init[j].0) != slug by {
        assert forall j :: i < j < |init| ==> init[j] == m[j];
      }
      LastPagesForIs(init, i, slug);
    }
  }

  /** Subgroup `k` after the merge: its slug is unchanged, and it differs from
      before only by its `pages`. */
  lemma UpdatedSubgroupKeeps(subs: seq<Json>, slugs: seq<Option<string>>, k: int, m: TagPages)
    requires |slugs| == |subs| && 0 <= k < |subs|
    ensures SubgroupSlug(UpdatedSubgroup(subs, slugs, k, m)) == SubgroupSlug(subs[k])
    ensures forall key :: key != "pages" ==> GetOr(UpdatedSubgroup(subs, slugs, k, m), key, JNull) == GetOr(subs[k], key, JNull)
    ensures UpdatedSubgroup(subs, slugs, k, m).JObj? == subs[k].JObj?
  {
    var r := UpdatedSubgroup(subs, slugs, k, m);
    UpdatedKeepsName(subs, slugs, k, m);
    assert SubgroupSlug(r) == SubgroupSlug(subs[k]) by {
      assert NameOf(r) == NameOf(subs[k]) && r.JObj? == subs[k].JObj?;
    }
  }

  /** The merge keeps the number, the order and the slugs of the subgroups,
      and changes no key of any subgroup but `pages`. */
  lemma SubgroupsKept(subs: seq<Json>, m: TagPages)
    ensures var r := UpdatedSubgroups(subs, SubgroupSlugs(subs), m);
      && |r| == |subs|
      && SubgroupSlugs(r) == SubgroupSlugs(subs)
      && (forall k, key :: 0 <= k < |subs| && key != "pages" ==> GetOr(r[k], key, JNull) == GetOr(subs[k], key, JNull))
      && (forall k :: 0 <= k < |subs| ==> r[k].JObj? == subs[k].JObj?)
  {
    var slugs := SubgroupSlugs(subs);
    var r := UpdatedSubgroups(subs, slugs, m);
    forall k | 0 <= k < |subs|
      ensures SubgroupSlugs(r)[k] == slugs[k]
      ensures forall key :: key != "pages" ==> GetOr(r[k], key, JNull) == GetOr(subs[k], key, JNull)
      ensures r[k].JObj? == subs[k].JObj?
    {
      UpdatedSubgroupKeeps(subs, slugs, k, m);
    }
  }

  /** Only a subgroup that the index keeps for its slug, and whose slug some
      tag has, can change. */
  lemma OnlyMatchedSubgroupsChange(subs: seq<Json>, m: TagPages)
    ensures var slugs := SubgroupSlugs(subs);
      var r := UpdatedSubgroups(subs, slugs, m);
      forall k :: 0 <= k < |subs| && r[k] != subs[k] ==>
        IsLastWithSlug(slugs, k) && exists i :: 0 <= i < |m| && Some(GroupSlug(m[i].0)) == slugs[k]
  {
  }

  lemma UpdatedAtMatched(subs: seq<Json>, slugs: seq<Option<string>>, m: TagPages, k: int, pages: seq<string>)
    requires |slugs| == |subs| && IsLastWithSlug(slugs, k) && LastPagesFor(m, slugs[k].value) == Some(pages)
    ensures UpdatedSubgroups(subs, slugs, m)[k] == WithPages(subs[k], pages)
  {
  }

  lemma IndexedIsObject(subs: seq<Json>, k: int)
    requires 0 <= k < |subs| && SubgroupSlugs(subs)[k].Some?
    ensures subs[k].JObj?
  {
  }

  /** The subgroup the index keeps for a slug gets exactly the pages of the
      last tag with that slug. */
  lemma MatchedSubgroupGetsPages(subs: seq<Json>, m: TagPages, k: int, i: int)
    requires IsLastWithSlug(SubgroupSlugs(subs), k)
    requires 0 <= i < |m| && Some(GroupSlug(m[i].0)) == SubgroupSlugs(subs)[k]
    requires forall j :: i < j < |m| ==> Some(GroupSlug(m[j].0)) != SubgroupSlugs(subs)[k]
    ensures GetOr(UpdatedSubgroups(subs, SubgroupSlugs(subs), m)[k], "pages", JNull) == PagesJson(m[i].1)
  {
    var slugs := SubgroupSlugs(subs);
    LastPagesForIs(m, i, slugs[k].value);
    UpdatedAtMatched(subs, slugs, m, k, m[i].1);
    IndexedIsObject(subs, k);
  }

  /** Restoring the old subgroups gives back the document: a document whose
      subgroups were replaced differs from the original nowhere else. */
  lemma RestoreGivesBack(docs: Json)
    requires MergeWellFormed(docs) && Locate(docs).Some?
    ensures var t := Locate(docs).value; SetSubgroups(docs, t.tab, t.group, t.subgroups) == docs
  {
    var t := Locate(docs).value;
    var nav := NavigationOf(docs);
    var tabs := TabsOf(docs).items;
    var tab := tabs[t.tab];
    var groups := GroupsOf(tab).items;
    var grp := groups[t.group];
    SetExistingSame(grp, "pages", JArr(t.subgroups));
    assert groups[t.group := grp] == groups;
    SetExistingSame(tab, "groups", JArr(groups));
    assert tabs[t.tab := tab] == tabs;
    SetExistingSame(nav, "tabs", JArr(tabs));
    SetExistingSame(docs, "navigation", nav);
  }

  /** When no tag's slug is indexed, every subgroup stays as it was. */
  lemma NothingWritten(subs: seq<Json>, slugs: seq<Option<string>>, m: TagPages)
    requires |slugs| == |subs| && !AnyMatch(slugs, TagSlugs(m))
    ensures UpdatedSubgroups(subs, slugs, m) == subs
  {
    UpdatedIffWritten(slugs, m);
    var r := UpdatedSubgroups(subs, slugs, m);
    forall k | 0 <= k < |subs|
      ensures r[k] == subs[k]
    {
    }
  }

  /** A merge that reports false leaves the document as it was: after each of
      the three early exits, and when no tag matched. */
  lemma MergeUnchangedUnlessUpdated(docs: Json, m: TagPages)
    requires MergeWellFormed(docs)
    ensures Locate(docs).None? ==> MergeSpec(docs, m) == (docs, false)
    ensures !MergeSpec(docs, m).1 ==> MergeSpec(docs, m).0 == docs
  {
    if Locate(docs).Some? && !MergeSpec(docs, m).1 {
      var t := Locate(docs).value;
      var slugs := SubgroupSlugs(t.subgroups);
      NothingWritten(t.subgroups, slugs, m);
      RestoreGivesBack(docs);
    }
  }

  /** An empty mapping updates nothing and leaves the document as it was. */
  lemma MergeEmptyMapping(docs: Json)
    requires MergeWellFormed(docs)
    ensures MergeSpec(docs, []) == (docs, false)
  {
    assert TagSlugs([]) == [];
    MergeUnchangedUnlessUpdated(docs, []);
  }

  /** The first match stays the first match when it is replaced by another
      item that matches. */
  lemma FirstWhereReplaced(items: seq<Json>, p: Json -> bool, i: nat, x: Json)
    requires FirstWhere(items, p) == Some(i) && p(x)
    ensures FirstWhere(items[i := x], p) == Some(i)
  {
    assert items[i := x][i] == x;
  }

  /** The Methods overview group with its subgroups replaced. */
  lemma GroupReplaced(grp: Json, subs: seq<Json>, subs': seq<Json>)
    requires IsMethodsOverview(grp) && SubgroupsOf(grp) == JArr(subs) && |subs'| == |subs|
    ensures var grp' := SetExisting(grp, "pages", JArr(subs'));
      IsMethodsOverview(grp') && SubgroupsOf(grp') == JArr(subs')
  {
    GetOrSetExisting(grp, "pages", JArr(subs'), "group", JNull);
    GetOrSetExisting(grp, "pages", JArr(subs'), "pages", JArr([]));
  }

  /** The Methods tab with its Methods overview group replaced by another
      Methods overview group. */
  lemma TabReplaced(tab: Json, gi: nat, grp': Json)
    requires tab.JObj? && Iterated(GroupsOf(tab)).Some? && Searchable(Iterated(GroupsOf(tab)).value)
    requires FindApiV2Group(tab) == Some(gi) && IsMethodsOverview(grp')
    ensures var groups' := GroupsOf(tab).items[gi := grp'];
      var tab' := SetExisting(tab, "groups", JArr(groups'));
      && tab'.JObj?
      && GroupsOf(tab') == JArr(groups')
      && Searchable(groups')
      && FindApiV2Group(tab') == Some(gi)
      && GetOr(tab', "tab", JNull) == GetOr(tab, "tab", JNull)
  {
    var groups := GroupsOf(tab).items;
    var groups' := groups[gi := grp'];
    assert Lookup(tab.fields, "groups").Some?;
    GetOrSetExisting(tab, "groups", JArr(groups'), "groups", JArr([]));
    GetOrSetExisting(tab, "groups", JArr(groups'), "tab", JNull);
    FirstWhereReplaced(groups, IsMethodsOverview, gi, grp');
    assert forall k :: 0 <= k < gi ==> groups'[k] == groups[k];
  }

  /** The documents with the Methods tab replaced by another Methods tab. */
  lemma DocsReplaced(docs: Json, ti: nat, tab': Json)
    requires docs.JObj? && NavigationOf(docs).JObj? && Iterated(TabsOf(docs)).Some?
    requires FindMethodsTab(docs) == Some(ti) && IsMethodsTab(tab')
    ensures var nav := NavigationOf(docs);
      var tabs' := TabsOf(docs).items[ti := tab'];
      var d := SetExisting(docs, "navigation", SetExisting(nav, "tabs", JArr(tabs')));
      && d.JObj?
      && NavigationOf(d) == SetExisting(nav, "tabs", JArr(tabs'))
      && NavigationOf(d).JObj?
      && TabsOf(d) == JArr(tabs')
      && FindMethodsTab(d) == Some(ti)
  {
    var nav := NavigationOf(docs);
    var tabs := TabsOf(docs).items;
    var tabs' := tabs[ti := tab'];
    var nav' := SetExisting(nav, "tabs", JArr(tabs'));
    assert Lookup(docs.fields, "navigation").Some?;
    GetOrSetExisting(docs, "navigation", nav', "navigation", JObj([]));
    assert Lookup(nav.fields, "tabs").Some?;
    GetOrSetExisting(nav, "tabs", JArr(tabs'), "tabs", JArr([]));
    FirstWhereReplaced(tabs, IsMethodsTab, ti, tab');
  }

  /** Replacing the subgroups by as many others, whose names are slugged
      without raising, leaves a document the merge runs on, with its target at
      the same place, now holding the new subgroups. */
  lemma ReplacedTarget(docs: Json, subs: seq<Json>)
    requires MergeWellFormed(docs) && Locate(docs).Some?
    requires |subs| == |Locate(docs).value.subgroups| && SubgroupsNamed(subs)
    ensures var t := Locate(docs).value;
      var d := SetSubgroups(docs, t.tab, t.group, subs);
      MergeWellFormed(d) && Locate(d) == Some(Target(t.tab, t.group, subs))
  {
    var t := Locate(docs).value;
    var tab := TabsOf(docs).items[t.tab];
    var grp := GroupsOf(tab).items[t.group];
    GroupReplaced(grp, t.subgroups, subs);
    var grp' := SetExisting(grp, "pages", JArr(subs));
    TabReplaced(tab, t.group, grp');
    var tab' := SetExisting(tab, "groups", JArr(GroupsOf(tab).items[t.group := grp']));
    DocsReplaced(docs, t.tab, tab');
    var d := SetSubgroups(docs, t.tab, t.group, subs);
    assert TabsOf(d).items[t.tab] == tab';
    assert GroupsOf(tab').items[t.group] == grp';
  }

  /** What the documents read back after their subgroups are replaced: the
      tabs with the Methods tab replaced, holding the groups with the Methods
      overview group replaced. */
  lemma ReplacedReads(docs: Json, ti: nat, gi: nat, subs: seq<Json>)
    requires TabsOf(docs).JArr? && ti < |TabsOf(docs).items|
    requires GroupsOf(TabsOf(docs).items[ti]).JArr? && gi < |GroupsOf(TabsOf(docs).items[ti]).items|
    ensures var tabs := TabsOf(docs).items;
      var groups := GroupsOf(tabs[ti]).items;
      var groups' := groups[gi := SetExisting(groups[gi], "pages", JArr(subs))];
      var tab' := SetExisting(tabs[ti], "groups", JArr(groups'));
      var d := SetSubgroups(docs, ti, gi, subs);
      && NavigationOf(d) == SetExisting(NavigationOf(docs), "tabs", JArr(tabs[ti := tab']))
      && TabsOf(d) == JArr(tabs[ti := tab'])
      && GroupsOf(tab') == JArr(groups')
  {
    var nav := NavigationOf(docs);
    var tabs := TabsOf(docs).items;
    var tab := tabs[ti];
    var groups := GroupsOf(tab).items;
    var groups' := groups[gi := SetExisting(groups[gi], "pages", JArr(subs))];
    var tab' := SetExisting(tab, "groups", JArr(groups'));
    var nav' := SetExisting(nav, "tabs", JArr(tabs[ti := tab']));
    // The keys on the way down are present: a default would be empty.
    assert docs.JObj? && Lookup(docs.fields, "navigation").Some?;
    GetOrSetExisting(docs, "navigation", nav', "navigation", JObj([]));
    assert nav.JObj? && Lookup(nav.fields, "tabs").Some?;
    GetOrSetExisting(nav, "tabs", JArr(tabs[ti := tab']), "tabs", JArr([]));
    assert tab.JObj? && Lookup(tab.fields, "groups").Some?;
    GetOrSetExisting(tab, "groups", JArr(groups'), "groups", JArr([]));
  }

  /** On given levels, a second chain of assignments overrides the first. */
  lemma RebuildTwice(docs: Json, nav: Json, tabs: seq<Json>, ti: nat, groups: seq<Json>, gi: nat,
                     subs: seq<Json>, subs': seq<Json>)
    requires ti < |tabs| && gi < |groups|
    ensures var groups' := groups[gi := SetExisting(groups[gi], "pages", JArr(subs))];
      var tabs' := tabs[ti := SetExisting(tabs[ti], "groups", JArr(groups'))];
      var nav' := SetExisting(nav, "tabs", JArr(tabs'));
      Rebuild(SetExisting(docs, "navigation", nav'), nav', tabs', ti, groups', gi, subs')
        == Rebuild(docs, nav, tabs, ti, groups, gi, subs')
  {
    var grp := groups[gi];
    var groups' := groups[gi := SetExisting(grp, "pages", JArr(subs))];
    var tabs' := tabs[ti := SetExisting(tabs[ti], "groups", JArr(groups'))];
    var nav' := SetExisting(nav, "tabs", JArr(tabs'));
    SetExistingTwice(grp, "pages", JArr(subs), JArr(subs'));
    var groups'' := groups[gi := SetExisting(grp, "pages", JArr(subs'))];
    assert groups'[gi := SetExisting(groups'[gi], "pages", JArr(subs'))] == groups'';
    SetExistingTwice(tabs[ti], "groups", JArr(groups'), JArr(groups''));
    var tabs'' := tabs[ti := SetExisting(tabs[ti], "groups", JArr(groups''))];
    assert tabs'[ti := SetExisting(tabs'[ti], "groups", JArr(groups''))] == tabs'';
    SetExistingTwice(nav, "tabs", JArr(tabs'), JArr(tabs''));
    SetExistingTwice(docs, "navigation", nav', SetExisting(nav, "tabs", JArr(tabs'')));
  }

  /** Replacing the subgroups a second time overrides the first replacement. */
  lemma ReplacedTwice(docs: Json, ti: nat, gi: nat, subs: seq<Json>, subs': seq<Json>)
    requires TabsOf(docs).JArr? && ti < |TabsOf(docs).items|
    requires GroupsOf(TabsOf(docs).items[ti]).JArr? && gi < |GroupsOf(TabsOf(docs).items[ti]).items|
    ensures var d := SetSubgroups(docs, ti, gi, subs);
      && TabsOf(d).JArr? && ti < |TabsOf(d).items|
      && GroupsOf(TabsOf(d).items[ti]).JArr? && gi < |GroupsOf(TabsOf(d).items[ti]).items|
      && SetSubgroups(d, ti, gi, subs') == SetSubgroups(docs, ti, gi, subs')
  {
    ReplacedReads(docs, ti, gi, subs);
    var nav := NavigationOf(docs);
    var tabs := TabsOf(docs).items;
    var groups := GroupsOf(tabs[ti]).items;
    RebuildTwice(docs, nav, tabs, ti, groups, gi, subs, subs');
  }

  /** Merging the merged subgroups again changes none of them. */
  lemma UpdatedAgain(subs: seq<Json>, slugs: seq<Option<string>>, m: TagPages, k: int)
    requires |slugs| == |subs| && 0 <= k < |subs|
    ensures UpdatedSubgroup(UpdatedSubgroups(subs, slugs, m), slugs, k, m) == UpdatedSubgroups(subs, slugs, m)[k]
  {
    var r := UpdatedSubgroups(subs, slugs, m);
    if IsLastWithSlug(slugs, k) {
      match LastPagesFor(m, slugs[k].value)
      case Some(pages) =>
        assert r[k] == WithPages(subs[k], pages);
        WithPagesTwice(subs[k], pages, pages);
      case None =>
    }
  }

  /** The merged subgroups have the names of the originals. */
  lemma UpdatedNamed(subs: seq<Json>, slugs: seq<Option<string>>, m: TagPages)
    requires |slugs| == |subs| && SubgroupsNamed(subs)
    ensures SubgroupsNamed(UpdatedSubgroups(subs, slugs, m))
  {
    var r := UpdatedSubgroups(subs, slugs, m);
    forall k | 0 <= k < |r| && r[k].JObj? && Truthy(NameOf(r[k]))
      ensures NameOf(r[k]).JStr?
    {
      UpdatedKeepsName(subs, slugs, k, m);
    }
  }

  /** A merged subgroup keeps its name and stays a dict or a non-dict. */
  lemma UpdatedKeepsName(subs: seq<Json>, slugs: seq<Option<string>>, k: int, m: TagPages)
    requires |slugs| == |subs| && 0 <= k < |subs|
    ensures NameOf(UpdatedSubgroup(subs, slugs, k, m)) == NameOf(subs[k])
    ensures UpdatedSubgroup(subs, slugs, k, m).JObj? == subs[k].JObj?
  {
    if IsLastWithSlug(slugs, k) && LastPagesFor(m, slugs[k].value).Some? {
      var pages := LastPagesFor(m, slugs[k].value).value;
      assert GetOr(WithPages(subs[k], pages), "group", JNull) == GetOr(subs[k], "group", JNull);
    }
  }

  /** The merged subgroups still slug without raising, and merging them again
      changes nothing. */
  lemma UpdatedFixpoint(subs: seq<Json>, m: TagPages)
    requires SubgroupsNamed(subs)
    ensures var slugs := SubgroupSlugs(subs);
      var r := UpdatedSubgroups(subs, slugs, m);
      SubgroupsNamed(r) && UpdatedSubgroups(r, slugs, m) == r
  {
    var slugs := SubgroupSlugs(subs);
    var r := UpdatedSubgroups(subs, slugs, m);
    forall k | 0 <= k < |r|
      ensures UpdatedSubgroup(r, slugs, k, m) == r[k]
    {
      UpdatedAgain(subs, slugs, m, k);
    }
    UpdatedNamed(subs, slugs, m);
  }

  /** Nothing outside the subgroups of the Methods overview group changes:
      the merged document has its target in the same place, and putting the
      old subgroups back gives the original document. */
  lemma MergeChangesOnlySubgroups(docs: Json, m: TagPages)
    requires MergeWellFormed(docs) && Locate(docs).Some?
    ensures var t := Locate(docs).value;
      var r := UpdatedSubgroups(t.subgroups, SubgroupSlugs(t.subgroups), m);
      var d := MergeSpec(docs, m).0;
      && MergeWellFormed(d)
      && Locate(d) == Some(Target(t.tab, t.group, r))
      && SetSubgroups(d, t.tab, t.group, t.subgroups) == docs
  {
    var t := Locate(docs).value;
    var r := UpdatedSubgroups(t.subgroups, SubgroupSlugs(t.subgroups), m);
    UpdatedFixpoint(t.subgroups, m);
    ReplacedTarget(docs, r);
    ReplacedTwice(docs, t.tab, t.group, r, t.subgroups);
    RestoreGivesBack(docs);
  }

  /** Merging the same mapping twice is merging it once: the second merge
      finds the same target and leaves the document and the result as they
      were. */
  lemma MergeIdempotent(docs: Json, m: TagPages)
    requires MergeWellFormed(docs)
    ensures MergeWellFormed(MergeSpec(docs, m).0)
    ensures MergeSpec(MergeSpec(docs, m).0, m) == MergeSpec(docs, m)
  {
    if Locate(docs).Some? {
      var t := Locate(docs).value;
      var slugs := SubgroupSlugs(t.subgroups);
      var r := UpdatedSubgroups(t.subgroups, slugs, m);
      var d := MergeSpec(docs, m).0;
      SubgroupsKept(t.subgroups, m);
      UpdatedFixpoint(t.subgroups, m);
      ReplacedTarget(docs, r);
      RestoreGivesBack(d);
    }
  }

  /** From the OpenAPI document to the docs: every subgroup the merge changes
      gets the non-empty, ascending pages of a tag with its slug, and every
      one of those pages lies under that subgroup's slug. */
  lemma WrittenPagesBelong(openapi: Json, subs: seq<Json>)
    ensures var m := ExtractSpec(openapi);
      var slugs := SubgroupSlugs(subs);
      var r := UpdatedSubgroups(subs, slugs, m);
      forall k :: 0 <= k < |subs| && r[k] != subs[k] ==>
        && slugs[k].Some?
        && LastPagesFor(m, slugs[k].value).Some?
        && var pages := LastPagesFor(m, slugs[k].value).value;
        && r[k] == WithPages(subs[k], pages)
        && pages != [] && StrictlyAscending(pages)
        && forall p :: p in pages ==> SplitPagePath(p).Some? && SplitPagePath(p).value.0 == slugs[k].value
  {
    var m := ExtractSpec(openapi);
    var slugs := SubgroupSlugs(subs);
    var r := UpdatedSubgroups(subs, slugs, m);
    forall k | 0 <= k < |subs| && r[k] != subs[k]
      ensures slugs[k].Some? && LastPagesFor(m, slugs[k].value).Some?
      ensures var pages := LastPagesFor(m, slugs[k].value).value;
        && r[k] == WithPages(subs[k], pages)
        && pages != [] && StrictlyAscending(pages)
        && forall p :: p in pages ==> SplitPagePath(p).Some? && SplitPagePath(p).value.0 == slugs[k].value
    {
      ExtractedPagesFor(openapi, slugs[k].value);
    }
  }

  /** The pages the extraction gives the last tag with a slug: non-empty,
      ascending, and all under that slug. */
  lemma ExtractedPagesFor(openapi: Json, slug: string)
    requires LastPagesFor(ExtractSpec(openapi), slug).Some?
    ensures var pages := LastPagesFor(ExtractSpec(openapi), slug).value;
      && pages != [] && StrictlyAscending(pages)
      && forall p :: p in pages ==> SplitPagePath(p).Some? && SplitPagePath(p).value.0 == slug
  {
    var m := ExtractSpec(openapi);
    var i := LastTagPages(m, slug);
    ExtractShape(openapi);
    assert GroupSlug(m[i].0) == slug;
  }

  /** The pages of the last tag with a slug are the pages of some entry with
      that slug. */
  lemma LastTagPages(m: TagPages, slug: string) returns (i: int)
    requires LastPagesFor(m, slug).Some?
    ensures 0 <= i < |m| && GroupSlug(m[i].0) == slug && LastPagesFor(m, slug) == Some(m[i].1)
  {
    var tagSlugs := TagSlugs(m);
    var i0 :| 0 <= i0 < |m| && GroupSlug(m[i0].0) == slug;
    assert tagSlugs[i0] == slug;
    i := LastIndexOf(tagSlugs, slug);
    assert forall j :: i < j < |m| ==> GroupSlug(m[j].0) == tagSlugs[j];
    LastPagesForIs(m, i, slug);
  }

}
