# autopop.py in Dafny

`autopop.py` keeps the API reference of a documentation site in step with an
OpenAPI description. It works in two stages:

- **Extraction.** It walks the `paths` of the OpenAPI document and builds a
  mapping from tag name to page paths, each one `api-reference/<group slug>/<page slug>`.
  The page slug is `<method>-<path with the slashes removed>`.
- **Merge.** It finds the "Methods" tab of the documentation navigation and,
  inside it, the "Methods overview" group. It indexes that group's subgroups
  by slug and overwrites the `pages` of every subgroup whose slug some tag has.
  It reports whether any subgroup was written.

This project models both stages and the slug helpers they use, and proves
what the script promises.

Modules:

- `Wrappers` (`wrappers.dfy`): `Option`.
- `Json` (`json.dfy`): JSON values as `json.load` produces them. Objects are
  key/value sequences in insertion order, as a Python dict keeps them. The
  module also has `dict.get`, `d[k] = v`, Python truthiness and what a `for`
  loop visits.
- `Text` (`text.dfy`): `strip`, `lower`, `lstrip("/")`, `replace(" ", "-")` and
  `replace("/", "")` on ASCII.
- `Sorted` (`sorted.dfy`): string order, and `sorted(set(xs))` as the unique
  strictly ascending list with the same members.
- `Slugs` (`slugs.dfy`) and `SlugCases` (`slug_cases.dfy`): `tag_to_group_slug`,
  `is_ignored_tag`, `generate_page_slug` and `to_page_path`, their laws, and the
  worked example from the source comments.
- `Extract` (`extract.dfy`): `extract_tagged_pages_from_openapi`.
  - The three nested loops are methods proved equal to a declarative
    specification, `ExtractSpec`.
  - That specification is proved sound and complete against "some operation
    yields this page for this tag".
- `Merge` (`merge.dfy`): `find_methods_tab`, `find_api_v2_group` and
  `update_docs_groups_with_pages`. The two loops of the merge are methods
  proved equal to the specification `MergeSpec`.
- `MergeProps` (`merge_props.dfy`): what the merge does to the document. It
  proves:
  - which subgroups change, and how;
  - what the result flag means;
  - that nothing outside the subgroup list changes;
  - that merging twice is merging once;
  - that extraction followed by the merge files every page under its
    subgroup's slug.

The merge mutates the loaded document in place. Here the document is a value,
and the merge returns the new document together with the flag. A `json.load`
tree shares no objects, so an in-place update and a rebuilt value agree. A
found tab, group or subgroup is referred to by its index in the list that
holds it.

The inputs on which the Python would raise are excluded by preconditions:
`OpenApiWellFormed`, `MergeWellFormed` and `SubgroupsNamed`. For example, a
group that is not a dict, seen before the "Methods overview" group is found,
is excluded; so is a truthy subgroup name that is not a string.

Two behaviours of the code are easy to miss:

- `tags` may be any truthy iterable. A dict contributes its keys and a string
  its characters.
- A "Methods overview" group without `pages` counts as having an empty list.
  The merge then runs and updates nothing; it is not one of the early exits.

## Model

| member | source | states |
|---|---|---|
| `Slugs.GroupSlug` | autopop.py:19-20 | a group slug contains no space and no upper-case letter, and neither starts nor ends with whitespace |
| `Slugs.GroupSlugIdempotent` | autopop.py:19-20 | slugging a slug gives the same slug |
| `Slugs.GroupSlugOfStripped` | autopop.py:19-20 | surrounding whitespace of a tag does not change its slug |
| `Slugs.GroupSlugIgnoresCase` | autopop.py:19-20 | tags differing only in letter case have the same slug |
| `SlugCases.GroupSlugOfWord` | autopop.py:19-20 | a tag without whitespace slugs to its lower-case form |
| `Slugs.IsIgnoredTag` | autopop.py:22-23 | a tag is ignored when its trimmed lower-case form is "public", "chat" or "websocket only", so an ignored tag's slug is "public", "chat" or "websocket-only" |
| `Slugs.IgnoredSlug` | autopop.py:16 | the three ignored names slug to "public", "chat" and "websocket-only" |
| `Slugs.IsIgnoredTagNormalised` | autopop.py:22-23 | whether a tag is ignored depends neither on letter case nor on surrounding whitespace |
| `Slugs.PageSlug` | autopop.py:25-29 | the page slug is the lower-cased method, "-", and the path with every "/" removed; after the method part it has no "/", and none at all when the method has none |
| `SlugCases.PageSlugTwoSegments` | autopop.py:27-29 | the page slug of `/a/b` is the lower-cased method, "-", and `a` followed by `b` |
| `SlugCases.PagePathExample` | autopop.py:25-33 | `GET /private/get_positions` tagged `Trading` gets the page path `api-reference/trading/get-privateget_positions` |
| `SlugCases.PageSlugCollision` | autopop.py:28 | the distinct endpoints `/a/b` and `/ab` get the same page slug |
| `Slugs.SplitJoined` | autopop.py:31-33 | splitting a page path at its last "/" undoes the joining of a group slug and a slash-free page slug |
| `Text.LastIndexOf` | autopop.py:31-33 | the position of the last "/" of a page path, which `SplitPagePath` (the inverse of `to_page_path`) cuts at: -1 exactly when there is none, and otherwise a "/" with none after it |
| `Text.LastIndexOfUnique` | autopop.py:31-33 | the "/" that `to_page_path` puts before a slash-free page slug is the last one, so `SplitPagePath` cuts there |
| `Slugs.PagePathRoundTrip` | autopop.py:31-33 | `ToPagePath` loses nothing: a page path determines the tag's group slug and the page slug it was built from |
| `Text.Lower` | autopop.py:20 | `lower()` keeps the length and leaves no upper-case letter |
| `Text.LowerKeepsSlash` | autopop.py:27 | lower-casing neither adds nor removes a "/" |
| `Text.LStripChar` | autopop.py:28 | `lstrip("/")` leaves a suffix, drops only "/" and leaves none at the front |
| `Text.Strip` | autopop.py:20 | the result of `strip()` neither starts nor ends with whitespace |
| `Text.LStripSuffix` | autopop.py:20 | `lstrip()` leaves a suffix of the string and drops only whitespace |
| `Text.RStripDropsSpaces` | autopop.py:20 | `rstrip()` drops only whitespace |
| `Text.StripLower` | autopop.py:20 | stripping and lower-casing commute |
| `Text.Replace` | autopop.py:20 | `replace(c, d)` keeps the length and leaves no `c` |
| `Text.Remove` | autopop.py:28 | `replace("/", "")` leaves no "/" and changes a string without "/" not at all |
| `Text.RemoveConcat` | autopop.py:28 | removing a character distributes over concatenation |
| `Text.RemoveAfterLStrip` | autopop.py:28 | removing every "/" makes the preceding `lstrip("/")` redundant |
| `Sorted.SortedSet` | autopop.py:73 | `sorted(set(xs))` is strictly ascending and has exactly the members of `xs` |
| `Sorted.SortedSetCanonical` | autopop.py:73 | any strictly ascending list with the members of `xs` is `sorted(set(xs))` |
| `Sorted.AscendingUnique` | autopop.py:73 | two strictly ascending lists with the same members are equal |
| `Sorted.Insert` | autopop.py:73 | inserting into a strictly ascending list keeps it strictly ascending and adds exactly the new member |
| `Sorted.LessTransitive` | autopop.py:73 | string order is transitive |
| `Sorted.LessTotal` | autopop.py:73 | two different strings are ordered one way or the other |
| `Json.Lookup` | autopop.py:59 | a dict lookup finds a value exactly when the key is present, and the value is the one stored under it |
| `Json.Put` | autopop.py:126 | after `d[key] = v`, `key` holds `v` and every other key holds what it held |
| `Json.PutPut` | autopop.py:126 | a second assignment to the same key overrides the first |
| `Json.SetExistingSame` | autopop.py:126 | writing back the value a key holds leaves the dict as it was |
| `Json.GetOrSetExisting` | autopop.py:126 | after assigning an existing key, `get` (`GetOr`) returns the new value for that key and the old value for every other key |
| `Json.Iterated` | autopop.py:64 | a `for` loop visits a list's items or the keys or characters of a dict or string, and raises on anything else |
| `Extract.IsHttpMethod` | autopop.py:54 | a key that passes the case-insensitive method filter has no "/" |
| `Extract.TagsOf` | autopop.py:59-61 | the tags looped over are none unless the operation's `tags` is truthy, and when it is truthy and iterable they are exactly what a `for` loop over it visits |
| `Extract.Append` | autopop.py:69 | appending to the defaultdict adds a new tag at the end, extends only that tag's list, and keeps the order of the other keys |
| `Extract.AppendDistinct` | autopop.py:69 | appending to the defaultdict never creates a second entry for a tag |
| `Extract.AppendMembers` | autopop.py:69 | after an append the tags are the old ones plus the new tag, and a tag's pages are its old pages plus the appended page when it is that tag |
| `Extract.AppendAllSnoc` | autopop.py:69 | appending one more pair is one more `append` call |
| `Extract.PagesForEntry` | autopop.py:72-73 | when each tag occurs once, a tag's lookup gives its own entry's list |
| `Extract.AppendAllConcat` | autopop.py:49-69 | appending two runs of pairs is appending their concatenation |
| `Extract.GroupedFacts` | autopop.py:46-69 | after the loops, each tag occurs once, the tags are those of the pairs, and a tag's list holds exactly its pages |
| `Extract.GroupedSnoc` | autopop.py:69 | grouping one more pair is one more `append` |
| `Extract.GroupedDistinct` | autopop.py:46-69 | the defaultdict built by the loops has each tag once |
| `Extract.GroupedKeys` | autopop.py:46-69 | the defaultdict's tags are exactly the tags of the appended pairs |
| `Extract.GroupedKeyStep` | autopop.py:69 | one more `append` adds its tag to the keys and no other |
| `Extract.GroupedPages` | autopop.py:46-69 | a tag's list in the defaultdict holds exactly the pages appended for it |
| `Extract.FinalizeFacts` | autopop.py:71-73 | the final loop keeps the tags and their order and replaces each list by `sorted(set(...))` |
| `Extract.TagPairsMembers` | autopop.py:64-69 | an operation's tags yield a (tag, page) pair exactly when the tag is listed, is not ignored, and the page is the tag's page path for the page slug |
| `Extract.OperationPairsMembers` | autopop.py:56-69 | an operation yields a (tag, page) pair exactly when it passes the method, dict and truthy-tags filters and one of its tags produces the pair |
| `Extract.MethodPairsMembers` | autopop.py:53-69 | a Path Item yields a pair exactly when one of its operations does |
| `Extract.PathPairsMembers` | autopop.py:49-69 | the document yields a pair exactly when one of its Path Items does |
| `Extract.ExtractSoundComplete` | autopop.py:49-69 | a page is listed under a tag exactly when some operation under one of the seven method keys, a dict tagged with that unignored tag, has that page as the tag's page path |
| `Extract.ExtractSpec` | autopop.py:44-75 | the extracted mapping lists each tag once |
| `Extract.ProducedPageSplits` | autopop.py:59-69 | a produced page belongs to an unignored tag and splits back to that tag's group slug |
| `Extract.OperationPageSplits` | autopop.py:25-33 | the page path of an operation splits back into the tag's group slug and the operation's page slug |
| `Extract.ExtractShape` | autopop.py:44-75 | each tag occurs once and is not ignored; its list is non-empty and strictly ascending (sorted, no repeats); every page in it splits back to the tag's group slug |
| `Extract.IgnoredTagsAbsent` | autopop.py:65-66 | an ignored tag is never a key of the result |
| `Extract.ExtractEmptyIffNothingTagged` | autopop.py:44-75 | the result is empty exactly when no operation yields any page for any tag |
| `Extract.AppendTagPages` | autopop.py:64-69 | the loop over an operation's tags appends exactly that operation's (tag, page) pairs |
| `Extract.TagStep` | autopop.py:64-69 | one turn of the tag loop skips an ignored tag and otherwise appends the tag's page path, which is appending that tag's pair |
| `Extract.AppendPathItemPages` | autopop.py:53-69 | the loop over a Path Item's keys appends exactly the pairs of its operations, in order |
| `Extract.MethodStep` | autopop.py:53-69 | one turn of the method loop appends exactly the pairs of that one method entry |
| `Extract.ExtractTaggedPages` | autopop.py:44-75 | the two loops compute `ExtractSpec`: the grouped pairs with each list sorted and deduplicated |
| `Merge.FirstWhere` | autopop.py:79-82 | a linear search returns the first item that matches, or none when no item matches |
| `Merge.FindMethodsTab` | autopop.py:77-82 | the result is the first tab that is a dict named "Methods" (`IsMethodsTab`); no result means no tab is one; only a list of tabs can hold a result |
| `Merge.FindApiV2Group` | autopop.py:84-89 | the result is the first group named "Methods overview" (`IsMethodsOverview`); no result means no group is one |
| `Merge.Locate` | autopop.py:92-105 | the merge target is found (tab, group and a list of subgroups) unless one of the three early exits applies |
| `Merge.MergeSpec` | autopop.py:91-105 | each of the three early exits returns the document unchanged and false |
| `Merge.LastPagesFor` | autopop.py:119-127 | some pages are written for a slug exactly when some tag of the mapping has that slug |
| `Merge.LastPagesForSnoc` | autopop.py:119-126 | a later tag with the slug overrides the pages of earlier ones; a tag with another slug changes nothing |
| `Merge.PagesJson` | autopop.py:126 | the written list holds the page paths in order |
| `Merge.LastWithSlugUnique` | autopop.py:115 | for each slug the index keeps one subgroup: the last with that slug |
| `Merge.WithPages` | autopop.py:126 | after `group_obj["pages"] = pages` a dict subgroup's `pages` reads back as the list written, and every other key of it reads as before |
| `Merge.WithPagesTwice` | autopop.py:126 | writing `pages` twice leaves the second list |
| `Merge.AnyMatchSnoc` | autopop.py:127 | one more tag sets the flag exactly when its slug is in the index |
| `Merge.ApplyStep` | autopop.py:119-127 | one turn of the tag loop overwrites the pages of the indexed subgroup with that tag's slug, changes nothing else, and sets the flag exactly when the slug is indexed |
| `Merge.UnmatchedTagStep` | autopop.py:121-124 | a tag whose slug is not indexed changes no subgroup |
| `Merge.MatchedTagStep` | autopop.py:121-126 | a tag whose slug is indexed overwrites the pages of that one subgroup, as `UpdatedSubgroup` says |
| `Merge.IndexStep` | autopop.py:109-115 | one turn of the index loop keeps every seen slug mapped to its last subgroup |
| `Merge.IndexDone` | autopop.py:107-115 | after the whole loop, every indexed slug points to the last subgroup with that slug |
| `Merge.IndexSubgroups` | autopop.py:107-115 | the index maps every slug of a dict subgroup with a truthy name to the last subgroup with that slug, and holds nothing else |
| `Merge.ApplyPages` | autopop.py:117-129 | the tag loop gives the subgroups of `MergeSpec` and sets the flag exactly when some tag's slug is indexed |
| `Merge.UpdateDocsGroupsWithPages` | autopop.py:91-129 | the method leaves the document and the result of `MergeSpec`: the three early exits, then the two loops |
| `MergeProps.AnyMatchExists` | autopop.py:118-129 | the result is true exactly when some tag's slug is the slug of an indexed subgroup |
| `MergeProps.UpdatedIffWritten` | autopop.py:117-129 | the result is true exactly when some subgroup has its pages written |
| `MergeProps.LastPositionExists` | autopop.py:115 | every slug of a subgroup has a last subgroup carrying it, the one the index keeps |
| `MergeProps.LastPagesForIs` | autopop.py:119-127 | a subgroup gets the pages of the last tag with its slug |
| `MergeProps.UpdatedSubgroupKeeps` | autopop.py:126 | a written subgroup keeps its slug (`SubgroupSlug`) and every key other than `pages` |
| `MergeProps.UpdatedKeepsName` | autopop.py:126 | a subgroup keeps its name and stays a dict through the merge |
| `MergeProps.UpdatedNamed` | autopop.py:109-115 | the merged subgroups still carry names the slug function accepts |
| `MergeProps.SubgroupsKept` | autopop.py:117-129 | the merge keeps the number, order and slugs of the subgroups, and every key of them other than `pages` |
| `MergeProps.OnlyMatchedSubgroupsChange` | autopop.py:119-127 | only a subgroup that the index keeps for its slug, and whose slug some tag has, can change |
| `MergeProps.MatchedSubgroupGetsPages` | autopop.py:119-127 | the subgroup the index keeps for a tag's slug gets exactly the pages of the last tag with that slug |
| `MergeProps.UpdatedAtMatched` | autopop.py:119-126 | the subgroup the index keeps for a slug gets the pages looked up for that slug |
| `MergeProps.NothingWritten` | autopop.py:117-129 | when no tag's slug is indexed, no subgroup changes |
| `MergeProps.RestoreGivesBack` | autopop.py:126 | writing back the subgroups the document holds changes nothing |
| `MergeProps.MergeUnchangedUnlessUpdated` | autopop.py:91-129 | after each early exit the result is false and the document unchanged; a false result always means an unchanged document |
| `MergeProps.MergeEmptyMapping` | autopop.py:117-129 | an empty mapping gives false and leaves the document as it was |
| `MergeProps.FirstWhereReplaced` | autopop.py:79-89 | a found item replaced by another that still matches is still the one found |
| `MergeProps.ReplacedTarget` | autopop.py:91-105 | after the subgroups are replaced, the merge finds its target in the same place, holding the new subgroups |
| `MergeProps.GroupReplaced` | autopop.py:84-89 | a "Methods overview" group with new subgroups is still that group and holds the new subgroups |
| `MergeProps.TabReplaced` | autopop.py:84-89 | a tab whose found group is replaced by a "Methods overview" group still finds it at the same place |
| `MergeProps.DocsReplaced` | autopop.py:77-82 | a document whose found tab is replaced by a "Methods" tab still finds it at the same place |
| `MergeProps.ReplacedReads` | autopop.py:78-102 | after a write of the subgroups, the navigation, tabs, groups and subgroups read back as written |
| `MergeProps.ReplacedTwice` | autopop.py:126 | a second replacement of the subgroups overrides the first |
| `MergeProps.RebuildTwice` | autopop.py:126 | rebuilding the document twice at the same place keeps only the second subgroup list |
| `MergeProps.UpdatedFixpoint` | autopop.py:117-129 | the merged subgroups still slug without raising, and merging them again with the same mapping changes nothing |
| `MergeProps.UpdatedAgain` | autopop.py:117-129 | a merged subgroup merged again with the same mapping stays as it is |
| `MergeProps.MergeChangesOnlySubgroups` | autopop.py:91-129 | nothing outside the subgroup list changes: putting the old subgroups back into the merged document gives the original |
| `MergeProps.MergeIdempotent` | autopop.py:91-129 | merging the same mapping a second time gives the same document and the same result |
| `MergeProps.WrittenPagesBelong` | autopop.py:44-129 | after extraction and merge, every changed subgroup holds the non-empty, ascending pages of the last tag with its slug, and each of those pages lies under that subgroup's slug |
| `MergeProps.ExtractedPagesFor` | autopop.py:71-73 | the extracted pages of the last tag with a slug are non-empty, ascending and filed under that slug |
| `MergeProps.LastTagPages` | autopop.py:119-127 | the pages found for a slug are those of an entry with that slug |

## Left out

- `load_json`, `save_json`, `main` and the path constants (autopop.py:10-13, 35-42, 131-153). These are file reads and writes, JSON text parsing and formatting, and exit codes. The model starts from the loaded values and ends at the merge result.
- The `print` diagnostics (autopop.py:94, 99, 104). The only trace they leave in the model is the false result of the early exits.
- Full Unicode `str.strip` and `str.lower`. Whitespace and case are the ASCII ones.
- Python exceptions. Inputs on which the code would raise are excluded by the preconditions `OpenApiWellFormed`, `MergeWellFormed` and `SubgroupsNamed`; raising is not modelled. Examples: a `paths` that is not a dict, a non-string tag, a non-dict group met before the target group, a truthy subgroup name that is not a string.
- JSON numbers are integers. Floats do not influence the transform.
- Repeated keys in a JSON object. `json.load` keeps one pair per key (the last value given for it), and the model assumes objects in that form. On an object value with a repeated key, lookups (`Lookup`, `GetOr`) read the first pair, while loops (`Iterated`, the Path Item loop) visit every pair.
- Merge.UpdateDocsGroupsWithPages: returns the new document instead of mutating the loaded one. Aliasing is not captured: the written `pages` list is the same object as the mapping's list in Python, which is harmless because nothing mutates it afterwards.
- Merge.IndexSubgroups: among subgroups with the same slug the last one wins, as in the source. No property is built on that choice beyond its statement.
