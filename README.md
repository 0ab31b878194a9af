# outpost.django.campusonline in Dafny

This project models the parts of the `outpost.django.campusonline` Django app that carry real logic. Most of the app is configuration over PostgreSQL materialised views of the CAMPUSonline student information system; the logic in it is covered here as five groups:

- **Bulletins** (`bulletins.dfy`).
  - The mutable page record is a class, `BulletinPage`. `BulletinPage.Extract` sets `clean` and `text` from a page's text layer, or from its OCR text when the stripped layer is not longer than the threshold.
  - The `(bulletin, index)`-keyed page table is a class, `PageTable`, with `GetOrCreate` and `Save`.
  - `Bulletin.extract` and `Bulletin.update` are loops over those objects. They are proved against the functions `ExtractSpec` and `UpdateSpec`, and properties of those functions are proved as lemmas.
- **Read-side access rules.**
  - Person and course-group-term filters (`filters.dfy`).
  - Querysets and serializer choices of the API view sets (`api.dfy`).
  - The anonymous and authenticated field sets and `expandable_fields` of the serializers, plus `get_avatar` and `get_mobile` (`serializers.dfy`).
  - The records these work on are in `records.dfy`.
- **Tasks.**
  - The LINZ XML export `XMLTasks.hydrate` (`hydrate.dfy`): it turns flat `stpl`/`fach`/`ghk`/`lv`/`pv` rows into the STPL→FACH→GHK dataclass tree. It is a method proved against `HydrateSpec`.
  - The schema's `required`/`min_occurs` rules (`linz.dfy`), stated as a validity predicate.
  - `SynchronizationTasks.usernames` (`usernames.dfy`): writes the two-way username↔pk map into a cache (`cache.dfy`).
- **Materialised views of six migrations.**
  - 0031 `campusonline_function`, 0054 `campusonline_person`, 0059 `campusonline_roomallocation`, 0063 `campusonline_student`, 0066 `campusonline_country` and the 0069 exam views.
  - Each view is a function from source rows to view rows, using PostgreSQL semantics for the parts they use (`sql.dfy`, `query.dfy`, `text.dfy`):
    - NULL propagation and `CASE`;
    - `CONCAT_WS`;
    - `numeric::integer`;
    - `encode(..., 'hex')`;
    - `hstore`;
    - `DATE`;
    - left joins;
    - `GROUP BY` with `MIN`/`MAX`.
- **Migration composition** (`ddl.dfy`).
  - A catalog of tables, views and indexes, with the DDL steps the migrations use.
  - `RunSQL([forward for forward, reverse in ops], [reverse for forward, reverse in reversed(ops)])` is `Forwards`/`Reverses`.
  - The general lemma: if every pair's reverse undoes its forward along the way, the reverse list undoes the forward list.
  - Each migration module instantiates the lemma for its own operations.

SQL NULL is `Option`, a queryset is a sequence of records, a cache is a map from keys to values. The download, the PDF text layer, OCR output, the SHA-1 digest, the phone-number library and the XML renderer are parameters of the model.

## Model

| member | source | states |
|---|---|---|
| Records.DisplayParts | src/outpost/django/campusonline/models.py:600-604 | the display always ends in "first last"; it is longer than that exactly when the title is truthy, and then the prefix is "title " |
| Records.DisplayDeterminesTitle | src/outpost/django/campusonline/models.py:600-604 | two students with the same names and the same display agree on whether they have a title, and on the title itself |
| Bulletins.ExtractedRow | src/outpost/django/campusonline/models.py:864-887 | extracting a page leaves `harvest` alone and always stores a stripped text |
| Bulletins.ExtractedRowIdempotent | src/outpost/django/campusonline/models.py:864-887 | the extracted row depends only on the page and the threshold, so extracting again changes nothing |
| Bulletins.BulletinPage.constructor | src/outpost/django/campusonline/models.py:848-855 | a page object carries its bulletin, index and stored fields |
| Bulletins.BulletinPage.Extract | src/outpost/django/campusonline/models.py:864-887 | `clean` holds iff the stripped text layer is longer than the threshold; then `text` is that stripped layer, otherwise it is the stripped OCR text; `harvest` is unchanged |
| Bulletins.PageTable.constructor | src/outpost/django/campusonline/models.py:857-859 | the table starts with the given `(bulletin, index)`-keyed rows |
| Bulletins.PageTable.GetOrCreate | src/outpost/django/campusonline/models.py:828-830 | `created` holds iff no row had that `(bulletin, index)`; a created page has the default row, an existing one its stored row; the table then has exactly one row for that key |
| Bulletins.PageTable.Save | src/outpost/django/campusonline/models.py:833 | saving writes the page's row under its own `(bulletin, index)` key and changes no other row |
| Bulletins.Found | src/outpost/django/campusonline/models.py:828-830 | a lookup is `Some` exactly for stored keys, with the stored row |
| Bulletins.PageStepEffect | src/outpost/django/campusonline/models.py:827-833 | one loop step adds exactly the key `(b, n)`, stores the extracted row there when the page was new or `harvest && !clean`, otherwise keeps the stored row |
| Bulletins.Untouched | src/outpost/django/campusonline/models.py:827-833 | pages of other bulletins, and pages of this one at or past the loop position, are left as they were |
| Bulletins.Handled | src/outpost/django/campusonline/models.py:827-833 | every page index already passed by the loop holds the outcome of that page's step |
| Bulletins.ExtractBulletin | src/outpost/django/campusonline/models.py:819-833 | the loop over the document's pages leaves the table equal to `ExtractSpec` of the old table |
| Bulletins.ExtractWithoutDocument | src/outpost/django/campusonline/models.py:820-826 | when the download gives no content, or the content does not parse, no page is created or changed |
| Bulletins.ExtractBulletinEffect | src/outpost/django/campusonline/models.py:827-833 | after `extract` every document page index has exactly one row, holding the extracted row iff it was new or `harvest && !clean`; all other rows are unchanged |
| Bulletins.ExtractIdempotent | src/outpost/django/campusonline/models.py:819-833 | running `extract` twice on the same document gives the same table as running it once |
| Bulletins.Update | src/outpost/django/campusonline/models.py:835-840 | `update` changes nothing unless the refreshed model is `Bulletin`, and then runs `extract` for every bulletin in order |
| Bulletins.UpdateTouchesOnlyListed | src/outpost/django/campusonline/models.py:835-840 | rows of bulletins not in the iterated list are neither added nor changed by `update` |
| Filters.FilterName | src/outpost/django/campusonline/filters.py:256-261 | a search shorter than four characters gives no persons; otherwise a person is kept iff the first or last name contains the value ignoring case; the result is a subsequence of the input |
| Filters.FilterNameAsWrittenFailsShortSearches | src/outpost/django/campusonline/filters.py:257-258 | the filter as written fails exactly on searches shorter than four characters and otherwise agrees with `FilterName` |
| Filters.FilterNameShortSearchCounterexample | src/outpost/django/campusonline/filters.py:258 | for the search "mai" the filter as written raises an attribute error for `empty`, while the intended result is empty |
| Filters.FilterNameNarrows | src/outpost/django/campusonline/filters.py:259-261 | a search containing, ignoring case, a shorter search of valid length keeps only persons that shorter search keeps |
| Filters.FilterVirtual | src/outpost/django/campusonline/filters.py:450-455 | `virtual=true` keeps exactly the terms whose room is in the virtual-room list, `virtual=false` exactly the others; each result is a subsequence of the input |
| Filters.FilterVirtualPartition | src/outpost/django/campusonline/filters.py:450-455 | the `true` and `false` results together are the input as a multiset |
| Filters.FilterVirtualDefault | src/outpost/django/campusonline/conf.py:10 | with the default empty room list `virtual=true` gives nothing and `virtual=false` gives everything |
| Api.PersonQueryset | src/outpost/django/campusonline/api.py:159-164 | authenticated users see every person; anonymous users see exactly the employed ones; the result is a subsequence |
| Api.AnonymousListingsOnlyEmployed | src/outpost/django/campusonline/api.py:159-164 | every record in an anonymous person listing has `employed` set |
| Api.SerializerClass | src/outpost/django/campusonline/api.py:111-115 | the person, organization and student endpoints each pick their authenticated serializer iff the user is authenticated, and their default serializer otherwise |
| Api.AuthenticatedSeesMore | src/outpost/django/campusonline/api.py:150-154 | for each of the three view sets the authenticated serializer shows strictly more fields than the anonymous one |
| Api.StudentSerializerFor | src/outpost/django/campusonline/api.py:185-191 | the student endpoint refuses exactly the unauthenticated users |
| Api.StudentResponsesAreAuthenticated | src/outpost/django/campusonline/api.py:185-191 | every student response that gets through the permission check uses `AuthenticatedStudentSerializer` |
| Api.EventQueryset | src/outpost/django/campusonline/api.py:250-251 | the event listing holds exactly the events with `show_end >= now`, as a subsequence |
| Api.EventQuerysetShrinks | src/outpost/django/campusonline/api.py:250-251 | an event listed later was also listed earlier |
| Api.PermittedListExpansionsExist | src/outpost/django/campusonline/api.py:103-109 | for authenticated users of the person and organization view sets, every permitted list expansion is an expansion the serializer offers |
| Api.AnonymousListDropsRelations | src/outpost/django/campusonline/api.py:103-155 | for anonymous users, a person listing expands exactly the requested ones of classifications, expertise, knowledge and education, an organization listing exactly the requested ones of publication authorship, type and parent; the other permitted names are dropped |
| Api.ExamModeNotListExpandableAsWritten | src/outpost/django/campusonline/api.py:405 | with the serializer as written, neither "mode" nor "modes" can be expanded in an exam list |
| Api.ExamModeListExpandable | src/outpost/django/campusonline/serializers.py:539 | with the expansion named "mode", a request for it in an exam list expands it with the mode serializer |
| Serializers.FieldSetConcat | src/outpost/django/campusonline/serializers.py:282-291 | concatenating field tuples unites their field sets |
| Serializers.Fields | src/outpost/django/campusonline/serializers.py:227-248 | a serializer without a field list has no fields; every field list contains "id" |
| Serializers.PersonPrivateFieldsAdded | src/outpost/django/campusonline/serializers.py:282-291 | authenticated person fields are the anonymous fields plus email, sex, mobile, functions, organizations, organizations_leave and employed |
| Serializers.PersonPrivateFieldsHidden | src/outpost/django/campusonline/serializers.py:227-248 | the anonymous person fields include none of those seven |
| Serializers.PersonFieldsSplit | src/outpost/django/campusonline/serializers.py:227-291 | the anonymous person fields are a strict subset of the authenticated ones, disjoint from the added seven |
| Serializers.PersonFieldsRepeatCard | src/outpost/django/campusonline/serializers.py:227-248 | the anonymous person tuple lists "card" twice (twenty entries), so field lists are compared as sets |
| Serializers.OrganizationFieldsSplit | src/outpost/django/campusonline/serializers.py:179-180 | authenticated organization fields add exactly persons and persons_leave, which the anonymous ones lack |
| Serializers.StudentFieldsSplit | src/outpost/django/campusonline/serializers.py:374-379 | authenticated student fields add exactly email and immunized, which the anonymous ones lack |
| Serializers.ExpandedPersonSerializer | src/outpost/django/campusonline/serializers.py:73-86 | an expanded person uses the authenticated serializer iff the request user is authenticated |
| Serializers.AuthenticatedExpansionsExtend | src/outpost/django/campusonline/serializers.py:263-280 | the authenticated person and organization serializers offer the anonymous expansions plus exactly the private relations |
| Serializers.ExpandedPersonsFollowAuthentication | src/outpost/django/campusonline/serializers.py:344-361 | in every serializer that expands persons, the person serializer chosen is the authenticated one iff the user is authenticated |
| Serializers.GetAvatar | src/outpost/django/campusonline/serializers.py:293-300 | None when there is no private avatar blob; otherwise the avatar path keyed by the hash, made absolute only when a request is present |
| Serializers.GetAvatarSeparatesHashes | src/outpost/django/campusonline/serializers.py:293-300 | two persons with avatars get the same avatar URL only when their hashes are equal |
| Serializers.GetMobile | src/outpost/django/campusonline/serializers.py:302-307 | None when there is no number or it does not parse, otherwise the international format of the parsed number |
| Caches.Cache.constructor | src/outpost/django/campusonline/tasks.py:31-32 | a cache starts with the given entries |
| Caches.Cache.Set | src/outpost/django/campusonline/tasks.py:38 | `set` binds one key and leaves the rest of the cache unchanged |
| SynchronizationTasks.PersonAccounts | src/outpost/django/campusonline/tasks.py:37-40 | one (pk, username) account per person, in queryset order |
| SynchronizationTasks.StudentAccounts | src/outpost/django/campusonline/tasks.py:42-45 | one (pk, username) account per student, in queryset order |
| SynchronizationTasks.SyncAccounts | src/outpost/django/campusonline/tasks.py:38-39 | the loop over one class's accounts leaves the cache equal to the specification fold |
| SynchronizationTasks.Usernames | src/outpost/django/campusonline/tasks.py:29-45 | without a "meduniverse" cache no cache changes; otherwise that cache receives the person entries and then the student entries |
| SynchronizationTasks.LastWithUsername | src/outpost/django/campusonline/tasks.py:38 | finds the last account whose formatted username is the given name, or reports that none has it |
| SynchronizationTasks.LastWithPk | src/outpost/django/campusonline/tasks.py:39 | finds the last account with the given pk, or reports that none has it |
| SynchronizationTasks.KeysDistinct | src/outpost/django/campusonline/tasks.py:38-39 | a username key never equals an id key; username keys are equal iff the formatted usernames are; id keys are equal iff the pks are |
| SynchronizationTasks.SyncedUsername | src/outpost/django/campusonline/tasks.py:38 | after the sync, `<Class>:username:<u>` holds the pk of the last account with that username, or its old entry when there is none |
| SynchronizationTasks.SyncedId | src/outpost/django/campusonline/tasks.py:39 | after the sync, `<Class>:id:<pk>` holds the username of the last account with that pk, or its old entry when there is none |
| SynchronizationTasks.SyncedKeepsOtherClasses | src/outpost/django/campusonline/tasks.py:42-45 | syncing one class leaves every key outside that class's prefix as it was |
| SynchronizationTasks.PersonUsernameLastWins | src/outpost/django/campusonline/tasks.py:37-40 | with duplicate usernames the pk of the person iterated last is stored |
| SynchronizationTasks.NoneUsernameCollides | src/outpost/django/campusonline/tasks.py:38 | a missing username and the username "None" share one cache key, because the f-string prints None as "None" |
| XmlTasks.Zip | src/outpost/django/campusonline/tasks.py:55-57 | a zipped row has exactly the column names that have a value |
| XmlTasks.FetchDict | src/outpost/django/campusonline/tasks.py:55-57 | one dictionary per result row |
| XmlTasks.ZipLookup | src/outpost/django/campusonline/tasks.py:55-57 | with distinct column names each column maps to its own value |
| XmlTasks.FetchDictColumns | src/outpost/django/campusonline/tasks.py:55-57 | every fetched row has exactly the cursor's columns as keys |
| XmlTasks.Params | src/outpost/django/campusonline/tasks.py:86-88 | the query parameters are the outer row's values of the lower-cased keys, in key order |
| XmlTasks.WhereHoldsPairsKeys | src/outpost/django/campusonline/tasks.py:58-59 | the `name=%s AND ...` condition with those parameters holds iff the row equals the outer row on every key column, with SQL `=` never matching NULL |
| XmlTasks.Select | src/outpost/django/campusonline/tasks.py:83-89 | the selected rows are exactly the fetched rows meeting the condition |
| XmlTasks.KeyOrderIrrelevant | src/outpost/django/campusonline/tasks.py:58-59 | any order of the key set gives the same rows, so iterating a Python set is harmless |
| XmlTasks.LowerOfLetters | src/outpost/django/campusonline/tasks.py:87 | lower-casing a key maps it letter by letter |
| XmlTasks.KeyColumns | src/outpost/django/campusonline/tasks.py:63-73 | the lower-cased FACH and GHK join keys are the key column names |
| XmlTasks.Copied | src/outpost/django/campusonline/tasks.py:79-81 | only attributes the dataclass declares, and only truthy values, are copied |
| XmlTasks.Without | src/outpost/django/campusonline/tasks.py:91 | set difference on column names |
| XmlTasks.CopyAttributes | src/outpost/django/campusonline/tasks.py:79-81 | the copying loop yields the attributes `Copied` describes |
| XmlTasks.StplsOf | src/outpost/django/campusonline/tasks.py:76-108 | one STPL per stpl row |
| XmlTasks.LvsOf | src/outpost/django/campusonline/tasks.py:110-117 | one LV per lv row |
| XmlTasks.PvsOf | src/outpost/django/campusonline/tasks.py:119-126 | one PV per pv row |
| XmlTasks.HydrateSpec | src/outpost/django/campusonline/tasks.py:75-126 | the export has one STPL, LV and PV per row of its table |
| XmlTasks.RowColumns | src/outpost/django/campusonline/tasks.py:55-57 | a fetched row has exactly its table's columns |
| XmlTasks.BuildGhk | src/outpost/django/campusonline/tasks.py:101-105 | builds the GHK `GhkOf` describes from one ghk row |
| XmlTasks.BuildGhks | src/outpost/django/campusonline/tasks.py:101-106 | builds the GHK list of a FACH in result order |
| XmlTasks.BuildFach | src/outpost/django/campusonline/tasks.py:89-107 | builds one FACH with its GHK children |
| XmlTasks.BuildFachs | src/outpost/django/campusonline/tasks.py:89-107 | builds the FACH list of an STPL in result order |
| XmlTasks.BuildStpl | src/outpost/django/campusonline/tasks.py:77-108 | builds one STPL with its FACH children |
| XmlTasks.BuildStpls | src/outpost/django/campusonline/tasks.py:75-108 | builds the STPL list in result order |
| XmlTasks.BuildLvs | src/outpost/django/campusonline/tasks.py:110-117 | builds the LV list in result order |
| XmlTasks.BuildPvs | src/outpost/django/campusonline/tasks.py:119-126 | builds the PV list in result order |
| XmlTasks.BuildExchange | src/outpost/django/campusonline/tasks.py:61-126 | the whole tree built by the loops equals `HydrateSpec` |
| XmlTasks.Hydrate | src/outpost/django/campusonline/tasks.py:128-133 | the rendered tree is stored under the XML cache key and returned; nothing else in the cache changes |
| XmlTasks.CopiedValid | src/outpost/django/campusonline/tasks.py:79-81 | copied attributes satisfy a dataclass's `required` fields iff each required field's column is present and truthy |
| XmlTasks.StplAttributesOptional | src/outpost/django/campusonline/schema/linz.py:333-435 | no STPL attribute is required |
| XmlTasks.CopiedValidNoneRequired | src/outpost/django/campusonline/tasks.py:79-81 | with no required fields, any copied attributes are valid |
| XmlTasks.FalsyNotCopied | src/outpost/django/campusonline/tasks.py:80 | a falsy value (NULL, 0, "", Decimal 0) is never copied |
| XmlTasks.SkzkeyNeverCopied | src/outpost/django/campusonline/schema/linz.py:360 | the `skzkey` column is never copied, because the field is named `skzkey_attribute` |
| XmlTasks.KeysAreUpperCase | src/outpost/django/campusonline/tasks.py:63-73 | the join keys are upper case |
| XmlTasks.KeySubtractionVacuous | src/outpost/django/campusonline/tasks.py:91 | over lower-case column names, subtracting the upper-case keys removes nothing |
| XmlTasks.FachChildren | src/outpost/django/campusonline/tasks.py:82-89 | an STPL's FACH children are exactly the fach rows equal to it on skz_uni, skz_key, skzkey, version and abschnitt |
| XmlTasks.GhkChildren | src/outpost/django/campusonline/tasks.py:94-101 | a FACH's GHK children are exactly the ghk rows equal to it on those columns and kennung |
| XmlTasks.GhkBelongsToStpl | src/outpost/django/campusonline/tasks.py:82-101 | a GHK grandchild also agrees with its STPL on the FACH keys |
| XmlTasks.NullKeyNoChildren | src/outpost/django/campusonline/tasks.py:82-89 | an STPL with a NULL key column has no FACH children |
| XmlTasks.StplAttrsValid | src/outpost/django/campusonline/tasks.py:77-81 | an STPL's copied attributes are always valid |
| XmlTasks.StplOfValid | src/outpost/django/campusonline/schema/linz.py:337-345 | an STPL is valid iff it has at least one FACH child and every child is valid |
| XmlTasks.GhkOfValid | src/outpost/django/campusonline/schema/linz.py:21-65 | a built GHK is valid iff its row has truthy titel, kurzbezeichnung and stp_lv_nr |
| XmlTasks.GhkAttrsValid | src/outpost/django/campusonline/schema/linz.py:21-65 | GHK attributes copied from a row are valid iff titel, kurzbezeichnung and stp_lv_nr are truthy |
| XmlTasks.ZeroStpLvNrInvalid | src/outpost/django/campusonline/tasks.py:104 | a GHK row with `stp_lv_nr = 0` yields an invalid GHK, because 0 is not copied |
| XmlTasks.StplWithoutFachInvalid | src/outpost/django/campusonline/schema/linz.py:343 | an stpl row without matching fach rows makes the whole export invalid |
| Linz.NamesSpec | src/outpost/django/campusonline/schema/linz.py:17-65 | a name is a field iff some field has it; it is required iff some required field has it |
| Linz.AttrsValidNames | src/outpost/django/campusonline/schema/linz.py:17-65 | attributes are valid iff they name declared fields only, include every required one, and hold no NULL |
| Linz.GhkRequired | src/outpost/django/campusonline/schema/linz.py:21-65 | GHK requires TITEL, KURZBEZEICHNUNG and STP_LV_NR; CREDITS, NR and SWS are optional |
| Linz.GhkRequiredPositions | src/outpost/django/campusonline/schema/linz.py:21-65 | the required GHK fields are the first, second and fourth |
| Linz.LvRequired | src/outpost/django/campusonline/schema/linz.py:73-88 | LV requires exactly NR and GHK |
| Linz.NoneRequired | src/outpost/django/campusonline/schema/linz.py:283-332 | a field list without required fields requires nothing |
| Linz.PvRequired | src/outpost/django/campusonline/schema/linz.py:166-173 | PV requires exactly LV_NR |
| Linz.FachStplNothingRequired | src/outpost/django/campusonline/schema/linz.py:283-345 | FACH and STPL require no attribute |
| Linz.Defaults | src/outpost/django/campusonline/schema/linz.py:440-470 | the empty exchange is valid; default GHK, LV and PV are not; an STPL without FACH never is |
| Text.StripStart | src/outpost/django/campusonline/models.py:868 | stripping never lengthens a string |
| Text.StripEnd | src/outpost/django/campusonline/models.py:868 | stripping never lengthens a string |
| Text.Strip | src/outpost/django/campusonline/models.py:868 | stripping never lengthens a string |
| Text.StripStartSpec | src/outpost/django/campusonline/models.py:868 | the left strip is a suffix that does not start with whitespace, and everything removed is whitespace |
| Text.StripEndSpec | src/outpost/django/campusonline/models.py:868 | the right strip is a prefix that does not end with whitespace, and everything removed is whitespace |
| Text.StripTrimmed | src/outpost/django/campusonline/models.py:868 | a stripped string neither starts nor ends with whitespace |
| Text.StripIsTheCore | src/outpost/django/campusonline/models.py:883 | stripping a string made of whitespace, a trimmed core and whitespace gives the core |
| Text.AllSpaceStripsToEmpty | src/outpost/django/campusonline/models.py:868 | an all-whitespace text layer strips to the empty string |
| Text.StripIdempotent | src/outpost/django/campusonline/models.py:868 | stripping twice is stripping once |
| Text.UpperIsLetter | src/outpost/django/campusonline/migrations/0031_functions.py:39 | `upper(s) = 'X'` iff s is "X" or "x" |
| Text.LowerIsLetter | src/outpost/django/campusonline/migrations/0054_person_card.py:141-149 | `lower(s) = 'j'` iff s is "j" or "J" |
| Text.ContainsAt | src/outpost/django/campusonline/filters.py:259-261 | containment means an occurrence at some index |
| Text.ContainsTransitive | src/outpost/django/campusonline/filters.py:259-261 | a string containing a string contains everything that one contains |
| Text.NatToString | src/outpost/django/campusonline/migrations/0059_roomallocation.py:37-42 | decimal digits without a leading zero |
| Text.NatToStringInjective | src/outpost/django/campusonline/migrations/0059_roomallocation.py:37-42 | different numbers print differently |
| Text.IntToStringInjective | src/outpost/django/campusonline/tasks.py:39 | different integers print differently |
| Query.IsSubsequenceReflexive | src/outpost/django/campusonline/filters.py:256-261 | a queryset is a subsequence of itself |
| Query.Filter | src/outpost/django/campusonline/filters.py:259-261 | `filter` keeps exactly the matching records, in order, as a subsequence |
| Query.Exclude | src/outpost/django/campusonline/filters.py:454-455 | `exclude` keeps exactly the non-matching records, in order, as a subsequence |
| Query.FilterExcludePartition | src/outpost/django/campusonline/filters.py:450-455 | `filter` and `exclude` of one predicate split the queryset as a multiset |
| Query.FilterNothing | src/outpost/django/campusonline/filters.py:451 | with a predicate nothing meets, `filter` is empty and `exclude` is everything |
| Query.FilterAll | src/outpost/django/campusonline/api.py:159-164 | with a predicate everything meets, `filter` is everything |
| Query.FilterCongruent | src/outpost/django/campusonline/filters.py:259-261 | predicates that agree on the queryset filter it alike |
| Query.JoinRow | src/outpost/django/campusonline/migrations/0054_person_card.py:151-156 | a left row gives one output row per match, or one row when there is none |
| Query.LeftJoinMembership | src/outpost/django/campusonline/migrations/0054_person_card.py:151-156 | a left join's rows are exactly the projections of matched pairs and of unmatched left rows with NULL |
| Query.LeftJoinKeepsLeft | src/outpost/django/campusonline/migrations/0063_immunization.py:84-86 | no left row is lost by a left join |
| Sql.SqlEquals | src/outpost/django/campusonline/migrations/0069_exams.py:191 | SQL `=` is NULL iff an operand is NULL, and true iff both are equal values |
| Sql.LowerEquals | src/outpost/django/campusonline/migrations/0069_exams.py:191-193 | `lower(x) = c` is NULL iff x is NULL |
| Sql.UpperEquals | src/outpost/django/campusonline/migrations/0059_roomallocation.py:48 | `upper(x) = c` is NULL iff x is NULL |
| Sql.NumericToInteger | src/outpost/django/campusonline/migrations/0031_functions.py:36 | `numeric::integer` rounds to the nearest integer and keeps the sign of non-negative values |
| Sql.NumericToIntegerTies | src/outpost/django/campusonline/migrations/0031_functions.py:36 | halves round away from zero and integers are kept |
| Sql.Present | src/outpost/django/campusonline/migrations/0059_roomallocation.py:37-42 | the non-NULL parts, in order |
| Sql.ConcatWsThree | src/outpost/django/campusonline/migrations/0059_roomallocation.py:37-42 | `CONCAT_WS` of three values puts the separator between them |
| Sql.ConcatWsSkipsNull | src/outpost/django/campusonline/migrations/0059_roomallocation.py:37-42 | `CONCAT_WS` skips a NULL part together with its separator |
| Sql.FormatArg | src/outpost/django/campusonline/migrations/0054_person_card.py:137 | `format('%s')` prints a value as itself and NULL as "" |
| Sql.HexDigit | src/outpost/django/campusonline/migrations/0054_person_card.py:137 | hex digits are lower-case |
| Sql.HexValue | src/outpost/django/campusonline/migrations/0054_person_card.py:137 | a digit's value is below sixteen |
| Sql.Nibbles | src/outpost/django/campusonline/migrations/0054_person_card.py:137 | a byte is its high and low nibble |
| Sql.HexEncode | src/outpost/django/campusonline/migrations/0054_person_card.py:137 | `encode(b, 'hex')` has two digits per byte |
| Sql.HexDigitValue | src/outpost/django/campusonline/migrations/0054_person_card.py:137 | decoding a digit gives back its value |
| Sql.ByteDigits | src/outpost/django/campusonline/migrations/0054_person_card.py:137 | decoding a byte's two digits gives back the byte |
| Sql.HexRoundTrip | src/outpost/django/campusonline/migrations/0054_person_card.py:137 | decoding the hex encoding gives back the bytes |
| Sql.HexInjective | src/outpost/django/campusonline/migrations/0054_person_card.py:137 | two byte strings have the same hex encoding iff they are equal |
| Sql.Translations | src/outpost/django/campusonline/migrations/0066_country.py:36-39 | `hstore(array['de','en'], ...)` has exactly the keys de and en with the given values |
| Sql.DateOf | src/outpost/django/campusonline/migrations/0069_exams.py:214-215 | `DATE(ts)` is NULL iff ts is, and otherwise the day containing ts |
| Ddl.IndexesWithout | src/outpost/django/campusonline/migrations/0054_person_card.py:160 | dropping a view drops exactly the indexes on it |
| Ddl.ApplyConsistent | src/outpost/django/campusonline/migrations/0063_immunization.py:133-148 | a successful DDL step leaves every view reading existing columns and every index on an existing view |
| Ddl.RunConsistent | src/outpost/django/campusonline/migrations/0063_immunization.py:155-160 | a successful list of steps keeps the catalog consistent |
| Ddl.RunThrough | src/outpost/django/campusonline/migrations/0069_exams.py:234 | steps that succeed one after the other succeed as a list |
| Ddl.RunAppend | src/outpost/django/campusonline/migrations/0069_exams.py:234 | running two lists is running the first and then, on success, the second |
| Ddl.RoundTrip | src/outpost/django/campusonline/migrations/0069_exams.py:232-237 | when each reverse undoes its forward along the run, the reverse list undoes the forward list |
| Ddl.SegmentsJoin | src/outpost/django/campusonline/migrations/0069_exams.py:232-237 | two adjacent undone stretches of pairs make one |
| Ddl.SegmentsAppend | src/outpost/django/campusonline/migrations/0069_exams.py:232-237 | undone runs of pairs executed one after the other make one undone run |
| Ddl.UndoesThrough | src/outpost/django/campusonline/migrations/0069_exams.py:232-237 | pairs undone step by step along a chain of catalogs form one undone run |
| Ddl.CreationUndone | src/outpost/django/campusonline/migrations/0069_exams.py:10-225 | a create followed by the matching drop restores the catalog |
| Ddl.CreationsUndone | src/outpost/django/campusonline/migrations/0069_exams.py:232-237 | a list of creation pairs is undone along its run |
| Ddl.DropIndexStep | src/outpost/django/campusonline/migrations/0054_person_card.py:12-59 | dropping an index is undone by recreating it |
| Ddl.CreateIndexStep | src/outpost/django/campusonline/migrations/0054_person_card.py:163-218 | creating an index is undone by dropping it |
| Ddl.DropViewStep | src/outpost/django/campusonline/migrations/0054_person_card.py:60-106 | dropping an unindexed view is undone by recreating its definition |
| Ddl.CreateViewStep | src/outpost/django/campusonline/migrations/0054_person_card.py:115-162 | creating a view is undone by dropping it |
| Ddl.DropColumnStep | src/outpost/django/campusonline/migrations/0063_immunization.py:133-148 | dropping an unread column is undone by adding it back |
| Ddl.AddColumnStep | src/outpost/django/campusonline/migrations/0054_person_card.py:107-114 | adding a column is undone by dropping it |
| Ddl.DropThreeIndexes | src/outpost/django/campusonline/migrations/0063_immunization.py:17-48 | three index drops are undone by their creates |
| Ddl.CreateThreeIndexes | src/outpost/django/campusonline/migrations/0063_immunization.py:93-132 | three index creates are undone by their drops |
| FunctionsMigration.FunctionView | src/outpost/django/campusonline/migrations/0031_functions.py:35-43 | one row per source row, in order: the id is NULL exactly when FUNK_NR is and otherwise within one half of it, `leader` holds exactly when FUNK_LEITER is "X" or "x", the four texts are copied |
| FunctionsMigration.LeaderSpec | src/outpost/django/campusonline/migrations/0031_functions.py:39 | `leader` is true iff `upper(funk_leiter) = 'X'`; NULL gives false |
| FunctionsMigration.FunctionRowSpec | src/outpost/django/campusonline/migrations/0031_functions.py:36-41 | id is funk_nr rounded to an integer; name, category, name_female and name_male are copied from funk_bez, funk_gruppe, funk_name_w and funk_name_m |
| FunctionsMigration.Migrated | src/outpost/django/campusonline/migrations/0031_functions.py:11-45 | after the forward list the catalog has the foreign table and the view |
| FunctionsMigration.Removed | src/outpost/django/campusonline/migrations/0031_functions.py:46-53 | after the reverse list neither the table nor the view nor an index on it remains |
| FunctionsMigration.ForwardSucceeds | src/outpost/django/campusonline/migrations/0031_functions.py:11-45 | forward drops any old view and table, then creates the table before the view, and succeeds |
| FunctionsMigration.ForwardIdempotent | src/outpost/django/campusonline/migrations/0031_functions.py:11-45 | running forward again on the migrated catalog gives the same catalog |
| FunctionsMigration.ReverseAfterForward | src/outpost/django/campusonline/migrations/0031_functions.py:46-53 | reverse drops the view before the table it reads and succeeds |
| FunctionsMigration.TableFirstFails | src/outpost/django/campusonline/migrations/0031_functions.py:46-53 | dropping the table before the view fails on the dependent view |
| PersonCardMigration.NumericText | src/outpost/django/campusonline/migrations/0054_person_card.py:137 | the text of a NULL number is NULL |
| PersonCardMigration.ByteaConcat | src/outpost/django/campusonline/migrations/0054_person_card.py:137 | `bytea ||` is NULL iff an operand is NULL |
| PersonCardMigration.HexSha1 | src/outpost/django/campusonline/migrations/0054_person_card.py:137 | the hex digest of NULL is NULL |
| PersonCardMigration.WhenNullArmDead | src/outpost/django/campusonline/migrations/0054_person_card.py:130-136 | `CASE content WHEN NULL` never matches, so the hash as written is the ELSE arm for every input |
| PersonCardMigration.HashAsWrittenAgrees | src/outpost/django/campusonline/migrations/0054_person_card.py:130-138 | the CASE expression is NULL iff the content is, and equals the hash without the dead arm |
| PersonCardMigration.HashSpec | src/outpost/django/campusonline/migrations/0054_person_card.py:130-138 | the hash is NULL iff the content is; two hashes agree iff the digests of "<pers_nr>-<username>-" and the content agree |
| PersonCardMigration.HashLength | src/outpost/django/campusonline/migrations/0054_person_card.py:137 | a present hash has forty hex digits |
| PersonCardMigration.EmployedSpec | src/outpost/django/campusonline/migrations/0054_person_card.py:141-149 | `employed` is true iff `lower(dv) = 'j'`; NULL gives false |
| PersonCardMigration.PersonRowSpec | src/outpost/django/campusonline/migrations/0054_person_card.py:115-156 | a view row casts the numbers, copies username, email and card, has avatar bytes iff the joined row has content, and a hash exactly then |
| PersonCardMigration.PersonsKept | src/outpost/django/campusonline/migrations/0054_person_card.py:151-156 | a person without an avatar row is kept with NULL avatar and hash; one with avatar rows appears with each row's content |
| PersonCardMigration.TwoAvatarsDuplicateId | src/outpost/django/campusonline/migrations/0054_person_card.py:181 | a person with two avatar rows yields two rows with the same id, which the unique id index rejects |
| PersonCardMigration.ReverseOrder | src/outpost/django/campusonline/migrations/0054_person_card.py:223-228 | reverse has sixteen steps: the employed index goes first, the view is dropped before visitenkarte, and the old view is rebuilt after it |
| PersonCardMigration.IndexedColumns | src/outpost/django/campusonline/migrations/0054_person_card.py:163-218 | every indexed column is a column of the new view |
| PersonCardMigration.DropNamesSegment | src/outpost/django/campusonline/migrations/0054_person_card.py:12-35 | dropping the name and sex indexes is undone by recreating them |
| PersonCardMigration.DropUniquesSegment | src/outpost/django/campusonline/migrations/0054_person_card.py:36-59 | dropping the unique indexes is undone by recreating them |
| PersonCardMigration.SwapSegment | src/outpost/django/campusonline/migrations/0054_person_card.py:60-114 | dropping the old view and adding visitenkarte is undone by removing the column and rebuilding the old view |
| PersonCardMigration.RebuildSegment | src/outpost/django/campusonline/migrations/0054_person_card.py:115-178 | creating the new view with the hash and email indexes is undone by dropping them |
| PersonCardMigration.ReindexSegment | src/outpost/django/campusonline/migrations/0054_person_card.py:179-202 | the id, sex and first-name indexes are undone by dropping them |
| PersonCardMigration.FinishSegment | src/outpost/django/campusonline/migrations/0054_person_card.py:203-218 | the last-name and employed indexes are undone by dropping them |
| PersonCardMigration.KeptIndex | src/outpost/django/campusonline/migrations/0054_person_card.py:12-35 | dropping the name indexes keeps every other index |
| PersonCardMigration.UniquesRemain | src/outpost/django/campusonline/migrations/0054_person_card.py:36-59 | the unique indexes are still in place for the second run to drop |
| PersonCardMigration.NoIndexLeft | src/outpost/django/campusonline/migrations/0054_person_card.py:12-62 | after the first six drops no index is left on the view, so it can be dropped |
| PersonCardMigration.Teardown | src/outpost/django/campusonline/migrations/0054_person_card.py:12-114 | the first eight pairs are undone along the run |
| PersonCardMigration.ReadyToBuild | src/outpost/django/campusonline/migrations/0054_person_card.py:107-117 | after teardown the view and its indexes are gone and the table has visitenkarte |
| PersonCardMigration.RebuildReady | src/outpost/django/campusonline/migrations/0054_person_card.py:179-186 | after the rebuild the new view exists and the id and sex indexes are free |
| PersonCardMigration.ReindexReady | src/outpost/django/campusonline/migrations/0054_person_card.py:203-218 | after reindexing the last-name and employed indexes are free |
| PersonCardMigration.ViewRebuilt | src/outpost/django/campusonline/migrations/0054_person_card.py:12-178 | the first eleven pairs are undone along the run |
| PersonCardMigration.MostReindexed | src/outpost/django/campusonline/migrations/0054_person_card.py:12-202 | the first fourteen pairs are undone along the run |
| PersonCardMigration.FinalIsAfter | src/outpost/django/campusonline/migrations/0054_person_card.py:12-218 | the run's last catalog is the migrated catalog |
| PersonCardMigration.WholeMigration | src/outpost/django/campusonline/migrations/0054_person_card.py:223-228 | all sixteen pairs are undone along the run |
| PersonCardMigration.MigrationRoundTrip | src/outpost/django/campusonline/migrations/0054_person_card.py:223-228 | on the schema catalog, which holds no rows, forward takes the old catalog to the migrated one, and reverse takes it back |
| PersonCardMigration.CardColumnInUse | src/outpost/django/campusonline/migrations/0054_person_card.py:107-114 | once the new view reads visitenkarte, dropping the column fails on the dependent view |
| RoomAllocationMigration.TermsOf | src/outpost/django/campusonline/migrations/0059_roomallocation.py:49-53 | the term rows joined to a registration are exactly those with an equal, non-NULL termin_nr |
| RoomAllocationMigration.MinOf | src/outpost/django/campusonline/migrations/0059_roomallocation.py:46 | `MIN` ignores NULLs, is NULL only when all values are, and is the least value |
| RoomAllocationMigration.MaxOf | src/outpost/django/campusonline/migrations/0059_roomallocation.py:47 | `MAX` ignores NULLs, is NULL only when all values are, and is the greatest value |
| RoomAllocationMigration.IntText | src/outpost/django/campusonline/migrations/0059_roomallocation.py:37-42 | the text of a NULL number is NULL |
| RoomAllocationMigration.GroupedExactlyWhenMatched | src/outpost/django/campusonline/migrations/0059_roomallocation.py:49-58 | a (termin_nr, raum_nr, st_person_nr, angemeldet) group is in the view iff some term row matches its termin_nr |
| RoomAllocationMigration.StartEndBounds | src/outpost/django/campusonline/migrations/0059_roomallocation.py:46-47 | `start` is at most every matched lv_beginn and `end` at least every matched lv_ende |
| RoomAllocationMigration.StartBeforeEnd | src/outpost/django/campusonline/migrations/0059_roomallocation.py:46-47 | when every matched term begins before it ends, the group's start is not after its end |
| RoomAllocationMigration.OnsiteSpec | src/outpost/django/campusonline/migrations/0059_roomallocation.py:48 | `onsite` is NULL iff angemeldet is NULL, and true iff `upper(angemeldet) = 'J'` |
| RoomAllocationMigration.IdSpec | src/outpost/django/campusonline/migrations/0059_roomallocation.py:37-42 | the id is term, room and student joined with "-", leaving out a NULL room |
| RoomAllocationMigration.DuplicateIds | src/outpost/django/campusonline/migrations/0059_roomallocation.py:54-58 | a registration present with two angemeldet values forms two groups with the same id |
| RoomAllocationMigration.ReverseOrder | src/outpost/django/campusonline/migrations/0059_roomallocation.py:103-107 | reverse drops the four indexes, then the view, then the foreign table |
| RoomAllocationMigration.ReverseRestores | src/outpost/django/campusonline/migrations/0059_roomallocation.py:103-107 | reverse after forward restores the catalog |
| RoomAllocationMigration.ForwardSucceeds | src/outpost/django/campusonline/migrations/0059_roomallocation.py:103-107 | forward succeeds on a catalog without the migration's objects |
| ImmunizationMigration.ImmunizedSpec | src/outpost/django/campusonline/migrations/0063_immunization.py:83 | `immunized` is true iff the COVID status is "J" or "j"; NULL gives false |
| ImmunizationMigration.ImmunizedBeforeSpec | src/outpost/django/campusonline/migrations/0063_immunization.py:64 | the previous rule is true iff impfung_erhalten is "JA" in any case; NULL gives false |
| ImmunizationMigration.StudentsKept | src/outpost/django/campusonline/migrations/0063_immunization.py:84-86 | a student without a status row is kept with immunized false; one with rows appears with each row's rule |
| ImmunizationMigration.RowsPerStudent | src/outpost/django/campusonline/migrations/0063_immunization.py:84-86 | a student appears once per status row, or once when there is none |
| ImmunizationMigration.AddCovidStep | src/outpost/django/campusonline/migrations/0063_immunization.py:9-16 | adding the COVID column is undone by dropping it |
| ImmunizationMigration.DropIndexPairStep | src/outpost/django/campusonline/migrations/0063_immunization.py:17-48 | dropping a student index is undone by recreating it |
| ImmunizationMigration.DropOldViewStep | src/outpost/django/campusonline/migrations/0063_immunization.py:49-70 | dropping the old view is undone by recreating it |
| ImmunizationMigration.CreateNewViewStep | src/outpost/django/campusonline/migrations/0063_immunization.py:71-92 | creating the new view is undone by dropping it |
| ImmunizationMigration.CreateIndexPairStep | src/outpost/django/campusonline/migrations/0063_immunization.py:93-132 | creating a student index is undone by dropping it |
| ImmunizationMigration.DropColumnSteps | src/outpost/django/campusonline/migrations/0063_immunization.py:133-148 | dropping IMPFUNG_ERHALTEN and STATUS is undone by adding them back |
| ImmunizationMigration.OpsSlices | src/outpost/django/campusonline/migrations/0063_immunization.py:9-148 | the fourteen pairs grouped by stage |
| ImmunizationMigration.SegmentAddAndDrop | src/outpost/django/campusonline/migrations/0063_immunization.py:9-32 | the first three pairs are undone along the run |
| ImmunizationMigration.SegmentDropView | src/outpost/django/campusonline/migrations/0063_immunization.py:33-70 | pairs four to six are undone along the run |
| ImmunizationMigration.SegmentNewView | src/outpost/django/campusonline/migrations/0063_immunization.py:71-108 | pairs seven to nine are undone along the run |
| ImmunizationMigration.SegmentIndexes | src/outpost/django/campusonline/migrations/0063_immunization.py:109-132 | pairs ten to twelve are undone along the run |
| ImmunizationMigration.SegmentDropColumns | src/outpost/django/campusonline/migrations/0063_immunization.py:133-148 | the last two pairs are undone along the run |
| ImmunizationMigration.RemainingOldIndexes | src/outpost/django/campusonline/migrations/0063_immunization.py:17-48 | after the first drops only the id and username indexes remain on the view |
| ImmunizationMigration.ClearFirstHalf | src/outpost/django/campusonline/migrations/0063_immunization.py:9-32 | the first three pairs lead to a catalog that still has the id and username indexes |
| ImmunizationMigration.ClearSecondHalf | src/outpost/django/campusonline/migrations/0063_immunization.py:33-70 | the next three pairs clear the old view |
| ImmunizationMigration.ClearSegment | src/outpost/django/campusonline/migrations/0063_immunization.py:9-70 | the first six pairs are undone along the run |
| ImmunizationMigration.ClearedShape | src/outpost/django/campusonline/migrations/0063_immunization.py:9-70 | after clearing, the old view and its indexes are gone and the status table has the new column besides the old ones |
| ImmunizationMigration.BuildView | src/outpost/django/campusonline/migrations/0063_immunization.py:71-132 | building the new view and its five indexes is undone along the run |
| ImmunizationMigration.IndexedViews | src/outpost/django/campusonline/migrations/0063_immunization.py:71-132 | the built views are the migrated views |
| ImmunizationMigration.IndexedIndexes | src/outpost/django/campusonline/migrations/0063_immunization.py:93-132 | the built indexes, email included, are the migrated indexes |
| ImmunizationMigration.OldColumnsUnread | src/outpost/django/campusonline/migrations/0063_immunization.py:133-148 | once the old view is gone no view reads IMPFUNG_ERHALTEN or STATUS |
| ImmunizationMigration.DropColumns | src/outpost/django/campusonline/migrations/0063_immunization.py:133-148 | dropping the old columns last is undone by re-adding them before the old view is rebuilt |
| ImmunizationMigration.BuildSegment | src/outpost/django/campusonline/migrations/0063_immunization.py:71-148 | pairs seven to fourteen are undone along the run |
| ImmunizationMigration.WholeMigration | src/outpost/django/campusonline/migrations/0063_immunization.py:155-160 | all fourteen pairs are undone along the run |
| ImmunizationMigration.MigrationRoundTrip | src/outpost/django/campusonline/migrations/0063_immunization.py:155-160 | forward takes the old catalog to the migrated one, and reverse takes it back |
| CountryMigration.MatchesLettersSpec | src/outpost/django/campusonline/migrations/0066_country.py:45-46 | `~ '^[A-Z]{n}$'` holds iff the code is exactly n upper-case letters |
| CountryMigration.CountryViewSpec | src/outpost/django/campusonline/migrations/0066_country.py:31-52 | the view holds exactly the rows passing the filter; each has a two-letter alpha2, a three-letter alpha3 and names keyed de and en |
| CountryMigration.Rejected | src/outpost/django/campusonline/migrations/0066_country.py:42-46 | a row with a NULL or malformed code adds nothing to the view |
| CountryMigration.FilterAppendOne | src/outpost/django/campusonline/migrations/0066_country.py:42-46 | the filter treats each appended row on its own |
| CountryMigration.DuplicateAlpha2 | src/outpost/django/campusonline/migrations/0066_country.py:31-52 | nothing deduplicates: a repeated row gives two countries with the same alpha2 |
| CountryMigration.ForwardSucceeds | src/outpost/django/campusonline/migrations/0066_country.py:59-64 | forward creates the table before the view and succeeds |
| CountryMigration.ReverseRestores | src/outpost/django/campusonline/migrations/0066_country.py:59-64 | reverse drops the view before the table and restores the catalog |
| CountryMigration.TableFirstFails | src/outpost/django/campusonline/migrations/0066_country.py:59-64 | dropping the table while the view exists fails |
| ExamsMigration.AtTimeZone | src/outpost/django/campusonline/migrations/0069_exams.py:188-194 | `AT TIME ZONE` of NULL is NULL |
| ExamsMigration.StatusOf | src/outpost/django/campusonline/migrations/0069_exams.py:164-175 | the examinee status name has only a German entry |
| ExamsMigration.ModeView | src/outpost/django/campusonline/migrations/0069_exams.py:126-137 | one mode row per source row, in order: id and short name copied, the name a map with exactly the keys "de" and "en" holding NAME and NAME_ENGL |
| ExamsMigration.TypeView | src/outpost/django/campusonline/migrations/0069_exams.py:143-158 | one type row per source row, in order: id and short name copied, certificate and name maps with exactly the keys "de" and "en" holding the German and English texts |
| ExamsMigration.StatusView | src/outpost/django/campusonline/migrations/0069_exams.py:164-175 | one status row per source row, in order: id and short name copied, the name a map with the single key "de" holding NAME |
| ExamsMigration.ExamView | src/outpost/django/campusonline/migrations/0069_exams.py:181-202 | the view as written: one exam row per source row, in order, every other column copied or converted to local time; each flag is NULL exactly when its source flag is NULL and true exactly when it is "j" or "J" |
| ExamsMigration.CorrectedExamView | src/outpost/django/campusonline/models.py:1024 | the exam view with the non-null flags the model fields declare: same copied columns, each flag never NULL and true exactly when its source flag is "j" or "J" |
| ExamsMigration.CorrectedExamViewAgrees | src/outpost/django/campusonline/migrations/0069_exams.py:190-193 | the corrected view agrees with the view as written on every flag that is set, reads a NULL flag as false where the view as written gives NULL, and is the same row when both flags are set |
| ExamsMigration.ExamineeView | src/outpost/django/campusonline/migrations/0069_exams.py:208-222 | one examinee row per source row, in order: keys and status copied, the status time in local time, registration and assessment closure NULL exactly when their timestamps are and otherwise the day each timestamp falls on |
| ExamsMigration.FlagAsWrittenSpec | src/outpost/django/campusonline/migrations/0069_exams.py:191-193 | `lower(flag) = 'j'` is NULL for a NULL flag and true iff the flag is "j" or "J" |
| ExamsMigration.FlagSpec | src/outpost/django/campusonline/models.py:1024 | the flag the model field expects is true iff the flag is "j" or "J", false for NULL, and agrees with the SQL wherever that is not NULL |
| ExamsMigration.ExamKeysCopied | src/outpost/django/campusonline/migrations/0069_exams.py:182-187 | exam id and foreign keys copy TERMIN_NR, ORG_NR, PV_PR_MOD_NR, PV_PR_TYP_NR, PRUEFER_PERSON_NR and STP_SP_NR |
| ExamsMigration.ExamineeDates | src/outpost/django/campusonline/migrations/0069_exams.py:214-215 | registration and assessment_closure are the days of ANMELDE_DATUM and DATUM_DER_LETZTBEURTEILUNG, NULL when those are |
| ExamsMigration.Translated | src/outpost/django/campusonline/migrations/0069_exams.py:129-158 | mode and type names and the type certificate are maps with exactly de and en |
| ExamsMigration.OpsAreCreations | src/outpost/django/campusonline/migrations/0069_exams.py:10-225 | every pair creates an object and its reverse drops that object |
| ExamsMigration.ViewsDroppedFirst | src/outpost/django/campusonline/migrations/0069_exams.py:232-237 | in reverse every view is dropped before any foreign table |
| ExamsMigration.ReverseRestores | src/outpost/django/campusonline/migrations/0069_exams.py:232-237 | reverse after forward restores the catalog |
| ExamsMigration.ForwardSucceeds | src/outpost/django/campusonline/migrations/0069_exams.py:232-237 | forward succeeds and adds exactly the five tables and five views |
| ExamsMigration.CreateTables | src/outpost/django/campusonline/migrations/0069_exams.py:10-123 | the first five steps create the five foreign tables |
| ExamsMigration.CreateViews | src/outpost/django/campusonline/migrations/0069_exams.py:124-225 | the last five steps create the five views |
| ExamsMigration.CreateReadingView | src/outpost/django/campusonline/migrations/0069_exams.py:124-225 | a view over an existing table with those columns is created |
| ExamsMigration.ViewBeforeTableFails | src/outpost/django/campusonline/migrations/0069_exams.py:181-202 | creating the exam view before its table fails |

## Findings

| source | as written | input that shows it | evidently intended | confidence | as-written member | corrected member |
|---|---|---|---|---|---|---|
| src/outpost/django/campusonline/filters.py:258 | a search shorter than four characters calls `queryset.empty()`, which Django querysets do not have | the search "mai" | `queryset.none()`: no persons | high, not executed | Filters.FilterNameShortSearchCounterexample | Filters.FilterName |
| src/outpost/django/campusonline/api.py:405 | the exam view set permits the list expansion "mode", but the serializer names the expansion "modes" (serializers.py:539) | `?expand=mode` on the exam list | one name for the expansion, so that the mode can be expanded in lists | medium, not executed | Api.ExamModeNotListExpandableAsWritten | Api.ExamModeListExpandable |
| src/outpost/django/campusonline/migrations/0069_exams.py:191 | `LOWER(WEBANMELDUNGS_FLAG) = 'j'` (and `LOWER(TERMIN_GUELTIG_FLAG) = 'j'` on line 193) is NULL when the flag is NULL, while models.py:1024 declares a non-null boolean | an exam row with a NULL flag | false for a NULL flag | medium, not executed | ExamsMigration.ExamView | ExamsMigration.CorrectedExamView |

These oddities are kept in the model, but without a corrected version, because what the authors intended is not clear:

- `campusonline_roomallocation` can emit the same id twice (`RoomAllocationMigration.DuplicateIds`), although models.py:923 declares `id` the primary key.
- Nothing in `campusonline_country` deduplicates alpha2 (`CountryMigration.DuplicateAlpha2`), although models.py:940 makes it the primary key.
- The `CASE ... WHEN NULL` arm of the person hash is dead code (`PersonCardMigration.WhenNullArmDead`). It changes nothing (`PersonCardMigration.HashAsWrittenAgrees`).
- A person with two avatar rows breaks the unique id index (`PersonCardMigration.TwoAvatarsDuplicateId`).

## Left out

- The bulletin download and Poppler parsing are inputs: the download is an optional byte string, the parser a function (models.py:810-826).
- The text layer and the tesseract OCR result of a page are given strings. Rendering, DPI and locale switching are not modelled (models.py:861-887).
- The SHA-1 digest (0054:137) is an uninterpreted function, assumed to give 20 bytes. The `text::bytea` cast and the text of a numeric are uninterpreted functions too.
- `AT TIME ZONE` (0069:188-194, 212) is an uninterpreted function on epoch seconds that keeps NULL.
- Timestamps in `DATE()` are seconds since the epoch.
- The phone-number library (serializers.py:302-307) is a parse and a format parameter; only its None-on-failure behaviour is stated.
- XML rendering by xsdata (tasks.py:128-130) is a `render` parameter. The model stops at the dataclass tree.
- Cursor plumbing: a result set is a list of column names and a list of value tuples. SQL values are NULL, integer, decimal, string or timestamp.
- Django's flex-fields machinery, filter `Meta.fields` lookups, key constructors, search indexes, endpoints, urls and `__str__` formatters are framework configuration without logic of their own. They are not part of this model.
- The treebeard organization trees (models.py:194, 1090) are library code and are not part of this model.
- Celery scheduling, the `materialized_view_refreshed` signal wiring (models.py:843-845) and refresh intervals are not modelled. `Bulletin.update` takes the refreshed model as a parameter.
- Migrations 0007, 0009, 0011, 0033, 0052, 0056, 0058 and 0072 create or rebuild tables and views outside the modelled core and are not part of this model: 0007 rebuilds `campusonline_room`; 0009 declares unmanaged Django models; 0011 creates `veranstaltungen` and `campusonline_event`; 0033 creates `personen_profilbilder_daten` and rebuilds `campusonline_person`; 0052 creates `externe` and `campusonline_external`; 0056 adds FAX_NUMMER and SEKRETARIAT to `organisationen` and rebuilds `campusonline_organization`; 0058 adds EMAIL to `stud` and rebuilds `campusonline_student`; 0072 rebuilds `campusonline_event`. 0033's reverse drops an index name its forward never creates. 0072 assigns `operations` twice, and the later assignment wins.
- Multicorn foreign-table options and column types are not modelled. A table is its set of column names, and a view is the set of (table, column) pairs it reads plus its output columns.
- `DROP ... IF EXISTS` on a missing object succeeds and changes nothing. The round-trip lemmas need each pair's objects to be absent before its forward runs (`Before`); the model does not say what the reverse does on a catalog where that does not hold.
- Sql.HexDecode: does not reject an odd number of digits, because only decoding of `encode` output is used.
- Text.Upper, Text.Lower: cover ASCII letters only; PostgreSQL's `upper`/`lower` under other locales are not modelled.
- PersonCardMigration.Ops: the sixteen pairs are grouped into named runs of two or three pairs. `ReverseOrder` pins down the reverse order that matters.
- FunctionsMigration.ForwardSucceeds: stated only for a catalog where no view except `campusonline_function` reads the functions table. If another view read it, the forward `DROP FOREIGN TABLE IF EXISTS` would fail on that dependent view.
- XmlTasks.Hydrate: the three cursors are read from one database snapshot; concurrent changes between the queries are not modelled.
- XmlTasks.Hydrate: requires every stpl and fach row to carry the join-key columns; the source raises KeyError on a missing one (tasks.py:87-88, 99-100). It also requires the fach and ghk tables to have the key columns their WHERE clauses name, which PostgreSQL would otherwise reject (tasks.py:82-88, 94-100). It also excludes a truthy `fach` column on stpl or `ghk` column on fach, which `setattr` would put in place of the child list before `.append` fails (tasks.py:79-81, 105-106). None of these failures is modelled.
- PersonCardMigration.MigrationRoundTrip: the catalog holds no rows, so creating a unique index always succeeds. PostgreSQL refuses the unique indexes on `hash`, `email` and `id` (0054_person_card.py:41-57, 165-181) when two rows of the view share a non-NULL value, as `TwoAvatarsDuplicateId` shows can happen; that data-dependent failure is not modelled.
- Sql.NumericToInteger: rounds over unbounded integers. PostgreSQL's `integer` is 32-bit, and `numeric::integer` raises "integer out of range" outside -2147483648..2147483647, which makes building the view fail (0031_functions.py:36, 0054_person_card.py:118-156, 0059_roomallocation.py:39-45, 0063_immunization.py:74-86); that error is not modelled.
- Filters.FilterName: models the filter method only. django-filter does not call the method for an empty search value, so an empty `name` parameter gives the unfiltered queryset rather than the empty result the method returns.
