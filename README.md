# calibre `Cache` façade, modelled in Dafny

This project models the in-memory cache layer of the calibre e-book
library database (`class Cache` in `src/calibre/db/cache.py`). It covers
these parts:

- the field registry that `init` fills from the backend's tables;
- the null-safe lookups on that registry: `field_for`, `field_ids_for`,
  `books_for_field`, `author_data`;
- the unguarded lookups `all_book_ids` and `all_field_ids`;
- the per-book, per-format memo behind `format_metadata`;
- path resolution for `_format_abspath` and `cover`;
- the composition of a book's `Metadata` record in `_get_metadata` and
  `get_metadata`.

The modules are:

- `Values` (values.dfy): the Python values the fields hold, their
  truthiness, iteration over them, and ASCII upper-casing.
- `Fields` (fields.dfy): a field object, reduced to the answers the cache
  asks of it; the registry; and the lookup operations, which turn an
  unknown field, book or item into a default.
- `Storage` (storage.dfy): the backend. Its tables are plain data. Its
  `format_abspath`, `format_metadata` and `cover` calls are uninterpreted
  function values. Every call into the backend is recorded as a `Call`.
- `FormatMemo` (format_memo.dfy): `format_metadata_cache`, a
  `defaultdict(dict)`, including the empty per-book dictionary that a read
  inserts. `FormatMetadataSpec` is one call of `format_metadata`; the
  lemmas next to it are about the memo.
- `Composer` (composer.dfy): `_get_metadata`, broken into these steps:
  - author aggregation (a method with a loop, proved against
    `BookAuthors`);
  - the format list and the `format_metadata` pass over it;
  - the scalar attributes with their defaults;
  - user-category matching (nested loops, proved against
    `UserCategoryValues`).
- `CacheFacade` (cache.dfy): the `Cache` class. It holds `fields`,
  `format_metadata_cache` and a ghost log of backend calls. Its methods
  (`Init`, `FormatMetadata`, `FormatAbspath`, `Cover`, `ComposeMetadata`,
  `GetMetadata`) change that state step by step. Each method's
  postcondition ties its result, the new cache and the calls it made to a
  specification function of the old state.

The model works on Python errors explicitly:

- A raised `KeyError`, `TypeError` or `AttributeError` is the `Err` case
  of a `Result`.
- A bare `try: ... except: return None` is the `None` case of an `Option`.

`now()`, the translated strings `_('Unknown')` and `_('Yes')`, and
`prefs['user_categories']` come from outside the class. They are passed
in as an `Env` value.

## Model

| member | source | states |
|---|---|---|
| Values.Upper | src/calibre/db/cache.py:261 | Upper-casing keeps the length and maps every character through ASCII upper-casing. |
| Values.UpperIdempotent | src/calibre/db/cache.py:261 | Upper-casing a format twice gives the same key as doing it once. |
| Values.UpperCaseInsensitive | src/calibre/db/cache.py:261-265 | Two spellings of a format that agree letter by letter up to ASCII case (each pair of letters equal, or one the upper case of the other) map to the same cache key. |
| Values.UpperExample | src/calibre/db/cache.py:261-265 | `'epub'` and `'EPUB'` both become the cache key `'EPUB'`. |
| Values.Truthy | src/calibre/db/cache.py:119-130 | Python's truth test: None, False, zero, the empty string and empty containers are false, and every other value is true. It has no contract of its own. Its uses are stated by `FormatEntries` (`if not formats`, 119), `FinishRecordFields` (`has_cover`, 126), `ComposeSeriesIndex` (`if mi.series`, 130), `EmptyResultPaths` (`if path and name`, 273) and `WithCover` (`if cdata`, 294). |
| Values.Iterate | src/calibre/db/cache.py:122-128 | `for x in v` and `list(v)` yield the items of a tuple or list and the one-character strings of a string. Other shapes are not iterated. |
| Values.Join | src/calibre/db/cache.py:124 | `','.join` gives `''` for no strings and the string itself for one. Otherwise the result starts with the first string followed by the separator. |
| Fields.FieldFor | src/calibre/db/cache.py:181-193 | Gives the field's value for the book when both the field and the book are known, and the caller's default otherwise (unknown field or unknown book). |
| Fields.FieldIdsFor | src/calibre/db/cache.py:204-214 | Gives the book's item ids in the field, or the empty tuple when the field or the book is unknown. |
| Fields.BooksForField | src/calibre/db/cache.py:216-228 | Gives the books that hold the item, or the empty tuple when the field or the item is unknown. |
| Fields.AllBookIds | src/calibre/db/cache.py:230-235 | Gives the set of books known to the uuid field. Fails with KeyError exactly when there is no uuid field. |
| Fields.AllFieldIds | src/calibre/db/cache.py:237-242 | Gives every item id of the field. There is no guard: it fails with KeyError exactly when the field is unknown. |
| Fields.AuthorData | src/calibre/db/cache.py:244-255 | Gives the empty dictionary exactly when the authors field or the author is unknown. Otherwise gives the dictionary with the keys name, sort and link, holding that author's data. |
| Fields.PathFor | src/calibre/db/cache.py:79-81 | The book's path resolves exactly when the book's `path` value is a string (the default None has no `replace` and raises), and the path is then that string. |
| Fields.FormatFname | src/calibre/db/cache.py:78-81 | The file name resolves exactly when the formats field exists and has a name for the (book, format) pair, and is then that name. |
| Fields.UnknownBookIsAbsent | src/calibre/db/cache.py:182-214 | In a registry whose fields only know books that the uuid field knows, a book outside `all_book_ids` reads as absent in every field: `field_for` gives the default, `field_ids_for` gives `()`, and the path does not resolve. |
| FormatMemo.Touch | src/calibre/db/cache.py:263 | After a defaultdict read, the book has an entry in the cache. |
| FormatMemo.TouchKeepsEntries | src/calibre/db/cache.py:263 | The empty dictionary that a defaultdict read inserts changes no (book, format) entry. |
| FormatMemo.Store | src/calibre/db/cache.py:275 | Storing an answer sets its own (book, format) entry to it and leaves every other entry as it was. |
| FormatMemo.FormatMetadataSpec | src/calibre/db/cache.py:257-276 | One `format_metadata` call makes at most one backend call, and that call is for the same book with the upper-cased format. |
| FormatMemo.CacheHitMakesNoCall | src/calibre/db/cache.py:261-265 | With `allow_cache` and a stored entry under the upper-cased format, that entry is returned, the cache is unchanged and the backend is not called. |
| FormatMemo.MissStoresUnderUpperKey | src/calibre/db/cache.py:266-276 | When the cache is not consulted or misses, and the name and path resolve to non-empty strings, the backend is called once with the upper-cased format. Its answer is returned and stored under that key, and under no other key. |
| FormatMemo.EmptyResultPaths | src/calibre/db/cache.py:258-276 | Each of these gives `{}` with no backend call and no stored entry changed: an empty format; a file name or path that does not resolve; one that resolves to an empty string. |
| FormatMemo.OnlyOwnEntryChanges | src/calibre/db/cache.py:262-275 | A call leaves every entry other than its own (book, upper-cased format) entry as it was. |
| FormatMemo.CachedCallKeepsEntries | src/calibre/db/cache.py:262-275 | With `allow_cache`, an entry that is already stored is never replaced: a hit returns it and a miss stores under an absent key. |
| FormatMemo.SecondCallIsServedFromCache | src/calibre/db/cache.py:261-275 | After a call that reached the backend, a later `allow_cache` call for any spelling of the same format returns the same answer with no backend call and leaves the cache unchanged. |
| FormatMemo.CachedCallAnswer | src/calibre/db/cache.py:258-276 | With `allow_cache` and a non-empty format, the call's own entry afterwards is: the stored entry, returned unchanged, on a hit; the answer, on a miss whose name and path resolve to non-empty strings; still absent, with `{}` returned, otherwise. |
| FormatMemo.TwoCachedCallsAtMostOneBackendCall | src/calibre/db/cache.py:257-276 | Two `allow_cache` calls in a row for the same book and format make at most one backend call between them. |
| Composer.ResolveAuthors | src/calibre/db/cache.py:87-88 | The author dictionaries yield records exactly when every id's dictionary has the name, sort and link keys. The records are then one per id, in order. |
| Composer.ResolvableIsKnown | src/calibre/db/cache.py:244-255 | An author's dictionary has those keys exactly when the authors field knows the author, and its record is then the author's stored data. |
| Composer.LastWins | src/calibre/db/cache.py:92-96 | The dictionary that `aus[aut] = ...` and `aul[aut] = ...` build from the author pairs, in order. It has no contract of its own: `LastWinsKeys` states its keys and `LastWinsAt` the value under each key. |
| Composer.LastWinsKeys | src/calibre/db/cache.py:92-96 | The keys of a dictionary filled from pairs in order are exactly the keys of the pairs. |
| Composer.LastWinsAt | src/calibre/db/cache.py:92-96 | Under a given key, a dictionary filled from pairs in order holds the value of the last pair with that key. |
| Composer.Aggregate | src/calibre/db/cache.py:89-96 | The `aum`, `aus` and `aul` built from the author records. It has no contract of its own: `AggregateKeys` states that both dictionaries are keyed by the names, and `AggregateLastWins` which record each name holds. |
| Composer.BookAuthors | src/calibre/db/cache.py:87-96 | The aggregated authors of a book, or none when an author id does not resolve. It has no contract of its own: `AggregateAuthors` relates it to the loop, and `ComposeKeyErrorIsAuthors` and `ComposeKeyErrorOnDanglingAuthor` to the KeyError of `_get_metadata`. |
| Composer.AggregateAuthors | src/calibre/db/cache.py:87-96 | The author loop fails with KeyError exactly when some author id does not resolve. Otherwise it gives the name list and the sort and link dictionaries of `BookAuthors`. |
| Composer.AggregateKeys | src/calibre/db/cache.py:89-96 | The sort dictionary and the link dictionary are each keyed by exactly the author names. |
| Composer.AggregateLastWins | src/calibre/db/cache.py:92-96 | For an author with no later same-named author, the dictionaries hold that author's sort and link. |
| Composer.FormatEntries | src/calibre/db/cache.py:117-122 | The loop walks nothing exactly when the `formats` value is falsy (`if not formats`). A truthy value that cannot be iterated raises TypeError. Otherwise the loop walks the value's items. |
| Composer.EntryError | src/calibre/db/cache.py:122-123 | A string entry raises nothing. A truthy non-string raises AttributeError at `fmt.upper()` (line 261). No entry raises anything other than AttributeError or TypeError. |
| Composer.LeadingEntries | src/calibre/db/cache.py:122-123 | Counts the entries the loop gets through: every entry before the count raises nothing, and the entry at the count raises. A truthy non-string raises at `fmt.upper()` (line 261); a falsy list or dictionary gets `{}` (line 260) and cannot be a dictionary key. |
| Composer.StringEntries | src/calibre/db/cache.py:122-124 | The formats the loop asks `format_metadata` about and the join's input: no more of them than entries. `StringEntriesAreEntries` and `StringEntriesOfStrings` state which. |
| Composer.StringEntriesAreEntries | src/calibre/db/cache.py:122-123 | Every format the loop asks `format_metadata` about is one of the string entries. |
| Composer.StringEntriesOfStrings | src/calibre/db/cache.py:122-124 | When every entry is a string, the loop asks about each of them, in order. |
| Composer.CollectFormats | src/calibre/db/cache.py:117-123 | The per-format map has one key per listed format. Every backend call of the pass is for this book and for one of the listed formats, upper-cased. What each key holds is stated by `CollectFormatsValues`. |
| Composer.CollectFormatsValues | src/calibre/db/cache.py:122-123 | After the pass, each listed format maps to what the format cache then holds for this book under its upper-cased spelling, or `{}` when the format is empty or nothing is stored. A format with no stored entry is one whose name or path does not resolve to a non-empty string. |
| Composer.MemoEntryStep | src/calibre/db/cache.py:122-123 | One more `format_metadata` call for a format keeps that correspondence, both for that format and for every format listed before it. |
| Composer.CollectFormatsKeepsEntries | src/calibre/db/cache.py:122-123 | The pass over a format list never drops or changes an entry already in the format cache. |
| Composer.EntryKept | src/calibre/db/cache.py:262-275 | An entry, once stored, survives every later `format_metadata` call. |
| Composer.CollectFormatsCallsDistinct | src/calibre/db/cache.py:117-123 | Over one format list, the backend is asked at most once per upper-cased format, even when the list repeats a format in another case. |
| Composer.RunFormats | src/calibre/db/cache.py:117-124 | The list is accepted exactly when every entry is a string, and is then those strings in order. The pass covers the string entries before the first entry that raises inside the loop. |
| Composer.RunFormatsAccepts | src/calibre/db/cache.py:122-124 | A list of strings goes through the whole loop and the join: the pass covers every entry. |
| Composer.RunFormatsRaisesAtEntry | src/calibre/db/cache.py:122-123 | The loop raises at the first entry it cannot handle: AttributeError for a truthy non-string, TypeError for a falsy list or dictionary. The pass covers the string entries before it. |
| Composer.RunFormatsJoinRaises | src/calibre/db/cache.py:124 | When no entry raises inside the loop but some entry is not a string, `','.join` raises TypeError after the pass over all string entries. |
| Composer.RecordGet | src/calibre/db/cache.py:155 | `mi.get` gives the author names (as a list holding exactly those names), the tags list, the title and the series as `_get_metadata` assigned them. |
| Composer.MemberMatches | src/calibre/db/cache.py:155-160 | A member matches when the record's value for its field is a list holding its name, or is not a list and equals its name. It has no contract of its own: `CategoryMatchesMembers`, `ListedMatches` and `MatchesAreListed` state what it selects. |
| Composer.CategoryMatches | src/calibre/db/cache.py:153-160 | A category's `res` list holds at most one pair per member. Which pairs, and in what order, is stated by `CategoryMatchesMembers` and `CategoryMatchesAppend`. |
| Composer.CategoryMatchesAppend | src/calibre/db/cache.py:152-161 | The matches for a concatenation of member lists are the matches for the first list followed by those for the second. |
| Composer.CategoryMatchesMembers | src/calibre/db/cache.py:154-160 | `[name, cat]` is listed exactly when some member with that name and field matches the record: its list value contains the name, or its non-list value equals the name. |
| Composer.ListedMatches | src/calibre/db/cache.py:154-160 | A pair in a category's `res` list comes from a member with that name and field whose value matches the record. |
| Composer.MatchesAreListed | src/calibre/db/cache.py:154-160 | A member whose value matches the record has its `[name, cat]` pair in the category's `res` list. |
| Composer.UserCategoryValues | src/calibre/db/cache.py:149-161 | `user_cat_vals` has one entry per configured category, each no longer than that category's member list. |
| Composer.MatchUserCategories | src/calibre/db/cache.py:149-161 | The nested loops give one entry per user category, and each entry is that category's list of matches. |
| Composer.Record | src/calibre/db/cache.py:97-137 | The record carries the title (or 'Unknown'), the aggregated authors and their dictionaries, and the book id twice. `formats` is unset exactly when there are no formats. `has_cover` is '' or 'Yes'. `series_index` is set exactly when `series` is truthy. User categories and cover stay unset. The other attributes are stated by `FinishRecordFields` and `ComposeRecordFields`. |
| Composer.Finish | src/calibre/db/cache.py:125-164 | The steps after the format loop fail exactly when the `tags` value cannot be iterated, and then with TypeError (`list(...)`, 128). On success the record keeps the given `format_metadata` and carries the book id. Its attributes are stated by `FinishRecordFields`. |
| Composer.FinishRecord | src/calibre/db/cache.py:125-164 | The steps after the format loop (tags, the record, user categories) give the result of `Finish`. A `tags` value that cannot be iterated raises TypeError. |
| Composer.FinishRecordFields | src/calibre/db/cache.py:97-137 | Each scalar attribute of the finished record is the book's value of its field or the default passed to `field_for`: comments, publisher, rating (None), timestamp, pubdate, last_modified (`now()`), uuid ('dummy'), title, author_sort and sort ('Unknown'), size (0), ondevice (''), identifiers (`{}`). `has_cover` is 'Yes' exactly when the cover field is truthy, and the tags are the items of the tags value. |
| Composer.Compose | src/calibre/db/cache.py:85-164 | `_get_metadata` asks the backend only for this book's format metadata and leaves both cover attributes unset. |
| Composer.ComposeKeyErrorOnDanglingAuthor | src/calibre/db/cache.py:86-96 | `_get_metadata` fails with KeyError exactly when some author id of the book is unknown to the authors field. When it does, the cache is unchanged and no backend call was made. |
| Composer.ComposeKeyErrorIsAuthors | src/calibre/db/cache.py:86-128 | KeyError comes only from the author loop: `_get_metadata` fails with it exactly when the book's authors do not all resolve, and then before any backend call and with the cache unchanged. |
| Composer.ComposeCarriesAuthors | src/calibre/db/cache.py:97-103 | A composed record carries the aggregated author list and the sort and link dictionaries. |
| Composer.ComposeAuthorsInOrder | src/calibre/db/cache.py:86-103 | The record's authors follow the book's author ids, one name per id, duplicates included. Both author dictionaries are keyed by exactly those names. |
| Composer.BookAuthorLastWins | src/calibre/db/cache.py:86-96 | For an aggregated author with no later same-named author, the id it came from is known to the authors field, and the dictionaries hold that author's stored sort and link. |
| Composer.ComposeAuthorLastWins | src/calibre/db/cache.py:92-103 | For an author with no later same-named author, the record's dictionaries hold that author's stored sort and link. |
| Composer.ComposeFormatList | src/calibre/db/cache.py:117-125 | A falsy `formats` value leaves `formats` unset and `format_metadata` empty, with no backend call. With a truthy value the record is composed only when every entry is a string; `formats` is then the comma join of the entries, and `format_metadata` has one key per entry. What each key holds is stated by `ComposeFormatValues`. |
| Composer.ComposeFormatValues | src/calibre/db/cache.py:117-125 | Each key of a composed record's `format_metadata` holds what the format cache holds, after the call, for the book and the upper-cased format, or `{}` when nothing is stored there. |
| Composer.ComposeFormatCalls | src/calibre/db/cache.py:117-123 | When the record is composed, every backend call is for this book and for one of its entries upper-cased, and no two calls ask for the same format. |
| Composer.ComposeRaisesAtEntry | src/calibre/db/cache.py:122-123 | At the first entry that raises (AttributeError for a truthy non-string, TypeError for a falsy list or dictionary), `_get_metadata` fails with that error. The cache and the calls are those of the pass over the string entries before it. |
| Composer.ComposeJoinRaises | src/calibre/db/cache.py:124 | When no entry raises inside the loop but some entry is not a string, `_get_metadata` fails with TypeError after the pass over all string entries. |
| Composer.ComposeKeepsEntries | src/calibre/db/cache.py:117-123 | `_get_metadata`, whether it succeeds or raises, never drops or changes an entry already in the format cache. |
| Composer.ComposeRecordFields | src/calibre/db/cache.py:97-137 | The same for every record that `_get_metadata` composes. |
| Composer.ComposeSeriesIndex | src/calibre/db/cache.py:129-132 | `series_index` is set exactly when `series` is truthy, and then holds the stored index or 1.0. |
| Composer.RecordGetIgnoresUserCategories | src/calibre/db/cache.py:155 | `mi.get` of a member's field does not depend on the user-category map, which is set only after the matching. |
| Composer.MatchesIgnoreUserCategories | src/calibre/db/cache.py:149-162 | Setting `user_categories` after the matching does not change what the matching found. |
| Composer.ComposeUserCategories | src/calibre/db/cache.py:149-162 | Without `get_user_categories` the map is empty. With it, every configured category gets an entry, and that entry lists its matching members in member order. |
| Composer.UnknownBookComposesDefaults | src/calibre/db/cache.py:97-137 | A book the registry does not know composes without error or backend call. The record holds the defaults: 'Unknown' for the title and both sorts, `now()` for the three dates, 'dummy' for the uuid, 0 for the size, '' for ondevice, no authors, formats, tags or series index, empty identifiers, and the book id twice. |
| Composer.SingleAuthorAuthors | src/calibre/db/cache.py:86-96 | A book with one author id resolving to "Alice" aggregates into the list ["Alice"] and one-entry sort and link dictionaries. |
| Composer.SingleAuthorScenario | src/calibre/db/cache.py:86-128 | A book with one author and a title but no formats or cover composes into that title, the one-name author list and its sort map, unset formats and an empty cover flag, with no backend call, whether or not user categories are asked for. |
| CacheFacade.TableFields | src/calibre/db/cache.py:176-177 | One field per backend table, built by `create_field(field, table)`. It has no contract of its own: `InitRegistry` states it, and `TableFieldsStep` states that registering one more table adds its field and nothing else. |
| CacheFacade.TableFieldsStep | src/calibre/db/cache.py:176-177 | One more turn of the table loop adds the field built from that table and leaves the fields of the tables registered so far as they were. |
| CacheFacade.InitRegistry | src/calibre/db/cache.py:168-179 | After `init`, the registry keeps its old fields and has one field built from each backend table. It also has the synthetic `ondevice` field, built from no table, which replaces a table of that name. |
| CacheFacade.CoverSpec | src/calibre/db/cache.py:301-325 | `cover` calls the backend exactly when the book's path resolves, an empty path included. It then makes one call, with that path and the requested shape, and returns the backend's answer. Otherwise it returns None. |
| CacheFacade.FormatAbspathSpec | src/calibre/db/cache.py:64-83 | `_format_abspath` calls the backend exactly when both the file name and the path resolve to non-empty strings. It then makes one call, with the book, the format, the name and the path, and returns the backend's answer. Otherwise it returns None. |
| CacheFacade.WithCover | src/calibre/db/cache.py:288-297 | The cover step keeps the format cache and every attribute other than the two cover attributes. With `cover_as_data`, `cover_data` becomes `('jpeg', data)` when the data is truthy; otherwise `cover` becomes the `as_path` answer. Exactly one cover request is added when a cover is asked for and the path resolves. Without `get_cover`, or after an error, nothing changes. |
| CacheFacade.GetMetadataCover | src/calibre/db/cache.py:278-299 | `get_metadata` returns the `_get_metadata` record with only the cover attributes filled. With `cover_as_data`, `cover` stays unset and `cover_data` is `('jpeg', data)` or unset. Without it, `cover_data` stays unset. |
| CacheFacade.SingleAuthorGetMetadata | src/calibre/db/cache.py:278-299 | `get_metadata` without a cover, for the one-author book, with or without user categories: the title, the one-name author list and its sort map, unset formats, an empty cover flag, no cover attribute and no backend call. |
| CacheFacade.Cache.constructor | src/calibre/db/cache.py:43-48 | A new cache keeps its backend and has an empty registry, an empty format cache and no backend calls yet. |
| CacheFacade.Cache.Init | src/calibre/db/cache.py:168-179 | Reads the tables once (one `ReadTables` call) and leaves the registry given by `InitRegistry`. |
| CacheFacade.Cache.FormatMetadata | src/calibre/db/cache.py:257-276 | Returns the answer, leaves the cache and adds the backend calls given by `FormatMetadataSpec` on the old cache. |
| CacheFacade.Cache.FormatAbspath | src/calibre/db/cache.py:64-83 | Returns the answer and adds the backend calls given by `FormatAbspathSpec`. |
| CacheFacade.Cache.Cover | src/calibre/db/cache.py:301-325 | Returns the answer and adds the backend calls given by `CoverSpec`. |
| CacheFacade.Cache.CollectEntry | src/calibre/db/cache.py:122-123 | One turn of the format loop on an entry that does not raise: it extends the pass by that entry's `format_metadata` call when it is a string, and changes nothing otherwise. |
| CacheFacade.Cache.CollectOneFormat | src/calibre/db/cache.py:122-123 | One `format_metadata` call for a string entry extends the pass of `CollectFormats` by that format. |
| CacheFacade.Cache.CollectFormatMetadata | src/calibre/db/cache.py:122-123 | The loop tests each entry and returns the exception of the first one that raises. The map, the cache and the calls are those of `CollectFormats` over the string entries before it. |
| CacheFacade.Cache.RunFormatEntries | src/calibre/db/cache.py:122-124 | The loop and the join give the accepted list or the error, the map, the cache and the calls of `RunFormats`. |
| CacheFacade.Cache.ComposeMetadata | src/calibre/db/cache.py:85-164 | `_get_metadata` gives the record or error, the cache and the backend calls of `Compose` on the old cache. |
| CacheFacade.Cache.AttachCover | src/calibre/db/cache.py:288-297 | The cover step of `get_metadata` gives the record and the calls of `WithCover`. |
| CacheFacade.Cache.GetMetadata | src/calibre/db/cache.py:278-299 | `get_metadata` gives the record or error, the cache and the backend calls of `WithCover` applied to `Compose` on the old cache. |

## Left out

- Locking is not modelled: the read and write locks, `RecordLock`, and the
  `dir()` loop in the constructor that wraps API methods in a lock. Each
  operation is one sequential method here, so concurrent callers are not
  modelled.
- The custom-column pass of `_get_metadata` (lines 138-147) and
  `composite_for` (lines 195-202) are not modelled. They rely on
  `field_metadata`, `Metadata.set_user_metadata` and
  `render_composite`, which this model does not see. As written, the pass
  also calls `append` on a dictionary and `composite_for` returns nothing.
- The module-level `test` function (lines 331-340) is not modelled. It
  opens a library on disk and prints.
- The modules that supply the cache's inputs are not part of this model:
  `create_field` and the field classes, the backend's `read_tables` and
  file I/O, `now()`, the translation function, and `prefs`. Each is a
  parameter or an uninterpreted function value.
- Values.Upper: upper-cases ASCII letters only. Python's `str.upper` also
  maps other Unicode letters.
- Values.Iterate: a `dict` value is not iterated, where Python's `for`
  and `list()` yield its keys. The two callers below inherit this.
- Composer.FormatEntries: a truthy `dict` `formats` value is refused with
  TypeError, where Python would loop over its keys.
- Composer.FinishRecord: a `dict` `tags` value is refused with TypeError,
  where `list()` would give its keys as the tag list.
- Composer.RunFormats: a falsy non-string entry that does not raise (None,
  0, False, `()`) is left out of `format_metadata`, where Python stores
  `{}` under it. The join then raises TypeError, so no record carries it.
- Aliasing is not modelled. `format_metadata` returns the dictionary that
  it stores in `format_metadata_cache` (lines 265 and 275-276), so a caller
  that mutates the answer, or a record's `format_metadata` entry, also
  changes the cached entry. Here the answer is a value, and the cache
  changes only through `Store`.
- Composer.RecordGet: the defaults of `Metadata` and the behaviour of
  `Metadata.get` and `set_identifiers` are not part of this model. An
  attribute that `_get_metadata` does not assign reads as None.
- Fields.PathFor: `replace('/', os.sep)` is treated as the identity, which
  is what it does on POSIX.
- FormatMemo.FormatMetadataSpec: a stored value of None cannot occur,
  because the backend always returns a mapping. The `is not None` test is
  therefore modelled as key presence.
- Composer.AggregateAuthors: the `aut_list` comprehension and the
  aggregation loop run as a single loop. This is equivalent because
  `author_data` only reads.
- `src/calibre/gui2/dialogs/tag_list_editor.py`, a Qt dialog, is not part
  of this model.
