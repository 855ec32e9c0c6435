/** The format-metadata memo (`Cache.format_metadata` and its
    `format_metadata_cache`, a `defaultdict(dict)` from book id to a
    dictionary from upper-cased format to derived file metadata). */
module FormatMemo {
  import opened Values
  import opened Fields
  import opened Storage

  type FormatCache = map<BookId, map<string, FormatMeta>>

  /** The entry stored for one book and one (already upper-cased) format. */
  function Lookup(c: FormatCache, bookId: BookId, fmt: string): Option<FormatMeta> {
    if bookId in c && fmt in c[bookId] then Some(c[bookId][fmt]) else None
  }

  /** Reading `format_metadata_cache[book_id]` of a defaultdict inserts an
      empty dictionary for a book it has not seen. */
  function Touch(c: FormatCache, bookId: BookId): (c': FormatCache)
    ensures bookId in c'
  {
    if bookId in c then c else c[bookId := map[]]
  }

  /** `format_metadata_cache[book_id][fmt] = ans`: sets that one entry and
      no other. */
  function Store(c: FormatCache, bookId: BookId, fmt: string, v: FormatMeta): (c': FormatCache)
    ensures StoredOnly(c, c', bookId, fmt, v)
  {
    c[bookId := (if bookId in c then c[bookId] else map[])[fmt := v]]
  }

  /** Both caches hold the same (book, format) entries; they may differ
      only in empty per-book dictionaries. */
  ghost predicate SameEntries(c: FormatCache, c': FormatCache) {
    forall b, f :: Lookup(c, b, f) == Lookup(c', b, f)
  }

  /** `c'` is `c` with the one entry for (bookId, fmt) set to `v`. */
  ghost predicate StoredOnly(c: FormatCache, c': FormatCache, bookId: BookId, fmt: string, v: FormatMeta) {
    && Lookup(c', bookId, fmt) == Some(v)
    && forall b, f :: (b, f) != (bookId, fmt) ==> Lookup(c', b, f) == Lookup(c, b, f)
  }

  lemma TouchKeepsEntries(c: FormatCache, bookId: BookId)
    ensures SameEntries(c, Touch(c, bookId))
  {
  }

  /** What one `format_metadata(book_id, fmt, allow_cache)` call returns,
      the cache it leaves and the backend calls it makes. */
  datatype Outcome = Outcome(result: FormatMeta, cache: FormatCache, calls: seq<Call>)

  /** `Cache.format_metadata`. `backendMeta` is `backend.format_metadata`. */
  function FormatMetadataSpec(fields: Registry, backendMeta: (BookId, string, string, string) -> FormatMeta,
                              c: FormatCache, bookId: BookId, fmt: string, allowCache: bool): (o: Outcome)
    ensures |o.calls| <= 1
    ensures o.calls != [] ==> o.calls[0].FormatMetadataCall? && o.calls[0].bookId == bookId && o.calls[0].fmt == Upper(fmt)
  {
    if fmt == "" then Outcome(map[], c, [])
    else
      var key := Upper(fmt);
      var c1 := if allowCache then Touch(c, bookId) else c;
      if allowCache && key in c1[bookId] then Outcome(c1[bookId][key], c1, [])
      else
        match (FormatFname(fields, bookId, key), PathFor(fields, bookId))
        case (Some(name), Some(path)) =>
          if path != "" && name != "" then
            var ans := backendMeta(bookId, key, name, path);
            Outcome(ans, Store(c1, bookId, key, ans), [FormatMetadataCall(bookId, key, name, path)])
          else Outcome(map[], c1, [])
        case _ => Outcome(map[], c1, [])
  }

  /** With `allow_cache`, a stored entry for the upper-cased format is
      returned as it is and the backend is not called. */
  lemma CacheHitMakesNoCall(fields: Registry, backendMeta: (BookId, string, string, string) -> FormatMeta,
                            c: FormatCache, bookId: BookId, fmt: string, v: FormatMeta)
    requires fmt != "" && Lookup(c, bookId, Upper(fmt)) == Some(v)
    ensures var o := FormatMetadataSpec(fields, backendMeta, c, bookId, fmt, true);
            o.result == v && o.calls == [] && o.cache == c
  {
  }

  /** A miss whose path and file name resolve to non-empty strings asks the
      backend once, with the upper-cased format, and stores its answer
      under that key and nowhere else. */
  lemma MissStoresUnderUpperKey(fields: Registry, backendMeta: (BookId, string, string, string) -> FormatMeta,
                                c: FormatCache, bookId: BookId, fmt: string, allowCache: bool,
                                name: string, path: string)
    requires fmt != ""
    requires !(allowCache && Lookup(c, bookId, Upper(fmt)).Some?)
    requires FormatFname(fields, bookId, Upper(fmt)) == Some(name) && name != ""
    requires PathFor(fields, bookId) == Some(path) && path != ""
    ensures var o := FormatMetadataSpec(fields, backendMeta, c, bookId, fmt, allowCache);
            && o.result == backendMeta(bookId, Upper(fmt), name, path)
            && o.calls == [FormatMetadataCall(bookId, Upper(fmt), name, path)]
            && StoredOnly(c, o.cache, bookId, Upper(fmt), o.result)
  {
    var c1 := if allowCache then Touch(c, bookId) else c;
    TouchKeepsEntries(c, bookId);
  }

  /** The backend can be asked about `key`: the file name and the path
      both resolve to non-empty strings (line 272). */
  ghost predicate Fetches(fields: Registry, bookId: BookId, key: string) {
    && FormatFname(fields, bookId, key).Some? && FormatFname(fields, bookId, key).value != ""
    && PathFor(fields, bookId).Some? && PathFor(fields, bookId).value != ""
  }

  /** What an `allow_cache` call leaves under its own key: a stored entry
      stays and is the answer; on a miss the answer is stored when the
      backend can be asked, and otherwise the answer is `{}` and the key
      stays absent. */
  lemma CachedCallAnswer(fields: Registry, backendMeta: (BookId, string, string, string) -> FormatMeta,
                         c: FormatCache, bookId: BookId, fmt: string)
    requires fmt != ""
    ensures var o := FormatMetadataSpec(fields, backendMeta, c, bookId, fmt, true);
            var key := Upper(fmt);
            && (Lookup(c, bookId, key).Some? ==>
                  Lookup(o.cache, bookId, key) == Lookup(c, bookId, key) && o.result == Lookup(c, bookId, key).value)
            && (Lookup(c, bookId, key).None? && Fetches(fields, bookId, key) ==>
                  Lookup(o.cache, bookId, key) == Some(o.result))
            && (Lookup(c, bookId, key).None? && !Fetches(fields, bookId, key) ==>
                  Lookup(o.cache, bookId, key).None? && o.result == map[])
  {
    TouchKeepsEntries(c, bookId);
  }

  /** The three ways to `{}` without touching the backend or the stored
      entries: an empty format, a path or file name that does not
      resolve, and one that resolves to an empty string. */
  lemma EmptyResultPaths(fields: Registry, backendMeta: (BookId, string, string, string) -> FormatMeta,
                         c: FormatCache, bookId: BookId, fmt: string, allowCache: bool)
    requires fmt == ""
             || (!(allowCache && Lookup(c, bookId, Upper(fmt)).Some?)
                 && (FormatFname(fields, bookId, Upper(fmt)).None? || PathFor(fields, bookId).None?
                     || FormatFname(fields, bookId, Upper(fmt)) == Some("") || PathFor(fields, bookId) == Some("")))
    ensures var o := FormatMetadataSpec(fields, backendMeta, c, bookId, fmt, allowCache);
            o.result == map[] && o.calls == [] && SameEntries(c, o.cache)
  {
    TouchKeepsEntries(c, bookId);
  }

  /** No call of `format_metadata` removes or changes an entry other than
      the one for its own book and upper-cased format. */
  lemma OnlyOwnEntryChanges(fields: Registry, backendMeta: (BookId, string, string, string) -> FormatMeta,
                            c: FormatCache, bookId: BookId, fmt: string, allowCache: bool, b: BookId, f: string)
    requires (b, f) != (bookId, Upper(fmt))
    ensures Lookup(FormatMetadataSpec(fields, backendMeta, c, bookId, fmt, allowCache).cache, b, f) == Lookup(c, b, f)
  {
    TouchKeepsEntries(c, bookId);
  }

  /** With `allow_cache`, a call never replaces an entry that is already
      stored: a hit returns it as it is, and a miss stores under a key that
      was absent. */
  lemma CachedCallKeepsEntries(fields: Registry, backendMeta: (BookId, string, string, string) -> FormatMeta,
                               c: FormatCache, bookId: BookId, fmt: string, b: BookId, f: string)
    requires Lookup(c, b, f).Some?
    ensures Lookup(FormatMetadataSpec(fields, backendMeta, c, bookId, fmt, true).cache, b, f) == Lookup(c, b, f)
  {
    TouchKeepsEntries(c, bookId);
  }

  /** After a call that reached the backend, a second call with
      `allow_cache` for any spelling of the same format (`'epub'` after
      `'EPUB'`) returns the same answer, leaves the cache as it is and
      makes no backend call. */
  lemma SecondCallIsServedFromCache(fields: Registry, backendMeta: (BookId, string, string, string) -> FormatMeta,
                                    c: FormatCache, bookId: BookId, fmt: string, allowCache: bool, fmt2: string)
    requires FormatMetadataSpec(fields, backendMeta, c, bookId, fmt, allowCache).calls != []
    requires fmt2 != "" && Upper(fmt2) == Upper(fmt)
    ensures var o1 := FormatMetadataSpec(fields, backendMeta, c, bookId, fmt, allowCache);
            FormatMetadataSpec(fields, backendMeta, o1.cache, bookId, fmt2, true) == Outcome(o1.result, o1.cache, [])
  {
    var o1 := FormatMetadataSpec(fields, backendMeta, c, bookId, fmt, allowCache);
    assert fmt != "";
    var c1 := if allowCache then Touch(c, bookId) else c;
    assert o1.cache == Store(c1, bookId, Upper(fmt), o1.result);
  }

  /** Two calls in a row with `allow_cache` for one book and format make
      at most one backend call between them. */
  lemma TwoCachedCallsAtMostOneBackendCall(fields: Registry, backendMeta: (BookId, string, string, string) -> FormatMeta,
                                           c: FormatCache, bookId: BookId, fmt: string)
    ensures var o1 := FormatMetadataSpec(fields, backendMeta, c, bookId, fmt, true);
            var o2 := FormatMetadataSpec(fields, backendMeta, o1.cache, bookId, fmt, true);
            |o1.calls + o2.calls| <= 1
  {
    var o1 := FormatMetadataSpec(fields, backendMeta, c, bookId, fmt, true);
    if o1.calls != [] {
      SecondCallIsServedFromCache(fields, backendMeta, c, bookId, fmt, true, fmt);
    } else if fmt != "" {
      var key := Upper(fmt);
      var c1 := Touch(c, bookId);
      if key !in c1[bookId] {
        assert o1.cache == c1;
        assert Touch(c1, bookId) == c1;
      }
    }
  }
}
