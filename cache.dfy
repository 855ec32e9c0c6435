/** The cache façade (`class Cache` of src/calibre/db/cache.py): the
    registry filled by `init`, the format-metadata memo, path resolution
    for covers and format files, and metadata composition. Locking is left
    out: each operation is one sequential method. */
module CacheFacade {
  import opened Values
  import opened Fields
  import opened Storage
  import opened FormatMemo
  import opened Composer

  /** One field per backend table, built by `create_field(field, table)`. */
  function TableFields<Table>(tables: map<string, Table>, createField: (string, Option<Table>) -> Field): Registry {
    map n | n in tables :: createField(n, Some(tables[n]))
  }

  /** Registering one more table adds its field and nothing else. */
  lemma TableFieldsStep<Table>(tables: map<string, Table>, todo: set<string>, name: string,
                               createField: (string, Option<Table>) -> Field)
    requires name in todo && todo <= tables.Keys
    ensures TableFields(tables - (todo - {name}), createField)
            == TableFields(tables - todo, createField)[name := createField(name, Some(tables[name]))]
  {
  }

  /** The registry `init` leaves behind: the old entries, one field per
      table, and the synthetic `ondevice` field (which wins over a table of
      that name). */
  function InitRegistry<Table>(old_fields: Registry, tables: map<string, Table>,
                               createField: (string, Option<Table>) -> Field): (r: Registry)
    ensures r.Keys == old_fields.Keys + tables.Keys + {"ondevice"}
    ensures r["ondevice"] == createField("ondevice", None)
    ensures forall n :: n in tables && n != "ondevice" ==> r[n] == createField(n, Some(tables[n]))
    ensures forall n :: n in old_fields && n !in tables && n != "ondevice" ==> r[n] == old_fields[n]
  {
    (old_fields + TableFields(tables, createField))["ondevice" := createField("ondevice", None)]
  }

  /** `cover(book_id, ...)`: its answer and its backend calls. The backend
      is asked exactly when the book's path resolves (an empty path
      included), once, with that path and the requested shape, and its
      answer is returned; otherwise the answer is None. */
  function CoverSpec(fields: Registry, coverFn: (string, CoverShape) -> Value,
                     bookId: BookId, shape: CoverShape): (r: (Value, seq<Call>))
    ensures r.1 == [] <==> PathFor(fields, bookId).None?
    ensures r.1 == [] ==> r.0 == VNone
    ensures r.1 != [] ==>
              var path := PathFor(fields, bookId).value;
              r.1 == [CoverCall(path, shape)] && r.0 == coverFn(path, shape)
  {
    match PathFor(fields, bookId)
    case None => (VNone, [])
    case Some(path) => (coverFn(path, shape), [CoverCall(path, shape)])
  }

  /** `_format_abspath(book_id, fmt)`: its answer and its backend calls.
      The backend is asked exactly when both the file name and the path
      resolve to non-empty strings, once, with them, and its answer is
      returned; otherwise the answer is None. */
  function FormatAbspathSpec(fields: Registry, abspathFn: (BookId, string, string, string) -> Option<string>,
                             bookId: BookId, fmt: string): (r: (Option<string>, seq<Call>))
    ensures r.1 != [] <==>
              && FormatFname(fields, bookId, fmt).Some? && FormatFname(fields, bookId, fmt).value != ""
              && PathFor(fields, bookId).Some? && PathFor(fields, bookId).value != ""
    ensures r.1 == [] ==> r.0.None?
    ensures r.1 != [] ==>
              var name, path := FormatFname(fields, bookId, fmt).value, PathFor(fields, bookId).value;
              r.1 == [FormatAbspathCall(bookId, fmt, name, path)] && r.0 == abspathFn(bookId, fmt, name, path)
  {
    match (FormatFname(fields, bookId, fmt), PathFor(fields, bookId))
    case (Some(name), Some(path)) =>
      if name != "" && path != "" then (abspathFn(bookId, fmt, name, path), [FormatAbspathCall(bookId, fmt, name, path)])
      else (None, [])
    case _ => (None, [])
  }

  /** The cover step of `get_metadata`, applied to the outcome `o` of
      `_get_metadata`: if asked for and `o` succeeded, the cover, as bytes
      tagged `'jpeg'` when they are non-empty or as a temporary-file path.
      It keeps every attribute `_get_metadata` assigned and the format
      cache it left, and adds exactly one cover request when a cover is
      asked for and the path resolves. */
  function WithCover(fields: Registry, coverFn: (string, CoverShape) -> Value, o: Composed, bookId: BookId,
                     getCover: bool, coverAsData: bool): (g: Composed)
    ensures g.cache == o.cache
    ensures o.result.Err? || !getCover ==> g == o
    ensures o.result.Ok? ==> g.result.Ok? && g.result.value.(cover := None, coverData := None) == o.result.value.(cover := None, coverData := None)
    ensures o.result.Ok? && getCover && !coverAsData ==>
              && g.result.value.cover == Some(CoverSpec(fields, coverFn, bookId, CoverShape(false, false, true)).0)
              && g.result.value.coverData == o.result.value.coverData
    ensures o.result.Ok? && getCover && coverAsData ==>
              var cd := CoverSpec(fields, coverFn, bookId, CoverShape(false, false, false)).0;
              && g.result.value.cover == o.result.value.cover
              && g.result.value.coverData == (if Truthy(cd) then Some(("jpeg", cd)) else o.result.value.coverData)
    ensures o.result.Ok? && getCover ==>
              g.calls == o.calls + (if PathFor(fields, bookId).Some?
                                    then [CoverCall(PathFor(fields, bookId).value, CoverShape(false, false, !coverAsData))]
                                    else [])
  {
    if o.result.Err? || !getCover then o
    else if coverAsData then
      var (cdata, calls) := CoverSpec(fields, coverFn, bookId, CoverShape(false, false, false));
      var mi := o.result.value;
      Composed(Ok(if Truthy(cdata) then mi.(coverData := Some(("jpeg", cdata))) else mi), o.cache, o.calls + calls)
    else
      var (path, calls) := CoverSpec(fields, coverFn, bookId, CoverShape(false, false, true));
      Composed(Ok(o.result.value.(cover := Some(path))), o.cache, o.calls + calls)
  }

  /** `get_metadata`: `_get_metadata` and then its cover step. Since
      `_get_metadata` leaves both cover attributes unset, the record ends
      up carrying exactly the cover that was fetched. */
  lemma GetMetadataCover<Table>(fields: Registry, backend: Backend<Table>, c: FormatCache, bookId: BookId,
                                getCover: bool, getUserCategories: bool, coverAsData: bool, env: Env)
    ensures var o := Compose(fields, backend.formatMetadata, c, bookId, getUserCategories, env);
            var g := WithCover(fields, backend.cover, o, bookId, getCover, coverAsData);
            && (o.result.Ok? ==> g.result.Ok? && g.result.value.(cover := None, coverData := None) == o.result.value)
            && (o.result.Ok? && getCover && !coverAsData ==> g.result.value.coverData.None?)
            && (o.result.Ok? && getCover && coverAsData ==>
                  var cd := CoverSpec(fields, backend.cover, bookId, CoverShape(false, false, false)).0;
                  g.result.value.cover.None? && g.result.value.coverData == (if Truthy(cd) then Some(("jpeg", cd)) else None))
  {
  }

  /** `get_metadata(1, get_cover=False)` on the one-author book: the title
      "Foo", the author list ["Alice"], the sort map
      {"Alice": "Alice, A."}, unset formats, an empty cover flag and no
      cover attribute, with no backend call. */
  lemma SingleAuthorGetMetadata<Table>(backend: Backend<Table>, c: FormatCache,
                                       getUserCategories: bool, coverAsData: bool, env: Env)
    ensures var fields := SingleAuthorRegistry();
            var g := WithCover(fields, backend.cover, Compose(fields, backend.formatMetadata, c, 1, getUserCategories, env),
                               1, false, coverAsData);
            && g.result.Ok? && g.calls == []
            && var mi := g.result.value;
            && mi.title == VStr("Foo") && mi.authors == ["Alice"]
            && mi.authorSortMap == map["Alice" := "Alice, A."]
            && mi.formats.None? && mi.hasCover == ""
            && mi.cover.None? && mi.coverData.None?
  {
    SingleAuthorScenario(backend.formatMetadata, c, getUserCategories, env);
  }


  class Cache<Table> {
    const backend: Backend<Table>
    /** `create_field` of calibre.db.fields, which this model does not see. */
    const createField: (string, Option<Table>) -> Field
    /** `self.fields`. */
    var fields: Registry
    /** `self.format_metadata_cache`. */
    var formatMetadataCache: FormatCache
    /** Every backend call made so far, in order. */
    ghost var calls: seq<Call>

    constructor (backend: Backend<Table>, createField: (string, Option<Table>) -> Field)
      ensures this.backend == backend && this.createField == createField
      ensures fields == map[] && formatMetadataCache == map[] && calls == []
    {
      this.backend := backend;
      this.createField := createField;
      fields := map[];
      formatMetadataCache := map[];
      calls := [];
    }

    /** `init`: read the tables, register one field per table, then the
        synthetic `ondevice` field. */
    method Init()
      modifies this`fields, this`calls
      ensures fields == InitRegistry(old(fields), backend.tables, createField)
      ensures calls == old(calls) + [ReadTables]
    {
      calls := calls + [ReadTables];
      var tables := backend.tables;
      var todo := tables.Keys;
      while todo != {}
        invariant todo <= tables.Keys
        invariant fields == old(fields) + TableFields(tables - todo, createField)
        invariant calls == old(calls) + [ReadTables]
        decreases todo
      {
        var name :| name in todo;
        TableFieldsStep(tables, todo, name, createField);
        fields := fields[name := createField(name, Some(tables[name]))];
        todo := todo - {name};
      }
      assert tables - {} == tables;
      fields := fields["ondevice" := createField("ondevice", None)];
    }

    /** `format_metadata(book_id, fmt, allow_cache)`. */
    method FormatMetadata(bookId: BookId, fmt: string, allowCache: bool) returns (r: FormatMeta)
      modifies this`formatMetadataCache, this`calls
      ensures var o := FormatMetadataSpec(fields, backend.formatMetadata, old(formatMetadataCache), bookId, fmt, allowCache);
              r == o.result && formatMetadataCache == o.cache && calls == old(calls) + o.calls
    {
      if fmt == "" {
        return map[];
      }
      var key := Upper(fmt);
      if allowCache {
        if bookId !in formatMetadataCache {
          formatMetadataCache := formatMetadataCache[bookId := map[]];
        }
        if key in formatMetadataCache[bookId] {
          return formatMetadataCache[bookId][key];
        }
      }
      var name := FormatFname(fields, bookId, key);
      var path := PathFor(fields, bookId);
      if name.None? || path.None? {
        return map[];
      }
      r := map[];
      if path.value != "" && name.value != "" {
        r := backend.formatMetadata(bookId, key, name.value, path.value);
        calls := calls + [FormatMetadataCall(bookId, key, name.value, path.value)];
        var perBook := if bookId in formatMetadataCache then formatMetadataCache[bookId] else map[];
        formatMetadataCache := formatMetadataCache[bookId := perBook[key := r]];
      }
    }

    /** `_format_abspath(book_id, fmt)`. */
    method FormatAbspath(bookId: BookId, fmt: string) returns (r: Option<string>)
      modifies this`calls
      ensures var (v, made) := FormatAbspathSpec(fields, backend.formatAbspath, bookId, fmt);
              r == v && calls == old(calls) + made
    {
      var name := FormatFname(fields, bookId, fmt);
      var path := PathFor(fields, bookId);
      if name.None? || path.None? {
        return None;
      }
      r := None;
      if name.value != "" && path.value != "" {
        r := backend.formatAbspath(bookId, fmt, name.value, path.value);
        calls := calls + [FormatAbspathCall(bookId, fmt, name.value, path.value)];
      }
    }

    /** `cover(book_id, as_file, as_image, as_path)`. */
    method Cover(bookId: BookId, shape: CoverShape) returns (r: Value)
      modifies this`calls
      ensures var (v, made) := CoverSpec(fields, backend.cover, bookId, shape);
              r == v && calls == old(calls) + made
    {
      var path := PathFor(fields, bookId);
      if path.None? {
        return VNone;
      }
      r := backend.cover(path.value, shape);
      calls := calls + [CoverCall(path.value, shape)];
    }

    /** One turn of the loop over the format entries: entry `i` does not
        raise, so a string entry gets its `format_metadata` call and any
        other entry (a falsy one) changes nothing. `fs` holds the string entries before
        `i`, and the pass over them started from the format cache `c0`. */
    method CollectEntry(bookId: BookId, ghost c0: FormatCache, ghost calls0: seq<Call>, xs: seq<Value>, i: nat,
                        ghost fs: seq<string>, m: map<string, FormatMeta>)
      returns (m': map<string, FormatMeta>, ghost fs': seq<string>)
      modifies this`formatMetadataCache, this`calls
      requires i < |xs| && fs == StringEntries(xs[..i])
      requires var p := CollectFormats(fields, backend.formatMetadata, c0, bookId, fs);
               m == p.metadata && formatMetadataCache == p.cache && calls == calls0 + p.calls
      ensures fs' == StringEntries(xs[..i + 1])
      ensures var q := CollectFormats(fields, backend.formatMetadata, c0, bookId, fs');
              m' == q.metadata && formatMetadataCache == q.cache && calls == calls0 + q.calls
    {
      StringEntriesSnoc(xs, i);
      m', fs' := m, fs;
      if xs[i].VStr? {
        m' := CollectOneFormat(bookId, c0, calls0, fs, m, xs[i].s);
        fs' := fs + [xs[i].s];
      }
    }

    /** The `format_metadata` call for the string entry `f`, after the
        pass over `fs` that started from the format cache `c0`. */
    method CollectOneFormat(bookId: BookId, ghost c0: FormatCache, ghost calls0: seq<Call>, ghost fs: seq<string>,
                            m: map<string, FormatMeta>, f: string)
      returns (m': map<string, FormatMeta>)
      modifies this`formatMetadataCache, this`calls
      requires var p := CollectFormats(fields, backend.formatMetadata, c0, bookId, fs);
               m == p.metadata && formatMetadataCache == p.cache && calls == calls0 + p.calls
      ensures var q := CollectFormats(fields, backend.formatMetadata, c0, bookId, fs + [f]);
              m' == q.metadata && formatMetadataCache == q.cache && calls == calls0 + q.calls
    {
      CollectFormatsSnoc(fields, backend.formatMetadata, c0, bookId, fs, f);
      var x := FormatMetadata(bookId, f, true);
      m' := m[f := x];
    }

    /** Lines 122-123: the loop over the format entries, one
        `format_metadata` call per string entry. A falsy non-string entry
        gets `{}` from `format_metadata` without any effect; the first
        entry that raises ends the loop with its exception. */
    method CollectFormatMetadata(bookId: BookId, xs: seq<Value>) returns (m: map<string, FormatMeta>, err: Option<Error>)
      modifies this`formatMetadataCache, this`calls
      ensures var k := LeadingEntries(xs);
              var p := CollectFormats(fields, backend.formatMetadata, old(formatMetadataCache), bookId, StringEntries(xs[..k]));
              && m == p.metadata && formatMetadataCache == p.cache && calls == old(calls) + p.calls
              && (err.Some? <==> k < |xs|)
              && (k < |xs| ==> err == EntryError(xs[k]))
    {
      m, err := map[], None;
      ghost var fs: seq<string> := [];
      ghost var c0, calls0 := formatMetadataCache, calls;
      ghost var fl, bm := fields, backend.formatMetadata;
      assert xs[..0] == [];
      var i := 0;
      while i < |xs|
        invariant i <= |xs|
        invariant forall j :: 0 <= j < i ==> EntryError(xs[j]).None?
        invariant fs == StringEntries(xs[..i])
        invariant var p := CollectFormats(fl, bm, c0, bookId, fs);
                  m == p.metadata && formatMetadataCache == p.cache && calls == calls0 + p.calls
      {
        var e := EntryError(xs[i]);
        if e.Some? {
          assert LeadingEntries(xs) == i;
          err := e;
          return;
        }
        assert forall j :: 0 <= j < i + 1 ==> EntryError(xs[j]).None?;
        m, fs := CollectEntry(bookId, c0, calls0, xs, i, fs, m);
        i := i + 1;
      }
      assert LeadingEntries(xs) == |xs|;
    }

    /** Lines 122-124: the format loop, then the join's check that every
        entry is a string. */
    method RunFormatEntries(bookId: BookId, xs: seq<Value>) returns (formats: Result<seq<string>>, m: map<string, FormatMeta>)
      modifies this`formatMetadataCache, this`calls
      ensures var st := RunFormats(fields, backend.formatMetadata, old(formatMetadataCache), bookId, xs);
              formats == st.formats && m == st.pass.metadata && formatMetadataCache == st.pass.cache
              && calls == old(calls) + st.pass.calls
    {
      var err;
      m, err := CollectFormatMetadata(bookId, xs);
      if err.Some? {
        return Err(err.value), m;
      }
      if exists j :: 0 <= j < |xs| && !xs[j].VStr? {
        return Err(TypeError), m;
      }
      formats := Ok(StringEntries(xs));
    }

    /** `_get_metadata(book_id, get_user_categories)`, without the
        custom-column pass. */
    method ComposeMetadata(bookId: BookId, getUserCategories: bool, env: Env) returns (r: Result<Metadata>)
      modifies this`formatMetadataCache, this`calls
      ensures var o := Compose(fields, backend.formatMetadata, old(formatMetadataCache), bookId, getUserCategories, env);
              r == o.result && formatMetadataCache == o.cache && calls == old(calls) + o.calls
    {
      var agg := AggregateAuthors(fields, bookId);
      if agg.Err? {
        return Err(agg.error);
      }
      var fe := FormatEntries(FieldFor(fields, "formats", bookId, VNone));
      if fe.Err? {
        return Err(fe.error);
      }
      var formats, fmd := RunFormatEntries(bookId, fe.value);
      if formats.Err? {
        return Err(formats.error);
      }
      r := FinishRecord(fields, bookId, env, agg.value, formats.value, fmd, getUserCategories);
    }

    /** The cover step of `get_metadata`, after `_get_metadata` composed
        `composed` with the outcome `o`, whose calls were logged after
        `calls0`. */
    method AttachCover(bookId: BookId, getCover: bool, coverAsData: bool, composed: Result<Metadata>,
                       ghost o: Composed, ghost calls0: seq<Call>)
      returns (r: Result<Metadata>)
      modifies this`calls
      requires composed == o.result && calls == calls0 + o.calls
      ensures var g := WithCover(fields, backend.cover, o, bookId, getCover, coverAsData);
              r == g.result && calls == calls0 + g.calls
    {
      r := composed;
      if r.Ok? && getCover {
        var mi := r.value;
        if coverAsData {
          var cdata := Cover(bookId, CoverShape(false, false, false));
          if Truthy(cdata) {
            mi := mi.(coverData := Some(("jpeg", cdata)));
          }
        } else {
          var path := Cover(bookId, CoverShape(false, false, true));
          mi := mi.(cover := Some(path));
        }
        r := Ok(mi);
      }
    }

    /** `get_metadata(book_id, get_cover, get_user_categories, cover_as_data)`. */
    method GetMetadata(bookId: BookId, getCover: bool, getUserCategories: bool, coverAsData: bool, env: Env)
      returns (r: Result<Metadata>)
      modifies this`formatMetadataCache, this`calls
      ensures var g := WithCover(fields, backend.cover,
                                 Compose(fields, backend.formatMetadata, old(formatMetadataCache), bookId, getUserCategories, env),
                                 bookId, getCover, coverAsData);
              r == g.result && formatMetadataCache == g.cache && calls == old(calls) + g.calls
    {
      ghost var o := Compose(fields, backend.formatMetadata, formatMetadataCache, bookId, getUserCategories, env);
      r := ComposeMetadata(bookId, getUserCategories, env);
      r := AttachCover(bookId, getCover, coverAsData, r, o, old(calls));
    }
  }
}
