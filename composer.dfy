/** The metadata composer (`Cache._get_metadata`, without the custom-column
    pass): author aggregation, typed defaults for the scalar fields, the
    format list with its per-format metadata, the series index and the
    user-category matching. */
module Composer {
  import opened Values
  import opened Fields
  import opened Storage
  import opened FormatMemo

  /** The attributes `_get_metadata` assigns on its `Metadata` record.
      `seriesIndex`, `cover` and `coverData` are None when they are not
      assigned; `userCategories` maps a category to its `[name, cat]`
      matches. */
  datatype Metadata = Metadata(
    title: Value,
    authors: seq<string>,
    authorSort: Value,
    authorSortMap: map<string, string>,
    authorLinkMap: map<string, string>,
    comments: Value,
    publisher: Value,
    timestamp: Value,
    pubdate: Value,
    uuid: Value,
    titleSort: Value,
    bookSize: Value,
    ondeviceCol: Value,
    lastModified: Value,
    formatMetadata: map<string, FormatMeta>,
    formats: Option<string>,
    hasCover: string,
    tags: seq<Value>,
    series: Value,
    seriesIndex: Option<Value>,
    rating: Value,
    identifiers: Value,
    applicationId: BookId,
    id: BookId,
    userCategories: map<string, seq<(string, string)>>,
    cover: Option<Value>,
    coverData: Option<(string, Value)>)

  /** One member of a user category: (name, backing field, ignored flag). */
  type Member = (string, string, bool)

  /** What the composer takes from its surroundings: `now()`, the
      translated `_('Unknown')` and `_('Yes')`, and
      `prefs['user_categories']`. */
  datatype Env = Env(now: Value, unknown: string, yes: string, userCategories: map<string, seq<Member>>)

  // ---------------------------------------------------------------- authors

  /** The author's dictionary has the three keys the aggregation reads. */
  predicate Resolvable(fields: Registry, authorId: ItemId) {
    var d := AuthorData(fields, authorId);
    "name" in d && "sort" in d && "link" in d
  }

  function RecordOf(fields: Registry, authorId: ItemId): AuthorRecord
    requires Resolvable(fields, authorId)
  {
    var d := AuthorData(fields, authorId);
    AuthorRecord(d["name"], d["sort"], d["link"])
  }

  /** `[self._author_data(i) for i in author_ids]`, as records; None when
      some dictionary lacks a key, which makes `rec['name']` raise. */
  function ResolveAuthors(fields: Registry, ids: seq<ItemId>): (r: Option<seq<AuthorRecord>>)
    ensures r.Some? <==> forall k :: 0 <= k < |ids| ==> Resolvable(fields, ids[k])
    ensures r.Some? ==> |r.value| == |ids| && forall k :: 0 <= k < |ids| ==> r.value[k] == RecordOf(fields, ids[k])
  {
    if forall k :: 0 <= k < |ids| ==> Resolvable(fields, ids[k]) then
      Some(seq(|ids|, k requires 0 <= k < |ids| => RecordOf(fields, ids[k])))
    else None
  }

  /** A resolvable author is exactly one the authors field knows. */
  lemma ResolvableIsKnown(fields: Registry, authorId: ItemId)
    ensures Resolvable(fields, authorId) <==> "authors" in fields && authorId in fields["authors"].authors
    ensures Resolvable(fields, authorId) ==> RecordOf(fields, authorId) == fields["authors"].authors[authorId]
  {
  }

  function Names(recs: seq<AuthorRecord>): seq<string> {
    seq(|recs|, k requires 0 <= k < |recs| => recs[k].name)
  }

  function SortPairs(recs: seq<AuthorRecord>): seq<(string, string)> {
    seq(|recs|, k requires 0 <= k < |recs| => (recs[k].name, recs[k].sort))
  }

  function LinkPairs(recs: seq<AuthorRecord>): seq<(string, string)> {
    seq(|recs|, k requires 0 <= k < |recs| => (recs[k].name, recs[k].link))
  }

  /** A dictionary filled from (key, value) pairs in order, so that a later
      pair overwrites an earlier one with the same key. */
  function LastWins(ps: seq<(string, string)>): (m: map<string, string>)
    decreases |ps|
  {
    if ps == [] then map[] else LastWins(ps[..|ps| - 1])[ps[|ps| - 1].0 := ps[|ps| - 1].1]
  }

  /** The keys of a last-wins dictionary are the keys of its pairs. */
  lemma {:induction false} LastWinsKeys(ps: seq<(string, string)>)
    ensures LastWins(ps).Keys == set k | 0 <= k < |ps| :: ps[k].0
    decreases |ps|
  {
    if ps != [] {
      var front := ps[..|ps| - 1];
      LastWinsKeys(front);
      assert forall k :: 0 <= k < |front| ==> front[k] == ps[k];
      assert (set k | 0 <= k < |ps| :: ps[k].0) == (set k | 0 <= k < |front| :: front[k].0) + {ps[|ps| - 1].0};
    }
  }

  /** The value under a key is the one of the last pair with that key. */
  lemma {:induction false} LastWinsAt(ps: seq<(string, string)>, i: nat)
    requires i < |ps|
    requires forall j :: i < j < |ps| ==> ps[j].0 != ps[i].0
    ensures ps[i].0 in LastWins(ps) && LastWins(ps)[ps[i].0] == ps[i].1
    decreases |ps|
  {
    if i < |ps| - 1 {
      var front := ps[..|ps| - 1];
      assert front[i] == ps[i];
      LastWinsAt(front, i);
    }
  }

  /** The author list and the two author-keyed dictionaries. */
  datatype Authors = Authors(names: seq<string>, sortMap: map<string, string>, linkMap: map<string, string>)

  /** The `aum`, `aus` and `aul` that the loop over the author records
      builds. */
  function Aggregate(recs: seq<AuthorRecord>): Authors {
    Authors(Names(recs), LastWins(SortPairs(recs)), LastWins(LinkPairs(recs)))
  }

  /** The aggregated authors of a book, read from the registry. */
  function BookAuthors(fields: Registry, bookId: BookId): Option<Authors> {
    match ResolveAuthors(fields, FieldIdsFor(fields, "authors", bookId))
    case None => None
    case Some(recs) => Some(Aggregate(recs))
  }

  /** Lines 87-96: author aggregation. A dangling author id (its
      dictionary is `{}`) raises KeyError. */
  method AggregateAuthors(fields: Registry, bookId: BookId) returns (r: Result<Authors>)
    ensures BookAuthors(fields, bookId).None? <==> r.Err?
    ensures r.Err? ==> r.error == KeyError
    ensures r.Ok? ==> Some(r.value) == BookAuthors(fields, bookId)
  {
    var ids := FieldIdsFor(fields, "authors", bookId);
    var aum: seq<string> := [];
    var aus: map<string, string> := map[];
    var aul: map<string, string> := map[];
    ghost var recs: seq<AuthorRecord> := [];
    for i := 0 to |ids|
      invariant |recs| == i
      invariant forall k :: 0 <= k < i ==> Resolvable(fields, ids[k]) && recs[k] == RecordOf(fields, ids[k])
      invariant aum == Names(recs) && aus == LastWins(SortPairs(recs)) && aul == LastWins(LinkPairs(recs))
    {
      var rec := AuthorData(fields, ids[i]);
      if !("name" in rec && "sort" in rec && "link" in rec) {
        return Err(KeyError);
      }
      var aut := rec["name"];
      ghost var rec' := AuthorRecord(aut, rec["sort"], rec["link"]);
      assert SortPairs(recs + [rec'])[..i] == SortPairs(recs);
      assert LinkPairs(recs + [rec'])[..i] == LinkPairs(recs);
      aum := aum + [aut];
      aus := aus[aut := rec["sort"]];
      aul := aul[aut := rec["link"]];
      recs := recs + [rec'];
    }
    assert recs == ResolveAuthors(fields, ids).value;
    r := Ok(Authors(aum, aus, aul));
  }

  // ---------------------------------------------------------------- formats

  /** What `for f in formats` walks: nothing when the value is falsy
      (`if not formats`, line 119), its items otherwise; TypeError when a
      truthy value cannot be iterated. */
  function FormatEntries(v: Value): (r: Result<seq<Value>>)
    ensures r.Ok? && r.value == [] <==> !Truthy(v)
    ensures r.Err? <==> Truthy(v) && Iterate(v).None?
    ensures r.Err? ==> r.error == TypeError
    ensures Truthy(v) && Iterate(v).Some? ==> r == Ok(Iterate(v).value)
  {
    if !Truthy(v) then Ok([])
    else match Iterate(v)
      case None => Err(TypeError)
      case Some(xs) => Ok(xs)
  }

  /** The exception one entry of the format loop raises, if any. A truthy
      non-string passes `if not fmt` and has no `upper` (line 261). A falsy
      one makes `format_metadata` return `{}` (line 260), which is then
      stored under it (line 123): a list or dictionary cannot be a key. */
  function EntryError(x: Value): (r: Option<Error>)
    ensures x.VStr? ==> r.None?
    ensures r.Some? ==> r.value == AttributeError || r.value == TypeError
    ensures !x.VStr? && Truthy(x) ==> r == Some(AttributeError)
  {
    if x.VStr? then None
    else if Truthy(x) then Some(AttributeError)
    else if x.VList? || x.VDict? then Some(TypeError)
    else None
  }

  /** How many leading entries the format loop gets through without
      raising. */
  function LeadingEntries(xs: seq<Value>): (k: nat)
    ensures k <= |xs|
    ensures forall j :: 0 <= j < k ==> EntryError(xs[j]).None?
    ensures k < |xs| ==> EntryError(xs[k]).Some?
  {
    if xs == [] then 0
    else if EntryError(xs[0]).Some? then 0
    else 1 + LeadingEntries(xs[1..])
  }

  /** The string entries, in order: the formats the loop asks
      `format_metadata` about and stores under. The ensures is only a
      bound; `StringEntriesAreEntries` states that each is an entry of
      `xs`, and `StringEntriesOfStrings` that, when every entry is a
      string, they are all the entries in order. */
  function StringEntries(xs: seq<Value>): (r: seq<string>)
    ensures |r| <= |xs|
    decreases |xs|
  {
    if xs == [] then []
    else
      var front := xs[..|xs| - 1];
      match xs[|xs| - 1]
      case VStr(f) => StringEntries(front) + [f]
      case _ => StringEntries(front)
  }

  /** Every format the loop asks about is one of the entries. */
  lemma {:induction false} StringEntriesAreEntries(xs: seq<Value>)
    ensures forall f :: f in StringEntries(xs) ==> VStr(f) in xs
    decreases |xs|
  {
    if xs != [] {
      var front := xs[..|xs| - 1];
      StringEntriesAreEntries(front);
      assert forall j :: 0 <= j < |front| ==> front[j] == xs[j];
    }
  }

  /** When every entry is a string, the loop asks about each of them, in
      order. */
  lemma {:induction false} StringEntriesOfStrings(xs: seq<Value>)
    requires forall j :: 0 <= j < |xs| ==> xs[j].VStr?
    ensures |StringEntries(xs)| == |xs|
    ensures forall j :: 0 <= j < |xs| ==> xs[j] == VStr(StringEntries(xs)[j])
    decreases |xs|
  {
    if xs != [] {
      var front := xs[..|xs| - 1];
      assert forall j :: 0 <= j < |front| ==> front[j] == xs[j];
      StringEntriesOfStrings(front);
    }
  }

  /** The per-format metadata map, the cache and the backend calls after
      `for f in formats: mi.format_metadata[f] = self._format_metadata(book_id, f)`. */
  datatype FormatPass = FormatPass(metadata: map<string, FormatMeta>, cache: FormatCache, calls: seq<Call>)

  function UpperSet(fs: seq<string>): set<string> {
    set f | f in fs :: Upper(f)
  }

  function CollectFormats(fields: Registry, backendMeta: (BookId, string, string, string) -> FormatMeta,
                          c: FormatCache, bookId: BookId, fs: seq<string>): (p: FormatPass)
    ensures p.metadata.Keys == set f | f in fs
    ensures forall k :: 0 <= k < |p.calls| ==>
              p.calls[k].FormatMetadataCall? && p.calls[k].bookId == bookId && p.calls[k].fmt in UpperSet(fs)
    decreases |fs|
  {
    if fs == [] then FormatPass(map[], c, [])
    else
      var front := fs[..|fs| - 1];
      var f := fs[|fs| - 1];
      var p := CollectFormats(fields, backendMeta, c, bookId, front);
      var o := FormatMetadataSpec(fields, backendMeta, p.cache, bookId, f, true);
      assert fs == front + [f];
      FormatPass(p.metadata[f := o.result], o.cache, p.calls + o.calls)
  }

  /** One more format at the end of the list is one more
      `format_metadata` call on the cache the list left. */
  lemma CollectFormatsSnoc(fields: Registry, backendMeta: (BookId, string, string, string) -> FormatMeta,
                           c: FormatCache, bookId: BookId, fs: seq<string>, f: string)
    ensures var p := CollectFormats(fields, backendMeta, c, bookId, fs);
            var o := FormatMetadataSpec(fields, backendMeta, p.cache, bookId, f, true);
            CollectFormats(fields, backendMeta, c, bookId, fs + [f]) == FormatPass(p.metadata[f := o.result], o.cache, p.calls + o.calls)
  {
    assert (fs + [f])[..|fs|] == fs;
  }

  /** One more entry adds its string, if it is one. */
  lemma StringEntriesSnoc(xs: seq<Value>, i: nat)
    requires i < |xs|
    ensures StringEntries(xs[..i + 1]) == StringEntries(xs[..i]) + (if xs[i].VStr? then [xs[i].s] else [])
  {
    assert xs[..i + 1][..i] == xs[..i];
  }

  /** The format entries' outcome (lines 122-124): the string list that
      `','.join` accepts, or the exception raised, together with the pass
      made up to that point. */
  datatype FormatStage = FormatStage(formats: Result<seq<string>>, pass: FormatPass)

  /** The loop over the entries and the join. The list is accepted exactly
      when every entry is a string, and is then those strings in order;
      the pass covers the string entries before the first entry that
      raises inside the loop. */
  function RunFormats(fields: Registry, backendMeta: (BookId, string, string, string) -> FormatMeta,
                      c: FormatCache, bookId: BookId, xs: seq<Value>): (st: FormatStage)
    ensures st.formats.Ok? <==> forall j :: 0 <= j < |xs| ==> xs[j].VStr?
    ensures st.formats.Ok? ==>
              && st.formats.value == StringEntries(xs)
              && |st.formats.value| == |xs|
              && forall j :: 0 <= j < |xs| ==> xs[j] == VStr(st.formats.value[j])
    ensures st.pass == CollectFormats(fields, backendMeta, c, bookId, StringEntries(xs[..LeadingEntries(xs)]))
  {
    var k := LeadingEntries(xs);
    var pass := CollectFormats(fields, backendMeta, c, bookId, StringEntries(xs[..k]));
    if k < |xs| then FormatStage(Err(EntryError(xs[k]).value), pass)
    // `','.join(formats)` refuses a non-string entry.
    else if exists j :: 0 <= j < |xs| && !xs[j].VStr? then FormatStage(Err(TypeError), pass)
    else
      assert xs[..k] == xs;
      StringEntriesOfStrings(xs);
      FormatStage(Ok(StringEntries(xs)), pass)
  }

  /** A list of strings goes through the whole loop: the pass covers
      every entry. */
  lemma RunFormatsAccepts(fields: Registry, backendMeta: (BookId, string, string, string) -> FormatMeta,
                          c: FormatCache, bookId: BookId, xs: seq<Value>)
    requires forall j :: 0 <= j < |xs| ==> xs[j].VStr?
    ensures var st := RunFormats(fields, backendMeta, c, bookId, xs);
            && st.formats == Ok(StringEntries(xs))
            && st.pass == CollectFormats(fields, backendMeta, c, bookId, StringEntries(xs))
  {
    assert forall j :: 0 <= j < |xs| ==> EntryError(xs[j]).None?;
    assert LeadingEntries(xs) == |xs|;
    assert xs[..|xs|] == xs;
  }

  /** The loop raises at the first entry it cannot handle: a truthy
      non-string with AttributeError, a falsy list or dictionary with
      TypeError, after the pass over the string entries before it. */
  lemma RunFormatsRaisesAtEntry(fields: Registry, backendMeta: (BookId, string, string, string) -> FormatMeta,
                                c: FormatCache, bookId: BookId, xs: seq<Value>, i: nat)
    requires i < |xs| && !xs[i].VStr? && (Truthy(xs[i]) || xs[i].VList? || xs[i].VDict?)
    requires forall j :: 0 <= j < i ==> xs[j].VStr? || (!Truthy(xs[j]) && !xs[j].VList? && !xs[j].VDict?)
    ensures var st := RunFormats(fields, backendMeta, c, bookId, xs);
            && st.formats == Err(if Truthy(xs[i]) then AttributeError else TypeError)
            && st.pass == CollectFormats(fields, backendMeta, c, bookId, StringEntries(xs[..i]))
  {
    assert forall j :: 0 <= j < i ==> EntryError(xs[j]).None?;
    assert LeadingEntries(xs) == i;
  }

  /** With no entry raising inside the loop but some entry not a string (a
      falsy number, None or `()`), the loop runs to its end and the join
      raises TypeError. */
  lemma RunFormatsJoinRaises(fields: Registry, backendMeta: (BookId, string, string, string) -> FormatMeta,
                             c: FormatCache, bookId: BookId, xs: seq<Value>)
    requires forall j :: 0 <= j < |xs| ==> xs[j].VStr? || (!Truthy(xs[j]) && !xs[j].VList? && !xs[j].VDict?)
    requires exists j :: 0 <= j < |xs| && !xs[j].VStr?
    ensures var st := RunFormats(fields, backendMeta, c, bookId, xs);
            && st.formats == Err(TypeError)
            && st.pass == CollectFormats(fields, backendMeta, c, bookId, StringEntries(xs))
  {
    assert forall j :: 0 <= j < |xs| ==> EntryError(xs[j]).None?;
    assert LeadingEntries(xs) == |xs|;
    assert xs[..|xs|] == xs;
  }

  /** What `mi.format_metadata[f]` holds once the pass is over: the entry
      the memo keeps under the upper-cased format, or `{}` when there is
      none (an empty format, or one the backend could not be asked
      about). */
  function MemoEntry(c: FormatCache, bookId: BookId, f: string): FormatMeta {
    if f != "" && Lookup(c, bookId, Upper(f)).Some? then Lookup(c, bookId, Upper(f)).value else map[]
  }

  /** After the pass, each format's entry in the per-format map is the
      memo's entry for it (line 123 stores the answer of line 265 or 276),
      and a format whose key is still missing from the memo could not be
      fetched. */
  lemma {:induction false} CollectFormatsValues(fields: Registry, backendMeta: (BookId, string, string, string) -> FormatMeta,
                                                c: FormatCache, bookId: BookId, fs: seq<string>)
    ensures var p := CollectFormats(fields, backendMeta, c, bookId, fs);
            && (forall f :: f in fs ==> p.metadata[f] == MemoEntry(p.cache, bookId, f))
            && (forall f :: f in fs && f != "" && Lookup(p.cache, bookId, Upper(f)).None? ==> !Fetches(fields, bookId, Upper(f)))
    decreases |fs|
  {
    if fs != [] {
      var front := fs[..|fs| - 1];
      var g := fs[|fs| - 1];
      CollectFormatsValues(fields, backendMeta, c, bookId, front);
      var p := CollectFormats(fields, backendMeta, c, bookId, front);
      var o := FormatMetadataSpec(fields, backendMeta, p.cache, bookId, g, true);
      CollectFormatsSnoc(fields, backendMeta, c, bookId, front, g);
      assert fs == front + [g];
      forall f | f in fs
        ensures p.metadata[g := o.result][f] == MemoEntry(o.cache, bookId, f)
        ensures f != "" && Lookup(o.cache, bookId, Upper(f)).None? ==> !Fetches(fields, bookId, Upper(f))
      {
        MemoEntryStep(fields, backendMeta, p.cache, bookId, p.metadata, g, f);
      }
    }
  }

  /** One more `format_metadata` call for `g` keeps the per-format map in
      step with the memo, for `g` itself and for every earlier format. */
  lemma MemoEntryStep(fields: Registry, backendMeta: (BookId, string, string, string) -> FormatMeta,
                      c: FormatCache, bookId: BookId, md: map<string, FormatMeta>, g: string, f: string)
    requires f != g ==> f in md && md[f] == MemoEntry(c, bookId, f)
    requires f != g && f != "" && Lookup(c, bookId, Upper(f)).None? ==> !Fetches(fields, bookId, Upper(f))
    ensures var o := FormatMetadataSpec(fields, backendMeta, c, bookId, g, true);
            && md[g := o.result][f] == MemoEntry(o.cache, bookId, f)
            && (f != "" && Lookup(o.cache, bookId, Upper(f)).None? ==> !Fetches(fields, bookId, Upper(f)))
  {
    if g != "" {
      CachedCallAnswer(fields, backendMeta, c, bookId, g);
    }
    if f != g && Upper(f) != Upper(g) {
      OnlyOwnEntryChanges(fields, backendMeta, c, bookId, g, true, bookId, Upper(f));
    }
  }

  /** The pass over a format list never drops or changes an entry that
      was already in the cache. */
  lemma {:induction false} CollectFormatsKeepsEntries(fields: Registry, backendMeta: (BookId, string, string, string) -> FormatMeta,
                                                      c: FormatCache, bookId: BookId, fs: seq<string>, b: BookId, f: string)
    requires Lookup(c, b, f).Some?
    ensures Lookup(CollectFormats(fields, backendMeta, c, bookId, fs).cache, b, f) == Lookup(c, b, f)
    decreases |fs|
  {
    if fs != [] {
      var front := fs[..|fs| - 1];
      CollectFormatsKeepsEntries(fields, backendMeta, c, bookId, front, b, f);
      var p := CollectFormats(fields, backendMeta, c, bookId, front);
      CachedCallKeepsEntries(fields, backendMeta, p.cache, bookId, fs[|fs| - 1], b, f);
    }
  }

  /** An entry, once stored, survives every later `format_metadata` call. */
  lemma EntryKept(fields: Registry, backendMeta: (BookId, string, string, string) -> FormatMeta,
                  c: FormatCache, bookId: BookId, fmt: string, allowCache: bool, b: BookId, f: string)
    requires Lookup(c, b, f).Some?
    ensures Lookup(FormatMetadataSpec(fields, backendMeta, c, bookId, fmt, allowCache).cache, b, f).Some?
  {
    if (b, f) != (bookId, Upper(fmt)) {
      OnlyOwnEntryChanges(fields, backendMeta, c, bookId, fmt, allowCache, b, f);
    }
  }

  /** Every backend call of a pass has left its entry in the cache, and no
      two calls are for the same format. */
  ghost predicate CallsDistinct(p: FormatPass, bookId: BookId) {
    && (forall k :: 0 <= k < |p.calls| ==>
          p.calls[k].FormatMetadataCall? && Lookup(p.cache, bookId, p.calls[k].fmt).Some?)
    && (forall i, j :: 0 <= i < j < |p.calls| ==>
          p.calls[i].FormatMetadataCall? && p.calls[j].FormatMetadataCall? && p.calls[i].fmt != p.calls[j].fmt)
  }

  /** While the format list is walked, every backend call has left its
      entry in the cache, and no (book, upper-cased format) reaches the
      backend twice, even when the list spells one format twice. */
  lemma {:induction false} CollectFormatsCallsDistinct(fields: Registry, backendMeta: (BookId, string, string, string) -> FormatMeta,
                                                       c: FormatCache, bookId: BookId, fs: seq<string>)
    ensures CallsDistinct(CollectFormats(fields, backendMeta, c, bookId, fs), bookId)
    decreases |fs|
  {
    if fs != [] {
      var front := fs[..|fs| - 1];
      var f := fs[|fs| - 1];
      var p := CollectFormats(fields, backendMeta, c, bookId, front);
      CollectFormatsCallsDistinct(fields, backendMeta, c, bookId, front);
      var o := FormatMetadataSpec(fields, backendMeta, p.cache, bookId, f, true);
      assert CollectFormats(fields, backendMeta, c, bookId, fs) == FormatPass(p.metadata[f := o.result], o.cache, p.calls + o.calls);
      forall k | 0 <= k < |p.calls|
        ensures Lookup(o.cache, bookId, p.calls[k].fmt).Some?
      {
        EntryKept(fields, backendMeta, p.cache, bookId, f, true, bookId, p.calls[k].fmt);
      }
      var all := p.calls + o.calls;
      if o.calls != [] {
        var key := Upper(f);
        assert Lookup(p.cache, bookId, key).None?;
        var name := FormatFname(fields, bookId, key).value;
        var path := PathFor(fields, bookId).value;
        MissStoresUnderUpperKey(fields, backendMeta, p.cache, bookId, f, true, name, path);
        assert all[|p.calls|].fmt == key;
        assert forall i :: 0 <= i < |p.calls| ==> all[i].fmt != key;
      }
      assert forall k :: 0 <= k < |all| ==> all[k].FormatMetadataCall? && Lookup(o.cache, bookId, all[k].fmt).Some?;
      assert CallsDistinct(FormatPass(p.metadata[f := o.result], o.cache, all), bookId);
    }
  }

  // ------------------------------------------------------- user categories

  /** `mi.get(attr, None)` on the record as `_get_metadata` has filled it
      before the matching step; an attribute it does not assign reads as
      None. */
  function RecordGet(mi: Metadata, attr: string): (v: Value)
    ensures attr == "authors" ==> v.VList? && forall n :: VStr(n) in v.items <==> n in mi.authors
    ensures attr == "tags" ==> v == VList(mi.tags)
    ensures attr == "title" ==> v == mi.title
    ensures attr == "series" ==> v == mi.series
  {
    if attr == "title" then mi.title
    else if attr == "authors" then
      var names := seq(|mi.authors|, k requires 0 <= k < |mi.authors| => VStr(mi.authors[k]));
      assert forall n :: VStr(n) in names ==> n in mi.authors;
      assert forall k :: 0 <= k < |mi.authors| ==> names[k] == VStr(mi.authors[k]);
      VList(names)
    else if attr == "author_sort" then mi.authorSort
    else if attr == "author_sort_map" then VDict(map a | a in mi.authorSortMap :: VStr(mi.authorSortMap[a]))
    else if attr == "author_link_map" then VDict(map a | a in mi.authorLinkMap :: VStr(mi.authorLinkMap[a]))
    else if attr == "comments" then mi.comments
    else if attr == "publisher" then mi.publisher
    else if attr == "timestamp" then mi.timestamp
    else if attr == "pubdate" then mi.pubdate
    else if attr == "uuid" then mi.uuid
    else if attr == "title_sort" then mi.titleSort
    else if attr == "book_size" then mi.bookSize
    else if attr == "ondevice_col" then mi.ondeviceCol
    else if attr == "last_modified" then mi.lastModified
    else if attr == "format_metadata" then VDict(map f | f in mi.formatMetadata :: VDict(mi.formatMetadata[f]))
    else if attr == "formats" then (if mi.formats.Some? then VStr(mi.formats.value) else VNone)
    else if attr == "has_cover" then VStr(mi.hasCover)
    else if attr == "tags" then VList(mi.tags)
    else if attr == "series" then mi.series
    else if attr == "series_index" then (if mi.seriesIndex.Some? then mi.seriesIndex.value else VNone)
    else if attr == "rating" then mi.rating
    else if attr == "identifiers" then mi.identifiers
    else if attr == "application_id" then VInt(mi.applicationId)
    else if attr == "id" then VInt(mi.id)
    else VNone
  }

  /** A member matches when the record's value for its field is a list
      containing its name, or (not being a list) equals its name. */
  predicate MemberMatches(mi: Metadata, m: Member) {
    var v := RecordGet(mi, m.1);
    if v.VList? then VStr(m.0) in v.items else v == VStr(m.0)
  }

  /** The `res` list built for one category. The ensures is only a
      bound; `CategoryMatchesMembers` states that it holds exactly the
      matching members and `CategoryMatchesAppend` that it keeps their
      order. */
  function CategoryMatches(mi: Metadata, ms: seq<Member>): (r: seq<(string, string)>)
    ensures |r| <= |ms|
    decreases |ms|
  {
    if ms == [] then []
    else
      var m := ms[|ms| - 1];
      CategoryMatches(mi, ms[..|ms| - 1]) + (if MemberMatches(mi, m) then [(m.0, m.1)] else [])
  }

  /** Matching respects member order: the matches of a concatenation are
      the matches of its parts, in order. */
  lemma {:induction false} CategoryMatchesAppend(mi: Metadata, a: seq<Member>, b: seq<Member>)
    ensures CategoryMatches(mi, a + b) == CategoryMatches(mi, a) + CategoryMatches(mi, b)
    decreases |b|
  {
    if b != [] {
      var b' := b[..|b| - 1];
      assert (a + b)[..|a + b| - 1] == a + b';
      CategoryMatchesAppend(mi, a, b');
    } else {
      assert a + b == a;
    }
  }

  /** `[name, cat]` is listed exactly when some member with that name and
      field matches. */
  lemma CategoryMatchesMembers(mi: Metadata, ms: seq<Member>, p: (string, string))
    ensures p in CategoryMatches(mi, ms) <==>
              exists i :: 0 <= i < |ms| && (ms[i].0, ms[i].1) == p && MemberMatches(mi, ms[i])
  {
    if p in CategoryMatches(mi, ms) {
      var i := ListedMatches(mi, ms, p);
    }
    if exists i :: 0 <= i < |ms| && (ms[i].0, ms[i].1) == p && MemberMatches(mi, ms[i]) {
      var i :| 0 <= i < |ms| && (ms[i].0, ms[i].1) == p && MemberMatches(mi, ms[i]);
      MatchesAreListed(mi, ms, i);
    }
  }

  /** A listed pair comes from a matching member. */
  lemma {:induction false} ListedMatches(mi: Metadata, ms: seq<Member>, p: (string, string)) returns (i: nat)
    requires p in CategoryMatches(mi, ms)
    ensures i < |ms| && (ms[i].0, ms[i].1) == p && MemberMatches(mi, ms[i])
    decreases |ms|
  {
    var front, m := ms[..|ms| - 1], ms[|ms| - 1];
    if p in CategoryMatches(mi, front) {
      i := ListedMatches(mi, front, p);
      assert ms[i] == front[i];
    } else {
      i := |ms| - 1;
    }
  }

  /** A matching member is listed. */
  lemma {:induction false} MatchesAreListed(mi: Metadata, ms: seq<Member>, i: nat)
    requires i < |ms| && MemberMatches(mi, ms[i])
    ensures (ms[i].0, ms[i].1) in CategoryMatches(mi, ms)
    decreases |ms|
  {
    var front := ms[..|ms| - 1];
    if i < |front| {
      assert front[i] == ms[i];
      MatchesAreListed(mi, front, i);
    }
  }


  /** The `user_cat_vals` dictionary: one entry per category. */
  function UserCategoryValues(mi: Metadata, cats: map<string, seq<Member>>): (r: map<string, seq<(string, string)>>)
    ensures r.Keys == cats.Keys
    ensures forall c :: c in r ==> |r[c]| <= |cats[c]|
  {
    map c | c in cats :: CategoryMatches(mi, cats[c])
  }

  /** Lines 149-161: the nested matching loops. */
  method MatchUserCategories(mi: Metadata, cats: map<string, seq<Member>>) returns (vals: map<string, seq<(string, string)>>)
    ensures vals.Keys == cats.Keys
    ensures forall c :: c in vals ==> vals[c] == CategoryMatches(mi, cats[c])
  {
    vals := map[];
    var todo := cats.Keys;
    while todo != {}
      invariant todo <= cats.Keys
      invariant vals.Keys == cats.Keys - todo
      invariant forall c :: c in vals ==> vals[c] == CategoryMatches(mi, cats[c])
      decreases todo
    {
      var ucat :| ucat in todo;
      var members := cats[ucat];
      var res: seq<(string, string)> := [];
      for j := 0 to |members|
        invariant res == CategoryMatches(mi, members[..j])
      {
        var (name, cat, ign) := members[j];
        var v := RecordGet(mi, cat);
        assert members[..j + 1][..j] == members[..j];
        if v.VList? {
          if VStr(name) in v.items {
            res := res + [(name, cat)];
          }
        } else if VStr(name) == v {
          res := res + [(name, cat)];
        }
      }
      assert members[..|members|] == members;
      vals := vals[ucat := res];
      todo := todo - {ucat};
    }
  }

  // ------------------------------------------------------------ the record

  /** What `_get_metadata(book_id, get_user_categories)` returns, the
      format cache it leaves and the backend calls it makes, for the
      registry `fields`, `backend.format_metadata` and the cache `c`. */
  datatype Composed = Composed(result: Result<Metadata>, cache: FormatCache, calls: seq<Call>)

  /** The record as lines 97-137 assign it, from the aggregated authors,
      the format list with its metadata and the tag list. */
  function Record(fields: Registry, bookId: BookId, env: Env, agg: Authors,
                  fs: seq<string>, fmd: map<string, FormatMeta>, tags: seq<Value>): (mi: Metadata)
    ensures mi.title == FieldFor(fields, "title", bookId, VStr(env.unknown))
    ensures mi.authors == agg.names && mi.authorSortMap == agg.sortMap && mi.authorLinkMap == agg.linkMap
    ensures mi.formats.None? <==> fs == []
    ensures mi.hasCover != "" ==> mi.hasCover == env.yes
    ensures mi.seriesIndex.Some? <==> Truthy(mi.series)
    ensures mi.id == bookId && mi.applicationId == bookId
    ensures mi.userCategories == map[] && mi.cover.None? && mi.coverData.None?
  {
    var series := FieldFor(fields, "series", bookId, VNone);
    Metadata(
      FieldFor(fields, "title", bookId, VStr(env.unknown)),
      agg.names,
      FieldFor(fields, "author_sort", bookId, VStr(env.unknown)),
      agg.sortMap,
      agg.linkMap,
      FieldFor(fields, "comments", bookId, VNone),
      FieldFor(fields, "publisher", bookId, VNone),
      FieldFor(fields, "timestamp", bookId, env.now),
      FieldFor(fields, "pubdate", bookId, env.now),
      FieldFor(fields, "uuid", bookId, VStr("dummy")),
      FieldFor(fields, "sort", bookId, VStr(env.unknown)),
      FieldFor(fields, "size", bookId, VInt(0)),
      FieldFor(fields, "ondevice", bookId, VStr("")),
      FieldFor(fields, "last_modified", bookId, env.now),
      fmd,
      if fs == [] then None else Some(Join(fs, ",")),
      if Truthy(FieldFor(fields, "cover", bookId, VBool(false))) then env.yes else "",
      tags,
      series,
      if Truthy(series) then Some(FieldFor(fields, "series_index", bookId, VReal(1.0))) else None,
      FieldFor(fields, "rating", bookId, VNone),
      FieldFor(fields, "identifiers", bookId, VDict(map[])),
      bookId,
      bookId,
      map[],
      None,
      None)
  }

  /** Lines 125-164, after the format loop: the tags (a non-iterable
      value raises TypeError), the record, and the user categories when
      asked for. */
  function Finish(fields: Registry, bookId: BookId, env: Env, agg: Authors, fs: seq<string>,
                  fmd: map<string, FormatMeta>, getUserCategories: bool): (r: Result<Metadata>)
    ensures r.Err? <==> Iterate(FieldFor(fields, "tags", bookId, VTuple([]))).None?
    ensures r.Err? ==> r.error == TypeError
    ensures r.Ok? ==> r.value.formatMetadata == fmd && r.value.id == bookId
  {
    match Iterate(FieldFor(fields, "tags", bookId, VTuple([])))
    case None => Err(TypeError)
    case Some(tags) =>
      var mi := Record(fields, bookId, env, agg, fs, fmd, tags);
      var cats := if getUserCategories then UserCategoryValues(mi, env.userCategories) else map[];
      Ok(mi.(userCategories := cats))
  }

  /** The same steps, run as `_get_metadata` runs them. */
  method FinishRecord(fields: Registry, bookId: BookId, env: Env, agg: Authors, fs: seq<string>,
                      fmd: map<string, FormatMeta>, getUserCategories: bool) returns (r: Result<Metadata>)
    ensures r == Finish(fields, bookId, env, agg, fs, fmd, getUserCategories)
  {
    var tags := Iterate(FieldFor(fields, "tags", bookId, VTuple([])));
    if tags.None? {
      return Err(TypeError);
    }
    var mi := Record(fields, bookId, env, agg, fs, fmd, tags.value);
    var cats := map[];
    if getUserCategories {
      cats := MatchUserCategories(mi, env.userCategories);
      assert cats == UserCategoryValues(mi, env.userCategories);
    }
    r := Ok(mi.(userCategories := cats));
  }

  /** `_get_metadata(book_id, get_user_categories)`. It only asks the
      backend for this book's format metadata and leaves the cover
      attributes unset. */
  function Compose(fields: Registry, backendMeta: (BookId, string, string, string) -> FormatMeta,
                   c: FormatCache, bookId: BookId, getUserCategories: bool, env: Env): (o: Composed)
    ensures forall k :: 0 <= k < |o.calls| ==> o.calls[k].FormatMetadataCall? && o.calls[k].bookId == bookId
    ensures o.result.Ok? ==> o.result.value.cover.None? && o.result.value.coverData.None?
  {
    match BookAuthors(fields, bookId)
    case None => Composed(Err(KeyError), c, [])
    case Some(agg) =>
      match FormatEntries(FieldFor(fields, "formats", bookId, VNone))
      case Err(e) => Composed(Err(e), c, [])
      case Ok(xs) =>
        var stage := RunFormats(fields, backendMeta, c, bookId, xs);
        var pass := stage.pass;
        match stage.formats
        case Err(e) => Composed(Err(e), pass.cache, pass.calls)
        case Ok(fs) => Composed(Finish(fields, bookId, env, agg, fs, pass.metadata, getUserCategories), pass.cache, pass.calls)
  }

  // -------------------------------------------------- properties of Compose

  /** `_get_metadata` raises KeyError exactly when one of the book's author
      ids is unknown to the authors field, and it does so before any
      format metadata is fetched. */
  lemma ComposeKeyErrorOnDanglingAuthor(fields: Registry, backendMeta: (BookId, string, string, string) -> FormatMeta,
                                        c: FormatCache, bookId: BookId, getUserCategories: bool, env: Env)
    ensures var o := Compose(fields, backendMeta, c, bookId, getUserCategories, env);
            var ids := FieldIdsFor(fields, "authors", bookId);
            && (o.result == Err(KeyError) <==>
                  exists k :: 0 <= k < |ids| && !("authors" in fields && ids[k] in fields["authors"].authors))
            && (o.result == Err(KeyError) ==> o.cache == c && o.calls == [])
  {
    ComposeKeyErrorIsAuthors(fields, backendMeta, c, bookId, getUserCategories, env);
    var ids := FieldIdsFor(fields, "authors", bookId);
    forall k | 0 <= k < |ids| {
      ResolvableIsKnown(fields, ids[k]);
    }
  }

  /** KeyError comes only from the author loop: every later step raises
      TypeError or AttributeError. */
  lemma ComposeKeyErrorIsAuthors(fields: Registry, backendMeta: (BookId, string, string, string) -> FormatMeta,
                                 c: FormatCache, bookId: BookId, getUserCategories: bool, env: Env)
    ensures var o := Compose(fields, backendMeta, c, bookId, getUserCategories, env);
            && (o.result == Err(KeyError) <==> BookAuthors(fields, bookId).None?)
            && (BookAuthors(fields, bookId).None? ==> o.cache == c && o.calls == [])
  {
    if BookAuthors(fields, bookId).Some? {
      var fe := FormatEntries(FieldFor(fields, "formats", bookId, VNone));
      if fe.Ok? {
        var xs := fe.value;
        var k := LeadingEntries(xs);
        if k < |xs| {
          assert EntryError(xs[k]).value != KeyError;
        }
        assert RunFormats(fields, backendMeta, c, bookId, xs).formats != Err(KeyError);
      }
    }
  }

  /** A composed record carries the aggregated authors of the book. */
  lemma ComposeCarriesAuthors(fields: Registry, backendMeta: (BookId, string, string, string) -> FormatMeta,
                              c: FormatCache, bookId: BookId, getUserCategories: bool, env: Env)
    ensures var o := Compose(fields, backendMeta, c, bookId, getUserCategories, env);
            o.result.Ok? ==>
              && BookAuthors(fields, bookId).Some?
              && var mi, agg := o.result.value, BookAuthors(fields, bookId).value;
              && mi.authors == agg.names && mi.authorSortMap == agg.sortMap && mi.authorLinkMap == agg.linkMap
  {
  }

  /** The record's author list follows `field_ids_for('authors', book_id)`
      one name per id, duplicates included, and both author dictionaries
      are keyed by exactly those names. */
  lemma ComposeAuthorsInOrder(fields: Registry, backendMeta: (BookId, string, string, string) -> FormatMeta,
                              c: FormatCache, bookId: BookId, getUserCategories: bool, env: Env)
    ensures var o := Compose(fields, backendMeta, c, bookId, getUserCategories, env);
            o.result.Ok? ==>
              var mi, ids := o.result.value, FieldIdsFor(fields, "authors", bookId);
              && |mi.authors| == |ids|
              && (forall k :: 0 <= k < |ids| ==>
                    "authors" in fields && ids[k] in fields["authors"].authors
                    && mi.authors[k] == fields["authors"].authors[ids[k]].name)
              && mi.authorSortMap.Keys == (set k | 0 <= k < |ids| :: mi.authors[k])
              && mi.authorLinkMap.Keys == (set k | 0 <= k < |ids| :: mi.authors[k])
  {
    if Compose(fields, backendMeta, c, bookId, getUserCategories, env).result.Err? {
      return;
    }
    ComposeCarriesAuthors(fields, backendMeta, c, bookId, getUserCategories, env);
    var ids := FieldIdsFor(fields, "authors", bookId);
    var recs := ResolveAuthors(fields, ids).value;
    forall k | 0 <= k < |ids| {
      ResolvableIsKnown(fields, ids[k]);
    }
    AggregateKeys(recs);
  }

  /** Both dictionaries are keyed by exactly the author names. */
  lemma AggregateKeys(recs: seq<AuthorRecord>)
    ensures var agg := Aggregate(recs);
            && agg.sortMap.Keys == (set k | 0 <= k < |recs| :: agg.names[k])
            && agg.linkMap.Keys == (set k | 0 <= k < |recs| :: agg.names[k])
  {
    LastWinsKeys(SortPairs(recs));
    LastWinsKeys(LinkPairs(recs));
    assert forall k :: 0 <= k < |recs| ==> SortPairs(recs)[k].0 == Names(recs)[k] == LinkPairs(recs)[k].0;
    assert (set k | 0 <= k < |recs| :: SortPairs(recs)[k].0) == (set k | 0 <= k < |recs| :: Names(recs)[k]);
    assert (set k | 0 <= k < |recs| :: LinkPairs(recs)[k].0) == (set k | 0 <= k < |recs| :: Names(recs)[k]);
  }

  /** Of several records with one name, the last one's sort and link are
      the ones the dictionaries keep. */
  lemma AggregateLastWins(recs: seq<AuthorRecord>, i: nat)
    requires i < |recs| && forall j :: i < j < |recs| ==> recs[j].name != recs[i].name
    ensures var agg := Aggregate(recs);
            && recs[i].name in agg.sortMap && agg.sortMap[recs[i].name] == recs[i].sort
            && recs[i].name in agg.linkMap && agg.linkMap[recs[i].name] == recs[i].link
  {
    LastWinsAt(SortPairs(recs), i);
    LastWinsAt(LinkPairs(recs), i);
  }

  /** In the composed record, of several authors with one name the last
      one's sort and link are the ones the dictionaries keep. */
  lemma ComposeAuthorLastWins(fields: Registry, backendMeta: (BookId, string, string, string) -> FormatMeta,
                              c: FormatCache, bookId: BookId, getUserCategories: bool, env: Env, i: nat)
    ensures var o := Compose(fields, backendMeta, c, bookId, getUserCategories, env);
            o.result.Ok? && i < |o.result.value.authors|
            && (forall j :: i < j < |o.result.value.authors| ==> o.result.value.authors[j] != o.result.value.authors[i]) ==>
              var mi, ids := o.result.value, FieldIdsFor(fields, "authors", bookId);
              && i < |ids| && "authors" in fields && ids[i] in fields["authors"].authors
              && var a := fields["authors"].authors[ids[i]];
              && mi.authors[i] in mi.authorSortMap && mi.authorSortMap[mi.authors[i]] == a.sort
              && mi.authors[i] in mi.authorLinkMap && mi.authorLinkMap[mi.authors[i]] == a.link
  {
    var o := Compose(fields, backendMeta, c, bookId, getUserCategories, env);
    if !(o.result.Ok? && i < |o.result.value.authors|
         && (forall j :: i < j < |o.result.value.authors| ==> o.result.value.authors[j] != o.result.value.authors[i])) {
      return;
    }
    ComposeCarriesAuthors(fields, backendMeta, c, bookId, getUserCategories, env);
    BookAuthorLastWins(fields, bookId, i);
  }

  /** The same for the aggregated authors of the book. */
  lemma BookAuthorLastWins(fields: Registry, bookId: BookId, i: nat)
    requires BookAuthors(fields, bookId).Some?
    requires var names := BookAuthors(fields, bookId).value.names;
             i < |names| && forall j :: i < j < |names| ==> names[j] != names[i]
    ensures var agg, ids := BookAuthors(fields, bookId).value, FieldIdsFor(fields, "authors", bookId);
            && i < |ids| && "authors" in fields && ids[i] in fields["authors"].authors
            && var a := fields["authors"].authors[ids[i]];
            && agg.names[i] in agg.sortMap && agg.sortMap[agg.names[i]] == a.sort
            && agg.names[i] in agg.linkMap && agg.linkMap[agg.names[i]] == a.link
  {
    var ids := FieldIdsFor(fields, "authors", bookId);
    var recs := ResolveAuthors(fields, ids).value;
    var agg := BookAuthors(fields, bookId).value;
    assert |agg.names| == |recs| && forall j :: 0 <= j < |recs| ==> agg.names[j] == recs[j].name;
    ResolvableIsKnown(fields, ids[i]);
    AggregateLastWins(recs, i);
  }

  /** With a truthy `formats` value, the record is composed exactly when
      every entry is a string; `formats` is then the comma join of the
      entries and `format_metadata` has one key per entry (what each
      key holds is stated by `ComposeFormatValues`). A falsy value leaves
      `formats` unset, with no backend call. */
  lemma ComposeFormatList(fields: Registry, backendMeta: (BookId, string, string, string) -> FormatMeta,
                          c: FormatCache, bookId: BookId, getUserCategories: bool, env: Env)
    ensures var o := Compose(fields, backendMeta, c, bookId, getUserCategories, env);
            var fv := FieldFor(fields, "formats", bookId, VNone);
            o.result.Ok? ==>
            var mi := o.result.value;
            && (!Truthy(fv) ==> mi.formats.None? && mi.formatMetadata == map[] && o.cache == c && o.calls == [])
            && (Truthy(fv) ==>
                  && Iterate(fv).Some?
                  && var xs, fs := Iterate(fv).value, StringEntries(Iterate(fv).value);
                  && |fs| == |xs| && (forall j :: 0 <= j < |xs| ==> xs[j] == VStr(fs[j]))
                  && mi.formats == Some(Join(fs, ","))
                  && mi.formatMetadata.Keys == (set f | f in fs))
  {
    var fv := FieldFor(fields, "formats", bookId, VNone);
    var o := Compose(fields, backendMeta, c, bookId, getUserCategories, env);
    if o.result.Ok? {
      var xs := FormatEntries(fv).value;
      assert RunFormats(fields, backendMeta, c, bookId, xs).formats.Ok?;
      RunFormatsAccepts(fields, backendMeta, c, bookId, xs);
    }
  }

  /** Each key of a composed record's `format_metadata` holds what the
      format cache holds for the book under the upper-cased format after
      the call, or `{}` when nothing is stored there. */
  lemma ComposeFormatValues(fields: Registry, backendMeta: (BookId, string, string, string) -> FormatMeta,
                            c: FormatCache, bookId: BookId, getUserCategories: bool, env: Env)
    ensures var o := Compose(fields, backendMeta, c, bookId, getUserCategories, env);
            o.result.Ok? ==>
            forall f :: f in o.result.value.formatMetadata ==>
              o.result.value.formatMetadata[f] == MemoEntry(o.cache, bookId, f)
  {
    var o := Compose(fields, backendMeta, c, bookId, getUserCategories, env);
    if o.result.Ok? {
      var xs := FormatEntries(FieldFor(fields, "formats", bookId, VNone)).value;
      assert RunFormats(fields, backendMeta, c, bookId, xs).formats.Ok?;
      RunFormatsAccepts(fields, backendMeta, c, bookId, xs);
      CollectFormatsValues(fields, backendMeta, c, bookId, StringEntries(xs));
    }
  }

  /** When the record is composed, every backend call asks about this
      book and one of its format entries upper-cased, and no upper-cased
      format is asked for twice. */
  lemma ComposeFormatCalls(fields: Registry, backendMeta: (BookId, string, string, string) -> FormatMeta,
                           c: FormatCache, bookId: BookId, getUserCategories: bool, env: Env)
    ensures var o := Compose(fields, backendMeta, c, bookId, getUserCategories, env);
            var fv := FieldFor(fields, "formats", bookId, VNone);
            o.result.Ok? ==>
            && (Truthy(fv) ==>
                  && Iterate(fv).Some?
                  && forall k :: 0 <= k < |o.calls| ==>
                       && o.calls[k].FormatMetadataCall? && o.calls[k].bookId == bookId
                       && o.calls[k].fmt in UpperSet(StringEntries(Iterate(fv).value)))
            && (forall i, j :: 0 <= i < j < |o.calls| ==>
                  o.calls[i].FormatMetadataCall? && o.calls[j].FormatMetadataCall? && o.calls[i].fmt != o.calls[j].fmt)
  {
    var fv := FieldFor(fields, "formats", bookId, VNone);
    var o := Compose(fields, backendMeta, c, bookId, getUserCategories, env);
    if o.result.Ok? {
      var xs := FormatEntries(fv).value;
      assert RunFormats(fields, backendMeta, c, bookId, xs).formats.Ok?;
      RunFormatsAccepts(fields, backendMeta, c, bookId, xs);
      CollectFormatsCallsDistinct(fields, backendMeta, c, bookId, StringEntries(xs));
    }
  }

  /** The format loop raises at the first entry that cannot be handled: a
      truthy non-string with AttributeError, a falsy list or dictionary
      with TypeError. The backend has then been asked about the string
      entries before it, and the cache keeps those answers. */
  lemma ComposeRaisesAtEntry(fields: Registry, backendMeta: (BookId, string, string, string) -> FormatMeta,
                             c: FormatCache, bookId: BookId, getUserCategories: bool, env: Env, i: nat)
    ensures var o := Compose(fields, backendMeta, c, bookId, getUserCategories, env);
            var fv := FieldFor(fields, "formats", bookId, VNone);
            BookAuthors(fields, bookId).Some? && Truthy(fv) && Iterate(fv).Some? ==>
            var xs := Iterate(fv).value;
            i < |xs| && !xs[i].VStr? && (Truthy(xs[i]) || xs[i].VList? || xs[i].VDict?)
            && (forall j :: 0 <= j < i ==> xs[j].VStr? || (!Truthy(xs[j]) && !xs[j].VList? && !xs[j].VDict?)) ==>
              var p := CollectFormats(fields, backendMeta, c, bookId, StringEntries(xs[..i]));
              && o.result == Err(if Truthy(xs[i]) then AttributeError else TypeError)
              && o.cache == p.cache && o.calls == p.calls
  {
    var fv := FieldFor(fields, "formats", bookId, VNone);
    if BookAuthors(fields, bookId).Some? && Truthy(fv) && Iterate(fv).Some? {
      var xs := Iterate(fv).value;
      if i < |xs| && !xs[i].VStr? && (Truthy(xs[i]) || xs[i].VList? || xs[i].VDict?)
         && (forall j :: 0 <= j < i ==> xs[j].VStr? || (!Truthy(xs[j]) && !xs[j].VList? && !xs[j].VDict?)) {
        RunFormatsRaisesAtEntry(fields, backendMeta, c, bookId, xs, i);
      }
    }
  }

  /** When no entry raises inside the loop but one is not a string (a
      falsy number, None or `()`), the loop runs to the end and
      `','.join` raises TypeError: the backend has been asked about every
      string entry and the cache keeps the answers. */
  lemma ComposeJoinRaises(fields: Registry, backendMeta: (BookId, string, string, string) -> FormatMeta,
                          c: FormatCache, bookId: BookId, getUserCategories: bool, env: Env)
    ensures var o := Compose(fields, backendMeta, c, bookId, getUserCategories, env);
            var fv := FieldFor(fields, "formats", bookId, VNone);
            BookAuthors(fields, bookId).Some? && Truthy(fv) && Iterate(fv).Some? ==>
            var xs := Iterate(fv).value;
            (forall j :: 0 <= j < |xs| ==> xs[j].VStr? || (!Truthy(xs[j]) && !xs[j].VList? && !xs[j].VDict?))
            && (exists j :: 0 <= j < |xs| && !xs[j].VStr?) ==>
              var p := CollectFormats(fields, backendMeta, c, bookId, StringEntries(xs));
              && o.result == Err(TypeError)
              && o.cache == p.cache && o.calls == p.calls
  {
    var fv := FieldFor(fields, "formats", bookId, VNone);
    if BookAuthors(fields, bookId).Some? && Truthy(fv) && Iterate(fv).Some? {
      var xs := Iterate(fv).value;
      if (forall j :: 0 <= j < |xs| ==> xs[j].VStr? || (!Truthy(xs[j]) && !xs[j].VList? && !xs[j].VDict?))
         && (exists j :: 0 <= j < |xs| && !xs[j].VStr?) {
        RunFormatsJoinRaises(fields, backendMeta, c, bookId, xs);
      }
    }
  }

  /** `_get_metadata` never drops or changes an entry already in the
      format cache, whether it succeeds or raises. */
  lemma ComposeKeepsEntries(fields: Registry, backendMeta: (BookId, string, string, string) -> FormatMeta,
                            c: FormatCache, bookId: BookId, getUserCategories: bool, env: Env, b: BookId, f: string)
    requires Lookup(c, b, f).Some?
    ensures Lookup(Compose(fields, backendMeta, c, bookId, getUserCategories, env).cache, b, f) == Lookup(c, b, f)
  {
    var fv := FieldFor(fields, "formats", bookId, VNone);
    if FormatEntries(fv).Ok? {
      var xs := FormatEntries(fv).value;
      CollectFormatsKeepsEntries(fields, backendMeta, c, bookId, StringEntries(xs[..LeadingEntries(xs)]), b, f);
    }
  }

  /** `series_index` is assigned exactly when `series` is truthy, and then
      holds the stored index or 1.0. */
  lemma ComposeSeriesIndex(fields: Registry, backendMeta: (BookId, string, string, string) -> FormatMeta,
                           c: FormatCache, bookId: BookId, getUserCategories: bool, env: Env)
    ensures var o := Compose(fields, backendMeta, c, bookId, getUserCategories, env);
            o.result.Ok? ==>
            var mi := o.result.value;
            && mi.series == FieldFor(fields, "series", bookId, VNone)
            && (mi.seriesIndex.Some? <==> Truthy(mi.series))
            && (mi.seriesIndex.Some? ==> mi.seriesIndex.value == FieldFor(fields, "series_index", bookId, VReal(1.0)))
  {
  }

  /** Every other attribute of a composed record is the book's value of
      its field, or the default lines 97-137 pass to `field_for`;
      `has_cover` is `_('Yes')` exactly when the cover field is truthy
      (126-127) and the tags are the iterated tags value (128). */
  lemma ComposeRecordFields(fields: Registry, backendMeta: (BookId, string, string, string) -> FormatMeta,
                            c: FormatCache, bookId: BookId, getUserCategories: bool, env: Env)
    ensures var o := Compose(fields, backendMeta, c, bookId, getUserCategories, env);
            o.result.Ok? ==>
            var mi := o.result.value;
            && mi.title == FieldFor(fields, "title", bookId, VStr(env.unknown))
            && mi.authorSort == FieldFor(fields, "author_sort", bookId, VStr(env.unknown))
            && mi.comments == FieldFor(fields, "comments", bookId, VNone)
            && mi.publisher == FieldFor(fields, "publisher", bookId, VNone)
            && mi.timestamp == FieldFor(fields, "timestamp", bookId, env.now)
            && mi.pubdate == FieldFor(fields, "pubdate", bookId, env.now)
            && mi.uuid == FieldFor(fields, "uuid", bookId, VStr("dummy"))
            && mi.titleSort == FieldFor(fields, "sort", bookId, VStr(env.unknown))
            && mi.bookSize == FieldFor(fields, "size", bookId, VInt(0))
            && mi.ondeviceCol == FieldFor(fields, "ondevice", bookId, VStr(""))
            && mi.lastModified == FieldFor(fields, "last_modified", bookId, env.now)
            && mi.rating == FieldFor(fields, "rating", bookId, VNone)
            && mi.identifiers == FieldFor(fields, "identifiers", bookId, VDict(map[]))
            && mi.hasCover == (if Truthy(FieldFor(fields, "cover", bookId, VBool(false))) then env.yes else "")
            && Iterate(FieldFor(fields, "tags", bookId, VTuple([]))) == Some(mi.tags)
  {
    var o := Compose(fields, backendMeta, c, bookId, getUserCategories, env);
    if o.result.Ok? {
      var agg := BookAuthors(fields, bookId).value;
      var xs := FormatEntries(FieldFor(fields, "formats", bookId, VNone)).value;
      var stage := RunFormats(fields, backendMeta, c, bookId, xs);
      FinishRecordFields(fields, bookId, env, agg, stage.formats.value, stage.pass.metadata, getUserCategories);
    }
  }

  /** The same for the record `Finish` builds from its parts. */
  lemma FinishRecordFields(fields: Registry, bookId: BookId, env: Env, agg: Authors, fs: seq<string>,
                           fmd: map<string, FormatMeta>, getUserCategories: bool)
    ensures var r := Finish(fields, bookId, env, agg, fs, fmd, getUserCategories);
            r.Ok? ==>
            var mi := r.value;
            && mi.title == FieldFor(fields, "title", bookId, VStr(env.unknown))
            && mi.authorSort == FieldFor(fields, "author_sort", bookId, VStr(env.unknown))
            && mi.comments == FieldFor(fields, "comments", bookId, VNone)
            && mi.publisher == FieldFor(fields, "publisher", bookId, VNone)
            && mi.timestamp == FieldFor(fields, "timestamp", bookId, env.now)
            && mi.pubdate == FieldFor(fields, "pubdate", bookId, env.now)
            && mi.uuid == FieldFor(fields, "uuid", bookId, VStr("dummy"))
            && mi.titleSort == FieldFor(fields, "sort", bookId, VStr(env.unknown))
            && mi.bookSize == FieldFor(fields, "size", bookId, VInt(0))
            && mi.ondeviceCol == FieldFor(fields, "ondevice", bookId, VStr(""))
            && mi.lastModified == FieldFor(fields, "last_modified", bookId, env.now)
            && mi.rating == FieldFor(fields, "rating", bookId, VNone)
            && mi.identifiers == FieldFor(fields, "identifiers", bookId, VDict(map[]))
            && mi.hasCover == (if Truthy(FieldFor(fields, "cover", bookId, VBool(false))) then env.yes else "")
            && Iterate(FieldFor(fields, "tags", bookId, VTuple([]))) == Some(mi.tags)
  {
  }

  /** The record's attributes as `mi.get` sees them do not depend on the
      user-category map assigned after the matching. */
  lemma RecordGetIgnoresUserCategories(mi: Metadata, cats: map<string, seq<(string, string)>>, attr: string)
    ensures RecordGet(mi.(userCategories := cats), attr) == RecordGet(mi, attr)
  {
  }

  /** With `get_user_categories`, every category gets an entry listing, in
      member order, the members whose field value on the record matches;
      without it the map is empty. */
  lemma ComposeUserCategories(fields: Registry, backendMeta: (BookId, string, string, string) -> FormatMeta,
                              c: FormatCache, bookId: BookId, getUserCategories: bool, env: Env)
    ensures var o := Compose(fields, backendMeta, c, bookId, getUserCategories, env);
            o.result.Ok? ==>
            var mi := o.result.value;
            && (!getUserCategories ==> mi.userCategories == map[])
            && (getUserCategories ==>
                  && mi.userCategories.Keys == env.userCategories.Keys
                  && forall cat :: cat in env.userCategories ==>
                       mi.userCategories[cat] == CategoryMatches(mi, env.userCategories[cat]))
  {
    var o := Compose(fields, backendMeta, c, bookId, getUserCategories, env);
    if o.result.Err? {
      return;
    }
    var mi := o.result.value;
    var mi0 := mi.(userCategories := map[]);
    forall ms: seq<Member> | true
      ensures CategoryMatches(mi0, ms) == CategoryMatches(mi, ms)
    {
      MatchesIgnoreUserCategories(mi0, mi.userCategories, ms);
    }
  }

  lemma {:induction false} MatchesIgnoreUserCategories(mi: Metadata, cats: map<string, seq<(string, string)>>, ms: seq<Member>)
    ensures CategoryMatches(mi.(userCategories := cats), ms) == CategoryMatches(mi, ms)
    decreases |ms|
  {
    if ms != [] {
      MatchesIgnoreUserCategories(mi, cats, ms[..|ms| - 1]);
      RecordGetIgnoresUserCategories(mi, cats, ms[|ms| - 1].1);
    }
  }

  /** A book the registry does not know still composes, into a record of
      defaults: the placeholder title and sorts, `now()` for the dates,
      `'dummy'` for the uuid, no authors, no formats, no tags and no
      series index. */
  lemma UnknownBookComposesDefaults(fields: Registry, backendMeta: (BookId, string, string, string) -> FormatMeta,
                                    c: FormatCache, bookId: BookId, getUserCategories: bool, env: Env)
    requires BooksCovered(fields)
    requires AllBookIds(fields).Ok? && bookId !in AllBookIds(fields).value
    ensures var o := Compose(fields, backendMeta, c, bookId, getUserCategories, env);
            && o.result.Ok? && o.cache == c && o.calls == []
            && var mi := o.result.value;
            && mi.title == VStr(env.unknown) && mi.authorSort == VStr(env.unknown) && mi.titleSort == VStr(env.unknown)
            && mi.authors == [] && mi.authorSortMap == map[] && mi.authorLinkMap == map[]
            && mi.timestamp == env.now && mi.pubdate == env.now && mi.lastModified == env.now
            && mi.uuid == VStr("dummy") && mi.bookSize == VInt(0) && mi.ondeviceCol == VStr("")
            && mi.formats.None? && mi.formatMetadata == map[] && mi.hasCover == ""
            && mi.tags == [] && mi.series == VNone && mi.seriesIndex.None?
            && mi.identifiers == VDict(map[]) && mi.id == bookId && mi.applicationId == bookId
  {
    forall n | true
      ensures FieldFor(fields, n, bookId, VNone) == VNone
    {
      UnknownBookIsAbsent(fields, n, bookId, VNone);
    }
    UnknownBookIsAbsent(fields, "authors", bookId, VNone);
    UnknownBookIsAbsent(fields, "title", bookId, VStr(env.unknown));
    UnknownBookIsAbsent(fields, "author_sort", bookId, VStr(env.unknown));
    UnknownBookIsAbsent(fields, "sort", bookId, VStr(env.unknown));
    UnknownBookIsAbsent(fields, "timestamp", bookId, env.now);
    UnknownBookIsAbsent(fields, "pubdate", bookId, env.now);
    UnknownBookIsAbsent(fields, "last_modified", bookId, env.now);
    UnknownBookIsAbsent(fields, "uuid", bookId, VStr("dummy"));
    UnknownBookIsAbsent(fields, "size", bookId, VInt(0));
    UnknownBookIsAbsent(fields, "ondevice", bookId, VStr(""));
    UnknownBookIsAbsent(fields, "cover", bookId, VBool(false));
    UnknownBookIsAbsent(fields, "tags", bookId, VTuple([]));
    UnknownBookIsAbsent(fields, "identifiers", bookId, VDict(map[]));
  }

  /** A book with one author ("Alice", sorted "Alice, A.", no link), the
      title "Foo", no formats and no cover. */
  function SingleAuthorRegistry(): Registry {
    map[
      "authors" := Field(map[], map[1 := [10]], map[10 := [1]], {10},
                         map[10 := AuthorRecord("Alice", "Alice, A.", "")], map[]),
      "title" := Field(map[1 := VStr("Foo")], map[], map[], {}, map[], map[])]
  }

  /** The authors of that book: one record, "Alice". */
  lemma SingleAuthorAuthors()
    ensures BookAuthors(SingleAuthorRegistry(), 1) == Some(Authors(["Alice"], map["Alice" := "Alice, A."], map["Alice" := ""]))
  {
    var fields := SingleAuthorRegistry();
    assert FieldIdsFor(fields, "authors", 1) == [10];
    assert AuthorData(fields, 10) == map["name" := "Alice", "sort" := "Alice, A.", "link" := ""];
    var recs := [AuthorRecord("Alice", "Alice, A.", "")];
    ResolvableIsKnown(fields, 10);
    var ids: seq<ItemId> := [10];
    assert forall k :: 0 <= k < |ids| ==> ids[k] == 10;
    assert ResolveAuthors(fields, ids).Some?;
    assert ResolveAuthors(fields, ids).value[0] == recs[0];
    assert ResolveAuthors(fields, ids).value == recs;
    assert ResolveAuthors(fields, [10]) == Some(recs);
    assert SortPairs(recs) == [("Alice", "Alice, A.")];
    assert LastWins(SortPairs(recs)) == map["Alice" := "Alice, A."];
    assert LinkPairs(recs) == [("Alice", "")];
    assert LastWins(LinkPairs(recs)) == map["Alice" := ""];
    assert Names(recs) == ["Alice"];
  }

  /** That book composes into the title "Foo", the author list
      ["Alice"], the sort map {"Alice": "Alice, A."}, unset formats and an
      empty cover flag, with no backend call, whether or not user
      categories are asked for. */
  lemma SingleAuthorScenario(backendMeta: (BookId, string, string, string) -> FormatMeta, c: FormatCache,
                             getUserCategories: bool, env: Env)
    ensures var o := Compose(SingleAuthorRegistry(), backendMeta, c, 1, getUserCategories, env);
            && o.result.Ok? && o.calls == []
            && var mi := o.result.value;
            && mi.title == VStr("Foo") && mi.authors == ["Alice"]
            && mi.authorSortMap == map["Alice" := "Alice, A."]
            && mi.formats.None? && mi.hasCover == ""
  {
    var fields := SingleAuthorRegistry();
    SingleAuthorAuthors();
    assert FieldFor(fields, "formats", 1, VNone) == VNone;
    assert RunFormats(fields, backendMeta, c, 1, []).formats == Ok([]);
    assert RunFormats(fields, backendMeta, c, 1, []).pass == FormatPass(map[], c, []);
    assert FieldFor(fields, "cover", 1, VBool(false)) == VBool(false);
    assert FieldFor(fields, "tags", 1, VTuple([])) == VTuple([]);
  }
}
