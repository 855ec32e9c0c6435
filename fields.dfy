/** The field registry: the name -> field-object mapping of the cache and
    the lookups on it that turn an unknown field, book or item into a
    default instead of an error (src/calibre/db/cache.py). */
module Fields {
  import opened Values

  type BookId = int
  type ItemId = int

  datatype AuthorRecord = AuthorRecord(name: string, sort: string, link: string)

  /** A field object, reduced to the answers the cache asks of it.
      `values` is `for_book`, `ids` is `ids_for_book`, `books` is
      `books_for`, `allIds` is what iterating the field yields, `authors`
      is `author_data` (only the authors field fills it) and `fnames` is
      `format_fname` (only the formats field fills it). A missing key is
      the field raising KeyError or IndexError. */
  datatype Field = Field(
    values: map<BookId, Value>,
    ids: map<BookId, seq<ItemId>>,
    books: map<ItemId, seq<BookId>>,
    allIds: set<ItemId>,
    authors: map<ItemId, AuthorRecord>,
    fnames: map<(BookId, string), string>)

  /** `Cache.fields`. */
  type Registry = map<string, Field>

  /** `field_for`: the book's value in the named field, or `default` when
      the field is not registered or has no value for the book. */
  function FieldFor(fields: Registry, name: string, bookId: BookId, default: Value): (r: Value)
    ensures name !in fields || bookId !in fields[name].values ==> r == default
    ensures name in fields && bookId in fields[name].values ==> r == fields[name].values[bookId]
  {
    if name in fields && bookId in fields[name].values then fields[name].values[bookId] else default
  }

  /** `field_ids_for`: the book's item ids in the named field, `()` when
      the field or the book is unknown. */
  function FieldIdsFor(fields: Registry, name: string, bookId: BookId): (r: seq<ItemId>)
    ensures name !in fields || bookId !in fields[name].ids ==> r == []
    ensures name in fields && bookId in fields[name].ids ==> r == fields[name].ids[bookId]
  {
    if name in fields && bookId in fields[name].ids then fields[name].ids[bookId] else []
  }

  /** `books_for_field`: the books holding an item, `()` when the field or
      the item is unknown. */
  function BooksForField(fields: Registry, name: string, itemId: ItemId): (r: seq<BookId>)
    ensures name !in fields || itemId !in fields[name].books ==> r == []
    ensures name in fields && itemId in fields[name].books ==> r == fields[name].books[itemId]
  {
    if name in fields && itemId in fields[name].books then fields[name].books[itemId] else []
  }

  /** `all_book_ids`: the books of the `uuid` field. There is no guard: a
      registry without `uuid` raises KeyError. */
  function AllBookIds(fields: Registry): (r: Result<set<BookId>>)
    ensures r.Ok? <==> "uuid" in fields
    ensures r.Ok? ==> r.value == fields["uuid"].values.Keys
    ensures r.Err? ==> r.error == KeyError
  {
    if "uuid" in fields then Ok(fields["uuid"].values.Keys) else Err(KeyError)
  }

  /** `all_field_ids`: every item id of the named field. Deliberately
      unguarded: an unregistered name raises KeyError. */
  function AllFieldIds(fields: Registry, name: string): (r: Result<set<ItemId>>)
    ensures r.Ok? <==> name in fields
    ensures r.Ok? ==> r.value == fields[name].allIds
    ensures r.Err? ==> r.error == KeyError
  {
    if name in fields then Ok(fields[name].allIds) else Err(KeyError)
  }

  /** `author_data`: the dictionary with keys name, sort and link, or the
      empty dictionary when there is no authors field or no such author. */
  function AuthorData(fields: Registry, authorId: ItemId): (r: map<string, string>)
    ensures r == map[] <==> !("authors" in fields && authorId in fields["authors"].authors)
    ensures r != map[] ==>
              var a := fields["authors"].authors[authorId];
              r == map["name" := a.name, "sort" := a.sort, "link" := a.link]
  {
    if "authors" in fields && authorId in fields["authors"].authors then
      var a := fields["authors"].authors[authorId];
      var r := map["name" := a.name, "sort" := a.sort, "link" := a.link];
      assert "name" in r;
      r
    else map[]
  }

  /** `self._field_for('path', book_id).replace('/', os.sep)` inside a
      bare `try`: only a string path survives; the default None (or any
      other non-string) raises and is reported as None. The separator
      rewrite is the identity here. */
  function PathFor(fields: Registry, bookId: BookId): (r: Option<string>)
    ensures r.Some? <==> FieldFor(fields, "path", bookId, VNone).VStr?
    ensures r.Some? ==> FieldFor(fields, "path", bookId, VNone) == VStr(r.value)
  {
    match FieldFor(fields, "path", bookId, VNone)
    case VStr(p) => Some(p)
    case _ => None
  }

  /** `self.fields['formats'].format_fname(book_id, fmt)` inside a bare
      `try`: None when there is no formats field or no file name for the
      book and format. */
  function FormatFname(fields: Registry, bookId: BookId, fmt: string): (r: Option<string>)
    ensures r.Some? <==> "formats" in fields && (bookId, fmt) in fields["formats"].fnames
    ensures r.Some? ==> r.value == fields["formats"].fnames[(bookId, fmt)]
  {
    if "formats" in fields && (bookId, fmt) in fields["formats"].fnames then
      Some(fields["formats"].fnames[(bookId, fmt)])
    else None
  }

  /** Every field only knows books that the `uuid` field knows: the
      registry a backend with consistent tables produces. */
  ghost predicate BooksCovered(fields: Registry) {
    && "uuid" in fields
    && forall n :: n in fields ==>
         fields[n].values.Keys <= fields["uuid"].values.Keys
         && fields[n].ids.Keys <= fields["uuid"].values.Keys
  }

  /** A book outside `all_book_ids()` reads as absent in every field:
      `field_for` gives the caller's default and `field_ids_for` gives
      `()`, whatever the field name. */
  lemma UnknownBookIsAbsent(fields: Registry, name: string, bookId: BookId, default: Value)
    requires BooksCovered(fields)
    requires AllBookIds(fields).Ok? && bookId !in AllBookIds(fields).value
    ensures FieldFor(fields, name, bookId, default) == default
    ensures FieldIdsFor(fields, name, bookId) == []
    ensures PathFor(fields, bookId).None?
  {
    if name in fields {
      assert bookId !in fields[name].values;
      assert bookId !in fields[name].ids;
    }
    if "path" in fields {
      assert bookId !in fields["path"].values;
    }
  }
}
