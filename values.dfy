/** Python values as the cache façade sees them, with the two Python
    behaviours the façade relies on: truthiness and `str.upper`. */
module Values {

  datatype Option<+T> = None | Some(value: T)

  /** The exceptions that escape a façade operation. */
  datatype Error = KeyError | TypeError | AttributeError

  datatype Result<+T> = Ok(value: T) | Err(error: Error)

  /** A value stored in a field or assigned to a metadata attribute.
      `VTuple` and `VList` are kept apart because the user-category
      matcher tests `isinstance(v, list)`; `VReal` is the opaque float of
      `series_index` and takes part in no arithmetic; `VDate` is an opaque
      timestamp. */
  datatype Value =
    | VNone
    | VBool(b: bool)
    | VInt(i: int)
    | VReal(r: real)
    | VStr(s: string)
    | VDate(stamp: int)
    | VTuple(items: seq<Value>)
    | VList(items: seq<Value>)
    | VDict(entries: map<string, Value>)

  /** Python's truth test (`if v:`). */
  predicate Truthy(v: Value) {
    match v
    case VNone => false
    case VBool(b) => b
    case VInt(i) => i != 0
    case VReal(r) => r != 0.0
    case VStr(s) => s != ""
    case VDate(_) => true
    case VTuple(xs) => xs != []
    case VList(xs) => xs != []
    case VDict(m) => m != map[]
  }

  /** What `for x in v` (and so `list(v)`) yields: the items of a tuple or
      list, the one-character strings of a string; None for the shapes the
      model does not iterate (see README). */
  function Iterate(v: Value): (r: Option<seq<Value>>)
    ensures v.VTuple? || v.VList? ==> r == Some(v.items)
    ensures v.VStr? ==>
              (r.Some? && |r.value| == |v.s| && forall k :: 0 <= k < |v.s| ==> r.value[k] == VStr([v.s[k]]))
    ensures !(v.VTuple? || v.VList? || v.VStr?) ==> r.None?
  {
    match v
    case VTuple(xs) => Some(xs)
    case VList(xs) => Some(xs)
    case VStr(s) => Some(seq(|s|, k requires 0 <= k < |s| => VStr([s[k]])))
    case _ => None
  }

  function UpperChar(c: char): char {
    if 'a' <= c <= 'z' then (c as int - 32) as char else c
  }

  /** `str.upper()` on ASCII letters. */
  function Upper(s: string): (r: string)
    ensures |r| == |s|
    ensures forall k :: 0 <= k < |s| ==> r[k] == UpperChar(s[k])
  {
    if s == [] then [] else [UpperChar(s[0])] + Upper(s[1..])
  }

  /** Upper-casing twice is upper-casing once: a key that is already
      upper-case is its own normal form. */
  lemma {:induction false} UpperIdempotent(s: string)
    ensures Upper(Upper(s)) == Upper(s)
  {
    if s != [] {
      UpperIdempotent(s[1..]);
      assert Upper(s)[1..] == Upper(s[1..]);
    }
  }

  /** Two spellings that differ only in the case of ASCII letters
      (`'epub'`, `'Epub'`, `'EPUB'`) normalise to one key. */
  lemma {:induction false} UpperCaseInsensitive(s: string, t: string)
    requires |s| == |t|
    requires forall k :: 0 <= k < |s| ==> t[k] == s[k] || t[k] == UpperChar(s[k]) || s[k] == UpperChar(t[k])
    ensures Upper(s) == Upper(t)
  {
    forall k | 0 <= k < |s|
      ensures Upper(s)[k] == Upper(t)[k]
    {
      assert UpperChar(UpperChar(s[k])) == UpperChar(s[k]);
      assert UpperChar(UpperChar(t[k])) == UpperChar(t[k]);
    }
  }

  /** The lower-case and upper-case spellings of a format give the
      upper-case key. */
  lemma UpperExample()
    ensures Upper("epub") == Upper("EPUB") == "EPUB"
  {
    assert Upper("epub") == ['E'] + Upper("pub");
    assert Upper("EPUB") == ['E'] + Upper("PUB");
  }

  /** `sep.join(xs)`. */
  function Join(xs: seq<string>, sep: string): (r: string)
    ensures xs == [] ==> r == ""
    ensures |xs| == 1 ==> r == xs[0]
    ensures xs != [] ==> |xs[0]| <= |r| && r[..|xs[0]|] == xs[0]
    ensures |xs| > 1 ==> |xs[0]| + |sep| <= |r| && r[|xs[0]|..|xs[0]| + |sep|] == sep
  {
    if xs == [] then ""
    else if |xs| == 1 then xs[0]
    else xs[0] + sep + Join(xs[1..], sep)
  }
}
