/**
 * The JSON-like Python values the application passes around: the packet and
 * node dictionaries the radio library hands over, the records queued for the
 * database, and the configuration tree.
 */
module Values {
  import opened Wrappers
  import opened Text
  import OrderedMap

  /**
   * A Python value. Dictionaries are insertion-ordered association lists;
   * `Time` is a `datetime`, counted in whole seconds.
   */
  datatype Value =
    | Null
    | Bool(b: bool)
    | Int(i: int)
    | Real(r: real)
    | Str(s: string)
    | Time(t: int)
    | List(items: seq<Value>)
    | Dict(entries: seq<(string, Value)>)

  type Entries = seq<(string, Value)>

  /** Python truthiness. */
  predicate Truthy(v: Value) {
    match v
    case Null => false
    case Bool(b) => b
    case Int(i) => i != 0
    case Real(r) => r != 0.0
    case Str(s) => |s| > 0
    case Time(_) => true
    case List(items) => |items| > 0
    case Dict(entries) => |entries| > 0
  }

  /** `k in d`. */
  predicate Has(d: Entries, k: string) {
    k in OrderedMap.Keys(d)
  }

  /** `d.get(k, dflt)`: the bound value when `k` is present (even when it is `None`), else `dflt`. */
  function Get(d: Entries, k: string, dflt: Value): (r: Value)
    ensures Has(d, k) ==> OrderedMap.Lookup(d, k) == Some(r)
    ensures !Has(d, k) ==> r == dflt
  {
    OrderedMap.Lookup(d, k).GetOr(dflt)
  }

  /** The entries of a dictionary value; any other value has none. */
  function EntriesOf(v: Value): Entries {
    if v.Dict? then v.entries else []
  }

  /**
   * The entries of the library's nested records (`user`, `position`,
   * `deviceMetrics`) under `k`: none when `k` is missing or bound to a
   * value that is not a dictionary. `GetDict` tells the two apart.
   */
  function Sub(d: Entries, k: string): Entries {
    EntriesOf(Get(d, k, Dict([])))
  }

  /**
   * `d.get(k, {})` whose result the caller goes on to call `.get` on: the
   * nested entries (none when `k` is missing), or `None` when `k` is bound
   * to a value other than a dictionary, which has no `.get` and raises.
   */
  function GetDict(d: Entries, k: string): (r: Option<Entries>)
    ensures !Has(d, k) ==> r == Some([])
    ensures Has(d, k) ==> (r.Some? <==> OrderedMap.Lookup(d, k).value.Dict?)
    ensures r.Some? ==> r.value == Sub(d, k)
  {
    match Get(d, k, Dict([]))
    case Dict(entries) => Some(entries)
    case _ => None
  }

  /**
   * Python's `k in v` for a string `k`: a key test on a dictionary, a
   * substring test on a string and a membership test on a list; on any
   * other value it raises (`None`).
   */
  function In(k: string, v: Value): Option<bool> {
    match v
    case Dict(entries) => Some(Has(entries, k))
    case Str(s) => Some(Contains(s, k))
    case List(items) => Some(Str(k) in items)
    case _ => None
  }

  /** The numeric view of a value, as Python's comparison operators see it (`bool` is an `int`). */
  function Number(v: Value): (r: Option<real>)
    ensures r.Some? <==> (v.Int? || v.Real? || v.Bool?)
  {
    match v
    case Int(i) => Some(i as real)
    case Real(x) => Some(x)
    case Bool(b) => Some(if b then 1.0 else 0.0)
    case _ => None
  }

  /**
   * A cell of a ttk tree as `item(...)['values']` hands it back: the text
   * passes through `int()`, and the number replaces it when that succeeds.
   */
  function TreeCell(text: string): (r: Value)
    ensures r.Int? <==> ParseInt(text).Some?
    ensures r.Int? ==> ParseInt(text) == Some(r.i)
    ensures !r.Int? ==> r == Str(text)
  {
    match ParseInt(text)
    case Some(n) => Int(n)
    case None => Str(text)
  }

  /** The decimal text of any integer comes back from the tree as that integer. */
  lemma TreeCellOfInt(i: int)
    ensures TreeCell(IntToString(i)) == Int(i)
  {
    ParseIntToString(i);
  }

  /** Values Python can use as a dictionary key: lists and dictionaries are unhashable. */
  predicate Hashable(v: Value) {
    !(v.List? || v.Dict?)
  }

  /** Values whose `str()` the model spells out. */
  predicate SimpleStr(v: Value) {
    v.Null? || v.Bool? || v.Int? || v.Str?
  }

  /** Python's `str(v)` for `None`, booleans, integers and strings. */
  function PyStr(v: Value): (r: string)
    requires SimpleStr(v)
    ensures v.Str? ==> r == v.s
    ensures v.Int? ==> ParseInt(r) == Some(v.i)
  {
    match v
    case Null => "None"
    case Bool(b) => if b then "True" else "False"
    case Int(i) => ParseIntToString(i); IntToString(i)
    case Str(s) => s
  }
}
