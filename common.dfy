/**
 Dynamic-value helpers of the utility module: `is_empty` and `safe_get`.

 Python values are dynamically typed; `Value` keeps the shapes these two
 helpers distinguish: strings, lists, `None`, dictionaries, integers and
 everything else.
 */
module Common {

  datatype Value =
    | Str(s: string)
    | List(items: seq<Value>)
    | NoneValue
    | Dict(entries: map<Value, Value>)
    | Int(i: int)
    | Other

  /** `is_empty(val)`: equal to "", equal to [], or None. */
  function IsEmpty(v: Value): (r: bool)
    ensures v.Str? ==> (r <==> |v.s| == 0)
    ensures v.List? ==> (r <==> |v.items| == 0)
    ensures v.NoneValue? ==> r
    ensures v.Dict? || v.Int? || v.Other? ==> !r
  {
    v == Str("") || v == List([]) || v == NoneValue
  }

  /**
   Whether Python can hash the value: lists and dictionaries cannot, so they
   can never be looked up as a dictionary's key. `Other` stands for the
   remaining hashable values (floats, booleans, tuples of hashable values).
   */
  predicate Hashable(v: Value)
  {
    !v.List? && !v.Dict?
  }

  /** What `safe_get` gives back: a value, or the `TypeError` that `dict.get` raises for an unhashable key. */
  datatype Lookup = Got(value: Value) | UnhashableKey

  /**
   `safe_get(d, key, default=None)`: `d.get(key, default)` on a dictionary,
   `default` otherwise. Only the dictionary branch hashes the key, so an
   unhashable key raises there and nowhere else.
   */
  function SafeGet(d: Value, key: Value, default: Value := NoneValue): (r: Lookup)
    ensures r.UnhashableKey? <==> d.Dict? && !Hashable(key)
    ensures d.Dict? && Hashable(key) && key in d.entries ==> r == Got(d.entries[key])
    ensures d.Dict? && Hashable(key) && key !in d.entries ==> r == Got(default)
    ensures !d.Dict? ==> r == Got(default)
  {
    if !d.Dict? then Got(default)
    else if !Hashable(key) then UnhashableKey
    else if key in d.entries then Got(d.entries[key])
    else Got(default)
  }

  /** An empty dictionary is not "empty": it equals neither "" nor []. */
  lemma EmptyDictIsNotEmpty()
    ensures !IsEmpty(Dict(map[]))
  {
  }

  /** When the default is omitted, a missing hashable key or a non-dictionary yields None. */
  lemma OmittedDefaultIsNone(d: Value, key: Value)
    requires !d.Dict? || (Hashable(key) && key !in d.entries)
    ensures SafeGet(d, key) == Got(NoneValue)
  {
  }

  /** A list or dictionary used as a key raises on every dictionary, whatever the default; on anything else it is harmless. */
  lemma UnhashableKeyRaises(d: Value, key: Value, default: Value)
    requires key.List? || key.Dict?
    ensures d.Dict? ==> SafeGet(d, key, default) == UnhashableKey
    ensures !d.Dict? ==> SafeGet(d, key, default) == Got(default)
  {
  }

  /** A present key is found whatever default is given. */
  lemma DefaultIrrelevantWhenPresent(d: Value, key: Value, x: Value, y: Value)
    requires d.Dict? && key in d.entries
    ensures SafeGet(d, key, x) == SafeGet(d, key, y)
  {
  }

  /** The equations the helpers' tests check. */
  lemma TestedEquations()
    ensures IsEmpty(Str("")) && IsEmpty(List([])) && IsEmpty(NoneValue)
    ensures !IsEmpty(Str("hello")) && !IsEmpty(List([Int(1), Int(2)]))
    ensures var d := Dict(map[Str("a") := Int(1), Str("b") := Int(2)]);
      && SafeGet(d, Str("a")) == Got(Int(1))
      && SafeGet(d, Str("z")) == Got(NoneValue)
      && SafeGet(d, Str("z"), Int(5)) == Got(Int(5))
    ensures SafeGet(List([Int(1), Int(2)]), Str("a"), Int(7)) == Got(Int(7))
  {
  }
}
