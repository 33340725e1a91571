/**
 The values the status store is given, as the store sees them: only their kind
 and, where the store tests it, their truthiness matter. Also the outcome types
 shared by the other modules.
 */
module StatusValues {

  /** A Python object handed to the store. */
  datatype Value =
    | NoneType                          // the object None
    | Str(s: string)
    | Int(i: int)
    | Float(bits: bv64)                 // IEEE-754 bit pattern; nothing numeric is done with it
    | Bool(b: bool)
    | List(items: seq<Value>)
    | Tuple(items: seq<Value>)
    | Dict(entries: seq<(Value, Value)>)
    | Other(truthy: bool)               // an object of any other type, known by its truthiness only

  /** Values that can sit in a leaf: a dict placed in the store is itself a nested entry. */
  type Scalar = v: Value | !v.Dict? witness NoneType

  /** The errors the store raises: three `ValueError`s and the `TypeError` of a lookup through a leaf. */
  datatype Error =
    | UnsupportedType   // "Values of type ... are not supported"
    | HasSubEntries     // "Name has sub entries"
    | InvalidNesting    // "Invalid nesting of values under"
    | TypeError         // `in` or `[]` applied to a value that is not a dict

  datatype Result<T> = Ok(value: T) | Err(error: Error)

  datatype Option<T> = None | Some(value: T)

  /** Python's `not v`: the zero, the empty collection, False, None. */
  function Falsy(v: Value): (falsy: bool)
    ensures falsy <==> v in {NoneType, Str(""), Int(0), Float(0), Float(0x8000_0000_0000_0000), Bool(false),
                             List([]), Tuple([]), Dict([]), Other(false)}
  {
    match v
    case NoneType => true
    case Str(s) => s == ""
    case Int(i) => i == 0
    case Float(bits) => bits & 0x7FFF_FFFF_FFFF_FFFF == 0   // +0.0 and -0.0; NaN is truthy
    case Bool(b) => !b
    case List(items) => items == []
    case Tuple(items) => items == []
    case Dict(entries) => entries == []
    case Other(truthy) => !truthy
  }

  /**
   The admission check on stored values: every falsy value, and any str, int,
   float, bool, list or tuple. Put the other way round, it refuses exactly the
   non-empty dicts and the truthy objects of other types.
   */
  function ValidEntryType(entry: Value): (ok: bool)
    ensures ok <==> !(entry.Dict? && entry.entries != []) && !(entry.Other? && entry.truthy)
  {
    if Falsy(entry) then true
    else if entry.Str? then true
    else if entry.Int? then true
    else if entry.Float? then true
    else if entry.Bool? then true
    else if entry.List? then true
    else if entry.Tuple? then true
    else false
  }

  /** Python's `p in s` on two strings. */
  predicate IsSubstring(p: string, s: string) {
    p <= s || (s != [] && IsSubstring(p, s[1..]))
  }

  /** `p in s` holds exactly when `p` starts at some position of `s` (the end included). */
  lemma {:induction false} IsSubstringMeans(p: string, s: string)
    ensures IsSubstring(p, s) <==> exists i :: 0 <= i <= |s| && p <= s[i..]
  {
    if s == [] {
      assert s[0..] == s;
    } else {
      IsSubstringMeans(p, s[1..]);
      if IsSubstring(p, s) {
        if p <= s {
          assert s[0..] == s;
        } else {
          var i :| 0 <= i <= |s[1..]| && p <= s[1..][i..];
          assert s[1..][i..] == s[i + 1..];
        }
      } else {
        forall i | 0 <= i <= |s|
          ensures !(p <= s[i..])
        {
          if i == 0 {
            assert s[0..] == s;
          } else {
            assert s[i..] == s[1..][i - 1..];
          }
        }
      }
    }
  }
}
