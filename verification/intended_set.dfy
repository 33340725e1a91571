/**
 The write the store's callers and tests expect: walk every segment of the
 name, creating a dict for each missing non-final segment and descending into
 each existing one, refusing a value met on the way and a dict at the end.
 Beside the as-written loop this is the corrected definition; its round trip
 with the store's own lookup holds for every name.
 */
module IntendedSet {
  import opened StatusValues
  import opened DotNames
  import opened StatusTree
  import StoreProperties

  /** Store `v` at the end of `segs` below the dict `m`. */
  function PathSet(m: map<string, Node>, segs: seq<string>, v: Value): (r: Result<map<string, Node>>)
    requires |segs| >= 1 && ValidEntryType(v)
    ensures r.Ok? ==> r.value - {segs[0]} == m - {segs[0]}
    ensures r.Err? ==> r.error == HasSubEntries || r.error == InvalidNesting
    ensures segs[0] !in m ==> r.Ok?
    decreases |segs|
  {
    var key := segs[0];
    if |segs| == 1 then
      if key in m && m[key].Interior? then Err(HasSubEntries) else Ok(m[key := Stored(v)])
    else if key in m && !m[key].Interior? then Err(InvalidNesting)
    else
      var below := if key in m then m[key].children else map[];
      match PathSet(below, segs[1..], v)
      case Err(e) => Err(e)
      case Ok(sub) => Ok(m[key := Interior(sub)])
  }

  /** `set_static` as intended, over the same segments the lookup walks. */
  function SetIntended(root: map<string, Node>, name: string, value: Value): (r: Result<map<string, Node>>)
    requires name != ""
    ensures r == Err(UnsupportedType) <==> !ValidEntryType(value)
    ensures ValidEntryType(value) && Segments(name)[0] !in root ==> r.Ok?
    ensures r.Ok? ==> r.value - {Segments(name)[0]} == root - {Segments(name)[0]}
  {
    if !ValidEntryType(value) then Err(UnsupportedType) else PathSet(root, Segments(name), value)
  }

  /** What `PathSet` stores, the lookup of the same segments finds. */
  lemma {:induction false} PathSetLookup(m: map<string, Node>, segs: seq<string>, v: Value)
    requires |segs| >= 1 && ValidEntryType(v)
    requires PathSet(m, segs, v).Ok?
    ensures Lookup(Interior(PathSet(m, segs, v).value), segs) == Ok(Some(Stored(v)))
    decreases |segs|
  {
    if |segs| > 1 {
      var key := segs[0];
      var below := if key in m then m[key].children else map[];
      PathSetLookup(below, segs[1..], v);
    }
  }

  /**
   The round trip the tests expect: after a successful intended write, `get`
   gives back the value, or the default when the value is falsy.
   */
  lemma IntendedRoundTrip(root: map<string, Node>, name: string, value: Value, default: Node)
    requires name != ""
    requires SetIntended(root, name, value).Ok?
    ensures Find(SetIntended(root, name, value).value, name) == Ok(Some(Stored(value)))
    ensures Fetch(SetIntended(root, name, value).value, name, default) ==
              Ok(if Falsy(value) then default else Stored(value))
  {
    PathSetLookup(root, Segments(name), value);
  }

  /** On a name without a dot the code as written already does what is intended. */
  lemma AgreesOnSingleSegment(root: map<string, Node>, name: string, value: Value)
    requires name != "" && '.' !in name
    ensures SetOutcome(root, name, value) == SetIntended(root, name, value)
  {
  }

  /**
   On a fresh dotted name whose second segment differs from its first they
   part: both succeed, but only the intended write can be read back.
   */
  lemma DiffersOnFreshDottedName(root: map<string, Node>, head: string, rest: string, value: Value)
    requires '.' !in head && head != "" && rest != ""
    requires ValidEntryType(value)
    requires head !in root
    requires Segments(rest)[0] != head
    ensures SetIntended(root, head + "." + rest, value).Ok?
    ensures SetOutcome(root, head + "." + rest, value).Ok?
    ensures Find(SetIntended(root, head + "." + rest, value).value, head + "." + rest) == Ok(Some(Stored(value)))
    ensures Find(SetOutcome(root, head + "." + rest, value).value, head + "." + rest) == Ok(None)
  {
    PartitionAtFirstDot(head, rest);
    assert Segments(head + "." + rest) == [head] + Segments(rest);
    IntendedRoundTrip(root, head + "." + rest, value, Leaf(NoneType));
    StoreProperties.NestedNameRoundTripFails(root, head, rest, value, Leaf(NoneType));
  }
}
