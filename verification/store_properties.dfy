/**
 What one write or lookup of the status store does, stated over the store's
 contents: single-segment round trips, the refusals, the behaviour of dotted
 names as the write loop actually treats them, and lookups through a value.
 */
module StoreProperties {
  import opened StatusValues
  import opened DotNames
  import opened StatusTree

  /** Every write keeps the store's shape: dot-free keys, at most one level of dicts with entries. */
  lemma SetKeepsShape(root: map<string, Node>, name: string, value: Value)
    requires name != ""
    requires WellShaped(root)
    requires SetOutcome(root, name, value).Ok?
    ensures WellShaped(SetOutcome(root, name, value).value)
  {
  }

  /**
   A name without a dot that is absent or holds a value is overwritten with the
   new value, nothing else changes, and reading it back gives the value (or
   the default, when the value is falsy).
   */
  lemma SingleSegmentRoundTrip(root: map<string, Node>, name: string, value: Value, default: Node)
    requires name != "" && '.' !in name
    requires ValidEntryType(value)
    requires name !in root || root[name].Leaf?
    ensures SetOutcome(root, name, value) == Ok(root[name := Stored(value)])
    ensures Find(root[name := Stored(value)], name) == Ok(Some(Stored(value)))
    ensures Fetch(root[name := Stored(value)], name, default) == Ok(if Falsy(value) then default else Stored(value))
  {
    PartitionDotFree(name);
    assert Segments(name) == [name];
  }

  /** A name without a dot that holds a dict is refused, and the store stays as it was. */
  lemma SingleSegmentOverDictFails(root: map<string, Node>, name: string, value: Value)
    requires name != "" && '.' !in name
    requires ValidEntryType(value)
    requires name in root && root[name].Interior?
    ensures SetOutcome(root, name, value) == Err(HasSubEntries)
  {
    PartitionDotFree(name);
  }

  /**
   A name whose only dot is its last character is written as the name without
   that dot: "a." writes `a`, and "." writes the empty key. Reading the same
   name back finds the value, since the lookup drops the trailing dot too.
   */
  lemma TrailingDotName(root: map<string, Node>, head: string, value: Value, default: Node)
    requires '.' !in head
    requires ValidEntryType(value)
    requires head !in root || root[head].Leaf?
    ensures SetOutcome(root, head + ".", value) == Ok(root[head := Stored(value)])
    ensures Find(root[head := Stored(value)], head + ".") == Ok(Some(Stored(value)))
    ensures Fetch(root[head := Stored(value)], head + ".", default) == Ok(if Falsy(value) then default else Stored(value))
  {
    PartitionAtFirstDot(head, "");
    assert head + "." + "" == head + ".";
    assert Segments(head + ".") == [head];
  }

  /** A dotted name whose first segment holds a value is refused as invalid nesting. */
  lemma NestingUnderValueFails(root: map<string, Node>, head: string, rest: string, value: Value)
    requires '.' !in head && rest != ""
    requires ValidEntryType(value)
    requires head in root && root[head].Leaf?
    ensures SetOutcome(root, head + "." + rest, value) == Err(InvalidNesting)
  {
    PartitionAtFirstDot(head, rest);
  }

  /**
   A dotted name whose first segment is new creates that segment as a dict
   holding the value under the SAME segment name; whatever follows the first
   dot is ignored.
   */
  lemma FreshDottedName(root: map<string, Node>, head: string, rest: string, value: Value)
    requires '.' !in head && head != "" && rest != ""
    requires ValidEntryType(value)
    requires head !in root
    ensures SetOutcome(root, head + "." + rest, value) == Ok(root[head := Interior(map[head := Stored(value)])])
  {
    PartitionAtFirstDot(head, rest);
  }

  /**
   After that write the name does not read back: its second segment is looked
   for in the new dict, which holds only `head`. What was written is found
   under `head.head` instead.
   */
  lemma NestedNameRoundTripFails(root: map<string, Node>, head: string, rest: string, value: Value, default: Node)
    requires '.' !in head && head != "" && rest != ""
    requires ValidEntryType(value)
    requires head !in root
    requires Segments(rest)[0] != head
    ensures SetOutcome(root, head + "." + rest, value).Ok?
    ensures Find(SetOutcome(root, head + "." + rest, value).value, head + "." + rest) == Ok(None)
    ensures Fetch(SetOutcome(root, head + "." + rest, value).value, head + "." + rest, default) == Ok(default)
    ensures Find(SetOutcome(root, head + "." + rest, value).value, head + "." + head) == Ok(Some(Stored(value)))
  {
    FreshDottedName(root, head, rest, value);
    var after := root[head := Interior(map[head := Stored(value)])];
    PartitionAtFirstDot(head, rest);
    assert Segments(head + "." + rest) == [head] + Segments(rest);
    PartitionAtFirstDot(head, head);
    PartitionDotFree(head);
    assert Segments(head) == [head];
    assert Segments(head + "." + head) == [head, head];
    var inner := Interior(map[head := Stored(value)]);
    assert Lookup(Interior(after), [head, head]) == Lookup(inner, [head]);
    assert Lookup(Interior(after), [head] + Segments(rest)) == Lookup(inner, Segments(rest));
  }

  /**
   A second dotted name under an existing dict is refused as having sub
   entries: the loop meets the same first segment again and finds a dict.
   */
  lemma SecondDottedNameFails(root: map<string, Node>, head: string, rest: string, value: Value)
    requires '.' !in head && head != "" && rest != ""
    requires ValidEntryType(value)
    requires head in root && root[head].Interior?
    ensures SetOutcome(root, head + "." + rest, value) == Err(HasSubEntries)
  {
    PartitionAtFirstDot(head, rest);
  }

  /**
   A name `"." + rest` with a non-empty `rest` never stores its value: the
   write succeeds having at most made the empty key a dict, or is refused when
   the empty key holds a value. (The name "." alone is a trailing-dot name,
   see `TrailingDotName`.)
   */
  lemma LeadingDotName(root: map<string, Node>, rest: string, value: Value)
    requires rest != ""
    requires ValidEntryType(value)
    ensures SetOutcome(root, "." + rest, value).Err? <==> "" in root && root[""].Leaf?
    ensures SetOutcome(root, "." + rest, value).Ok? ==>
              SetOutcome(root, "." + rest, value).value == root["" := if "" in root then root[""] else Interior(map[])]
  {
  }

  /**
   A lookup that passes through a stored value never finds anything: it gives
   None, or TypeError when the value is not a str, list or tuple, or when it
   contains the next segment.
   */
  lemma LookupThroughValue(root: map<string, Node>, head: string, rest: string)
    requires '.' !in head && rest != ""
    requires head in root && root[head].Leaf?
    ensures Find(root, head + "." + rest).Ok? ==> Find(root, head + "." + rest) == Ok(None)
    ensures Find(root, head + "." + rest) == Err(TypeError) <==>
              var v := root[head].value;
              var next := Segments(rest)[0];
              !(v.Str? || v.List? || v.Tuple?) || (v.Str? && IsSubstring(next, v.s)) ||
              ((v.List? || v.Tuple?) && Str(next) in v.items)
  {
    PartitionAtFirstDot(head, rest);
    var segs := Segments(rest);
    assert Segments(head + "." + rest) == [head] + segs;
    assert ([head] + segs)[1..] == segs;
    assert Find(root, head + "." + rest) == Lookup(root[head], segs);
    var step := Descend(root[head], segs[0]);
    assert step.Ok? ==> step.value.None?;
    assert Lookup(root[head], segs) == (if step.Err? then Err(step.error) else Ok(None));
  }

  // ---------------------------------------------------------------------
  // The scenarios of the store's own tests
  // ---------------------------------------------------------------------

  /**
   The basic-entries test on a fresh store, second name: "nested.staticVar" is
   written under nested.nested, and `get` of the name gives the default None
   instead of the string the test expects.
   */
  lemma NestedStaticVarCounterexample(name: string, v: Value, after: map<string, Node>)
    requires name == "nested.staticVar" && v == Str("A static variable in nested.staticVar")
    requires after == map["nested" := Interior(map["nested" := Leaf(v)])]
    ensures SetOutcome(map[], name, v) == Ok(after)
    ensures Fetch(after, name, Leaf(NoneType)) == Ok(Leaf(NoneType))
  {
    var head, rest := "nested", "staticVar";
    assert '.' !in head && '.' !in rest;
    assert head + "." + rest == name;
    FreshDottedName(map[], head, rest, v);
    PartitionDotFree(rest);
    assert Segments(rest) == [rest];
    NestedNameRoundTripFails(map[], head, rest, v, Leaf(NoneType));
  }

  /**
   The invalid-set-nested test: once "nested.value" has been written to a store
   without "nested", writing "nested" itself is refused and changes nothing.
   */
  lemma InvalidSetNestedScenario(root: map<string, Node>, name: string, dotted: string, v: Value, w: Value)
    requires name == "nested" && dotted == "nested.value"
    requires name !in root
    requires ValidEntryType(v) && ValidEntryType(w)
    ensures SetOutcome(root, dotted, v).Ok?
    ensures SetOutcome(SetOutcome(root, dotted, v).value, name, w) == Err(HasSubEntries)
  {
    assert '.' !in name;
    assert name + "." + "value" == dotted;
    FreshDottedName(root, name, "value", v);
    SingleSegmentOverDictFails(SetOutcome(root, dotted, v).value, name, w);
  }

  /**
   The same test where the tests share one store: the basic-entries test has
   already written "nested.staticVar", so "nested" holds a dict and the test's
   own first write, of "nested.value", is refused as having sub entries.
   */
  lemma SharedStoreInvalidSetNested(root: map<string, Node>, head: string, earlier: string, later: string, v: Value, w: Value)
    requires head == "nested" && earlier == "staticVar" && later == "value"
    requires head !in root
    requires ValidEntryType(v) && ValidEntryType(w)
    ensures SetOutcome(root, head + "." + earlier, v).Ok?
    ensures SetOutcome(SetOutcome(root, head + "." + earlier, v).value, head + "." + later, w) == Err(HasSubEntries)
  {
    FreshDottedName(root, head, earlier, v);
    SecondDottedNameFails(SetOutcome(root, head + "." + earlier, v).value, head, later, w);
  }

  /**
   The invalid-add-nest-under-value test: once "nested2" holds a value,
   writing "nested2.value" is refused as invalid nesting.
   */
  lemma NestUnderValueScenario(root: map<string, Node>, name: string, dotted: string, v: Value, w: Value)
    requires name == "nested2" && dotted == "nested2.value"
    requires name !in root || root[name].Leaf?
    requires ValidEntryType(v) && !v.Dict? && ValidEntryType(w)
    ensures SetOutcome(root, name, v).Ok?
    ensures SetOutcome(SetOutcome(root, name, v).value, dotted, w) == Err(InvalidNesting)
  {
    assert '.' !in name;
    SingleSegmentRoundTrip(root, name, v, Leaf(NoneType));
    assert name + "." + "value" == dotted;
    NestingUnderValueFails(SetOutcome(root, name, v).value, name, "value", w);
  }
}
