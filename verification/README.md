# ApplicationStatus status store, modelled in Dafny

The package keeps a process-wide status registry. Entries are addressed by dot
names such as `"db.connections"`. `ApplicationStatus` stores them in one
nested dictionary. That dictionary is a class attribute, so every instance
shares it. The operations are:

- `set_static(name, value)` writes a value;
- `set(name, func, update)` calls `func` once and writes its result;
- `get(name, default)` reads an entry back, and gives `default` whenever the
  entry is missing or falsy.

Only some kinds of value are admitted (`_valid_entry_type`). The write loop
`_set_entry_from_dot` refuses a name that has sub-entries and refuses nesting
under a plain value. The lookup loop `_get_entry_from_dot` walks the
segments of the name.

The model follows the code as it stands, including where it differs from
what the package's tests expect:

- The write loop re-partitions the head it has just found (line 100), not the
  rest of the name. On an existing dict it never descends (lines 129-131).
  So only the first segment of a name is ever used. A fresh `"a.b"` is
  written to `a.a`. A second dotted name with a non-empty first segment under
  an existing dict is refused. A trailing dot is dropped: `"a."` writes `a`
  and `"."` writes the empty key.
- A lookup through a stored value never yields an entry: it yields None, as
  a missing segment does, or it raises `TypeError`.
- The module has no `delete`, no `start_updates`/`stop_updates` and no
  `export`, although tests/appstatus/test_appstatus.py:54, 132 and 148 and
  src/application_status/web_server.py:53 call them.

Files:

- `values.dfy` (module `StatusValues`): the kinds of value, their truthiness,
  the admission check, and the error and result types.
- `dot_names.dfy` (`DotNames`): `str.partition(".")` and the segments a lookup
  visits.
- `status_tree.dfy` (`StatusTree`): the nested dictionary as a `Node` tree.
  It holds the lookup, `get`'s default substitution, and the closed-form
  outcome of one write (`SetOutcome`).
- `application_status.dfy` (`AppStatus`): the class with the shared
  dictionary as its field `root`. It holds both loops as methods, each proved
  against the functions above.
- `store_properties.dfy` (`StoreProperties`): what one write or lookup does,
  and the scenarios of the package's tests.
- `intended_set.dfy` (`IntendedSet`): the write the tests expect, with its
  round trip proved (see Findings).

## Model

| member | source | states |
|---|---|---|
| `StatusValues.ValidEntryType` | src/application_status/application_status.py:52-72 | admits every falsy value and any str, int, float, bool, list or tuple; refuses exactly non-empty dicts and truthy objects of other types |
| `DotNames.Partition` | src/application_status/application_status.py:100 | `partition(".")`: the three parts concatenate to the input, the head has no dot, the separator is "." exactly when the input has a dot, and without one the rest is empty |
| `DotNames.PartitionAtFirstDot` | src/application_status/application_status.py:158 | a dot-free head followed by a dot partitions at that dot, whatever follows |
| `DotNames.Segments` | src/application_status/application_status.py:156-171 | the lookup visits at least one segment, and none contains a dot |
| `DotNames.JoinSegments` | src/application_status/application_status.py:156-171 | joining the visited segments with dots gives the name back, less at most one trailing dot |
| `DotNames.SegmentsOfJoin` | src/application_status/application_status.py:156-171 | dot-free segments joined with dots split back into the same segments, unless a longer list ends in an empty one |
| `StatusTree.Stored` | src/application_status/application_status.py:103-108 | an admitted value becomes a leaf holding it, except that an (empty) dict becomes an empty nested entry; truthiness is kept |
| `StatusValues.Falsy` | src/application_status/application_status.py:63 | Python truthiness: a value is falsy exactly when it is None, "", 0, ±0.0, False, an empty list, tuple or dict, or a falsy object of another type |
| `StatusTree.Descend` | src/application_status/application_status.py:160-164 | one lookup step descends only into a dict, and only when the segment is a key; a value yields None or TypeError (a str through the substring test `IsSubstring`, a list or tuple through an element test), and TypeError is the only error |
| `StatusValues.IsSubstringMeans` | src/application_status/application_status.py:161 | Python's `in` on two strings (the helper `IsSubstring`, used by `Descend`) holds exactly when the first string starts at some position of the second, the end included |
| `StatusTree.Lookup` | src/application_status/application_status.py:156-174 | the lookup of a segment list fails only with TypeError, gives None when the first segment is missing from a dict, and finds an entry only by descending into a dict that has the first segment |
| `StatusTree.Find` | src/application_status/application_status.py:140-174 | `_get_entry_from_dot` of a non-empty name fails only with TypeError, gives None when the name's first segment is not in the store, and finds an entry only below a first segment that is |
| `StatusTree.Fetch` | src/application_status/application_status.py:237-243 | `get` fails exactly when the lookup fails, gives `default` when the lookup finds nothing or a falsy entry (`not` at line 240, as `NodeFalsy`: a falsy value, or an empty dict), and otherwise gives the entry found |
| `StatusTree.SetOutcome` | src/application_status/application_status.py:89-134 | one write as the code stands; a successful one changes nothing but the key of the first segment |
| `StatusTree.PutAt` | src/application_status/application_status.py:113-116 | an assignment through the `_entry` cursor (the root or one key below it) changes the dict at the cursor by that one key and nothing else in the store; the cursor still leads to a dict |
| `AppStatus.ApplicationStatus.constructor` | src/application_status/application_status.py:32 | the shared store starts empty and well shaped |
| `AppStatus.ApplicationStatus.SetEntryFromDot` | src/application_status/application_status.py:78-134 | the loop ends within two passes; an unsupported value raises before any write; on success the store is `SetOutcome`'s and True is returned; on an error the store is unchanged; the store's shape is kept |
| `AppStatus.ApplicationStatus.GetEntryFromDot` | src/application_status/application_status.py:140-174 | the lookup loop returns what walking the name's segments from the root gives; it changes nothing |
| `AppStatus.ApplicationStatus.SetStatic` | src/application_status/application_status.py:185-196 | same outcome as the write loop |
| `AppStatus.ApplicationStatus.Set` | src/application_status/application_status.py:202-220 | needs a positive `update`; evaluates `func` once and writes its result exactly as `set_static` would |
| `AppStatus.ApplicationStatus.Get` | src/application_status/application_status.py:226-243 | returns `Fetch` of the current store: the entry, or `default` when it is missing or falsy |
| `StoreProperties.SetKeepsShape` | src/application_status/application_status.py:98-131 | every successful write keeps keys dot-free and dicts at most one level deep with entries |
| `StoreProperties.SingleSegmentRoundTrip` | src/application_status/application_status.py:103-127 | a dot-free name that is absent or holds a value is overwritten, nothing else changes, and reading it back gives the value (or `default` when the value is falsy) |
| `StoreProperties.SingleSegmentOverDictFails` | src/application_status/application_status.py:119-122 | a dot-free name holding a dict is refused as having sub entries |
| `StoreProperties.NestingUnderValueFails` | src/application_status/application_status.py:129-131 | a dotted name whose first segment holds a value is refused as invalid nesting |
| `StoreProperties.FreshDottedName` | src/application_status/application_status.py:98-116 | a dotted name with a new, non-empty first segment `s` makes `root[s] = {s: value}` and nothing else |
| `StoreProperties.NestedNameRoundTripFails` | src/application_status/application_status.py:98-116 | after that write the name reads back as None (so `get` gives `default`), while `s.s` reads back the value |
| `StoreProperties.SecondDottedNameFails` | src/application_status/application_status.py:98-131 | a dotted name with a non-empty first segment that already holds a dict is refused as having sub entries |
| `StoreProperties.LeadingDotName` | src/application_status/application_status.py:98-116 | a name `"." + rest` with a non-empty `rest` never stores its value: it at most makes the empty key a dict, and is refused exactly when the empty key holds a value |
| `StoreProperties.TrailingDotName` | src/application_status/application_status.py:100-108 | a name whose only dot is its last character (`"a."`, `"."`) is written as the name without the dot, nothing else changes, and reading the same name back gives the value (or `default` when it is falsy) |
| `StoreProperties.LookupThroughValue` | src/application_status/application_status.py:156-164 | a lookup through a stored value finds nothing: None, or TypeError exactly when the value is not a str, list or tuple or contains the next segment |
| `StoreProperties.NestedStaticVarCounterexample` | tests/appstatus/test_appstatus.py:38-41 | on an empty store `"nested.staticVar"` is written under nested.nested, and `get` returns None instead of the value |
| `StoreProperties.InvalidSetNestedScenario` | tests/appstatus/test_appstatus.py:103-108 | run alone, on a store without `"nested"`: after `"nested.value"` is written, writing `"nested"` is refused |
| `StoreProperties.SharedStoreInvalidSetNested` | tests/appstatus/test_appstatus.py:103-106 | where the tests share one store and `"nested.staticVar"` was written first (line 38), the test's own write of `"nested.value"` is refused as having sub entries |
| `StoreProperties.NestUnderValueScenario` | tests/appstatus/test_appstatus.py:111-116 | after `"nested2"` holds a value, writing `"nested2.value"` is refused |
| `IntendedSet.PathSet` | src/application_status/application_status.py:98-131 | corrected write over all segments: on success only the first key changes; the only refusals are sub entries and invalid nesting; a path whose first segment is new is always written |
| `IntendedSet.SetIntended` | src/application_status/application_status.py:185-196 | corrected `set_static`: an unsupported value, and only that, is refused as such; a name whose first segment is new is always written; on success only that segment's key changes |
| `IntendedSet.PathSetLookup` | src/application_status/application_status.py:156-174 | what the corrected write stores at a segment path, the lookup of that path finds |
| `IntendedSet.IntendedRoundTrip` | tests/appstatus/test_appstatus.py:38-41 | after a successful corrected write of any name, `get` of that name gives the value, or `default` when it is falsy |
| `IntendedSet.AgreesOnSingleSegment` | src/application_status/application_status.py:98-127 | on a dot-free name the code as written and the corrected write agree |
| `IntendedSet.DiffersOnFreshDottedName` | src/application_status/application_status.py:100 | on a fresh dotted name whose second segment differs from the first, both succeed but only the corrected write reads back |

## Findings

| source | as written | input that shows it | evidently intended | confidence | as-written member | corrected member |
|---|---|---|---|---|---|---|
| src/application_status/application_status.py:100 | the loop re-partitions `_part`, not `_rest`, and on an existing dict (lines 129-131) it neither descends nor advances, so only the first segment is used | `set_static("nested.staticVar", s)` on an empty store, then `get("nested.staticVar")` | `s` is stored at nested → staticVar and read back, as tests/appstatus/test_appstatus.py:38-41 asserts | high; not executed | `StoreProperties.NestedStaticVarCounterexample` | `IntendedSet.IntendedRoundTrip` |

The class `AppStatus.ApplicationStatus` keeps the as-written loop. It is a
model of the module as it stands. The corrected write is
`IntendedSet.SetIntended`, with the round trip above proved for every name.
It is stated beside the class, not used by it.

## Left out

- The `Lock` around single assignments (lines 31, 106-108, 113-115, 124-126): it only concerns concurrent callers. The model is sequential.
- Sharing: every instance shares one class-level dictionary. Here that is one object whose reference is shared. Two separate model objects would not share.
- Aliasing: the dict or list a caller stores is the very object kept in the store. A dict returned by `get` is the live nested entry. Later in-place changes through either side are not modelled; entries are values.
- `delete`, `start_updates` and `stop_updates` (called by the tests) and `export` (called by the web server) are not part of this module's source, so they are not part of this model.
- `Set`: `func` is a total, pure Dafny function. An exception raised by it, or a side effect, is not modelled. `update` is only checked to be positive, because the code uses it for nothing else.
- The `assert` statements on `name`, `func` and `update` (lines 89, 150, 214-217, 237) become `requires` clauses, and the non-empty name is also required by the functions that state those operations (`Find`, `Fetch`, `SetOutcome`, `SetIntended`) and by the lemmas about them. The `AssertionError` they raise is not modelled. A non-str name is excluded by typing.
- The `requires Valid()` on the writing methods is the class invariant. Every store built by the constructor and these methods keeps it.
- Float values are an opaque IEEE-754 bit pattern. Only their truthiness (zero or not) is used.
- Objects of other types are known by their truthiness only. A lookup through one is taken to raise `TypeError`, as for an object that supports no `in` test.
- A dict value's keys are not restricted, but the store's own nested entries have string keys only.
- Error messages, including the `tmp_name`/`_tmp_name` mix-up at line 101, are reduced to the kind of error.
- src/application_status/web_server.py (HTTP glue over threads and sockets) and src/application_status/__init__.py (re-exports) are outside the modelled module.
