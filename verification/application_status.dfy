/**
 The status store itself. In the source one dictionary held as a class
 attribute is shared by every instance; here that shared dictionary is the
 field `root` of one `ApplicationStatus` object, and sharing it means sharing
 the reference.
 */
module AppStatus {
  import opened StatusValues
  import opened DotNames
  import opened StatusTree
  import StoreProperties

  class ApplicationStatus {
    var root: map<string, Node>

    /** The shape every sequence of writes from an empty store keeps. */
    ghost predicate Valid()
      reads this
    {
      WellShaped(root)
    }

    constructor ()
      ensures Valid() && root == map[]
    {
      root := map[];
    }

    /**
     The write loop. `cursor` is the path of the dict `_entry` refers to; the
     loop ends when `part` is empty, which stands for both an empty head and
     the `None` the source assigns after a write. It runs at most twice.
     */
    method SetEntryFromDot(name: string, value: Value) returns (r: Result<bool>, ghost iterations: nat)
      requires name != ""
      requires Valid()
      modifies this
      ensures Valid()
      ensures iterations <= 2
      ensures !ValidEntryType(value) ==> r == Err(UnsupportedType) && root == old(root)
      ensures SetOutcome(old(root), name, value).Ok? ==>
                r == Ok(true) && root == SetOutcome(old(root), name, value).value
      ensures SetOutcome(old(root), name, value).Err? ==>
                r == Err(SetOutcome(old(root), name, value).error) && root == old(root)
    {
      iterations := 0;
      if !ValidEntryType(value) {
        r := Err(UnsupportedType);
        return;
      }
      ghost var start := root;
      ghost var first := Partition(name);
      var cursor: seq<string> := [];
      var part := name;
      while part != ""
        invariant iterations <= 2
        invariant IsDictPath(root, cursor)
        invariant iterations == 0 ==> part == name && cursor == [] && root == start
        invariant iterations != 0 && part != "" ==>
                    iterations == 1 && part == first.0 && first.2 != "" && '.' !in part &&
                    ((cursor == [part] && part !in start && root == start[part := Interior(map[])]) ||
                     (cursor == [] && part in start && start[part].Interior? && root == start))
        invariant part == "" ==> SetOutcome(start, name, value) == Ok(root)
        decreases |part|
      {
        if iterations != 0 {
          PartitionDotFree(part);
        }
        var (head, _, rest) := Partition(part);
        assert iterations == 0 ==> head == first.0 && rest == first.2;
        assert iterations != 0 ==> head == first.0 && rest == "";
        assert cursor == [] ==> DictAt(root, cursor) == root;
        assert cursor != [] ==> DictAt(root, cursor) == map[];
        part := head;
        iterations := iterations + 1;
        if part !in DictAt(root, cursor) {
          if rest == "" {
            root := PutAt(root, cursor, part, Stored(value));
            assert cursor != [] ==> root == start[part := Interior(map[part := Stored(value)])];
            part := "";
          } else {
            root := PutAt(root, cursor, part, Interior(map[]));
            cursor := cursor + [part];
          }
        } else {
          if rest == "" {
            if DictAt(root, cursor)[part].Interior? {
              r := Err(HasSubEntries);
              return;
            }
            root := PutAt(root, cursor, part, Stored(value));
            part := "";
          } else {
            if !DictAt(root, cursor)[part].Interior? {
              r := Err(InvalidNesting);
              return;
            }
          }
        }
      }
      StoreProperties.SetKeepsShape(start, name, value);
      r := Ok(true);
    }

    /**
     The lookup loop: partition the remaining name, step into the entry found
     under its head, and stop at a missing head or after the last segment.
     */
    method GetEntryFromDot(name: string) returns (r: Result<Option<Node>>)
      requires name != ""
      ensures r == Find(root, name)
    {
      var entry := Interior(root);
      var value: Option<Node> := None;
      var tmpName := name;
      while tmpName != ""
        invariant tmpName != "" ==> Find(root, name) == Lookup(entry, Segments(tmpName)) && value == None
        invariant tmpName == "" ==> Find(root, name) == Ok(value)
        decreases |tmpName|
      {
        var (part, _, rest) := Partition(tmpName);
        var step := Descend(entry, part);
        if step.Err? {
          r := Err(step.error);
          return;
        }
        if step.value.None? {
          break;
        }
        entry := step.value.value;
        if rest != "" {
          tmpName := rest;
        } else {
          value := Some(entry);
          tmpName := "";
        }
      }
      r := Ok(value);
    }

    /** `set_static`: store `value` under `name`. */
    method SetStatic(name: string, value: Value) returns (r: Result<bool>)
      requires name != ""
      requires Valid()
      modifies this
      ensures Valid()
      ensures SetOutcome(old(root), name, value).Ok? ==>
                r == Ok(true) && root == SetOutcome(old(root), name, value).value
      ensures SetOutcome(old(root), name, value).Err? ==>
                r == Err(SetOutcome(old(root), name, value).error) && root == old(root)
    {
      ghost var iterations;
      r, iterations := SetEntryFromDot(name, value);
    }

    /**
     `set`: call `func` once and store its result under `name`. The refresh
     interval `update` must be positive and is not used otherwise.
     */
    method Set(name: string, func: () -> Value, update: int) returns (r: Result<bool>)
      requires name != ""
      requires update > 0
      requires Valid()
      modifies this
      ensures Valid()
      ensures SetOutcome(old(root), name, func()).Ok? ==>
                r == Ok(true) && root == SetOutcome(old(root), name, func()).value
      ensures SetOutcome(old(root), name, func()).Err? ==>
                r == Err(SetOutcome(old(root), name, func()).error) && root == old(root)
    {
      var v := func();
      ghost var iterations;
      r, iterations := SetEntryFromDot(name, v);
    }

    /** `get`: the entry under `name`, or `default` when that entry is falsy or missing. */
    method Get(name: string, default: Node) returns (r: Result<Node>)
      requires name != ""
      ensures r == Fetch(root, name, default)
    {
      var entryValue := GetEntryFromDot(name);
      if entryValue.Err? {
        r := Err(entryValue.error);
      } else if entryValue.value.None? || NodeFalsy(entryValue.value.value) {
        r := Ok(default);
      } else {
        r := Ok(entryValue.value.value);
      }
    }
  }
}
