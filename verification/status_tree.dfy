/**
 The nested status dictionary as a value: its nodes, the lookup that
 `_get_entry_from_dot` performs, the outcome of one `_set_entry_from_dot`
 call, and `get`'s default substitution.
 */
module StatusTree {
  import opened StatusValues
  import opened DotNames

  /** An entry of the store: a stored value, or a dict of named entries. */
  datatype Node = Leaf(value: Scalar) | Interior(children: map<string, Node>)

  /** Truthiness of what the store holds: a dict is falsy when it is empty. */
  predicate NodeFalsy(n: Node) {
    match n
    case Leaf(v) => Falsy(v)
    case Interior(m) => m == map[]
  }

  /**
   The entry a value becomes once assigned into the store. An admitted dict is
   always empty, and being a dict it reads back as a (childless) nested entry.
   */
  function Stored(v: Value): (n: Node)
    requires ValidEntryType(v)
    ensures n.Interior? <==> v.Dict?
    ensures n.Interior? ==> n.children == map[]
    ensures n.Leaf? ==> n.value == v
    ensures NodeFalsy(n) <==> Falsy(v)
  {
    if v.Dict? then Interior(map[]) else Leaf(v)
  }

  // ---------------------------------------------------------------------
  // Lookup (`_get_entry_from_dot`)
  // ---------------------------------------------------------------------

  /**
   One step of the lookup: `if part in entry: entry = entry[part] else: break`.
   On a dict this is key membership. On a str it is a substring test and on a
   list or tuple an element test, and when that test succeeds the indexing
   with a str raises TypeError; on any other value `in` itself raises TypeError.
   So only a dict is ever descended into.
   */
  function Descend(n: Node, part: string): (r: Result<Option<Node>>)
    ensures n.Interior? ==> r.Ok? && (r.value.Some? <==> part in n.children)
    ensures r.Ok? && r.value.Some? ==> n.Interior? && part in n.children && r.value.value == n.children[part]
    ensures r.Err? ==> r.error == TypeError
  {
    match n
    case Interior(m) => Ok(if part in m then Some(m[part]) else None)
    case Leaf(v) =>
      if v.Str? then
        (if IsSubstring(part, v.s) then Err(TypeError) else Ok(None))
      else if v.List? || v.Tuple? then
        (if Str(part) in v.items then Err(TypeError) else Ok(None))
      else
        Err(TypeError)
  }

  /**
   The lookup of a segment list from a node: walk the segments left to right,
   yield None at the first missing one, otherwise the node at the last one.
   */
  function Lookup(n: Node, segs: seq<string>): (r: Result<Option<Node>>)
    requires |segs| >= 1
    ensures r.Err? ==> r.error == TypeError
    ensures n.Interior? && segs[0] !in n.children ==> r == Ok(None)
    ensures r.Ok? && r.value.Some? ==> n.Interior? && segs[0] in n.children
    decreases |segs|
  {
    match Descend(n, segs[0])
    case Err(e) => Err(e)
    case Ok(None) => Ok(None)
    case Ok(Some(child)) => if |segs| == 1 then Ok(Some(child)) else Lookup(child, segs[1..])
  }

  /** What the store holds under `name`, as `_get_entry_from_dot` computes it. */
  function Find(root: map<string, Node>, name: string): (r: Result<Option<Node>>)
    requires name != ""
    ensures r.Err? ==> r.error == TypeError
    ensures Segments(name)[0] !in root ==> r == Ok(None)
    ensures r.Ok? && r.value.Some? ==> Segments(name)[0] in root
  {
    Lookup(Interior(root), Segments(name))
  }

  /**
   `get`: the lookup result, with `default` put in its place whenever it is
   falsy -- missing, or stored as 0, "", False, None, an empty list, tuple or
   dict. Errors of the lookup propagate.
   */
  function Fetch(root: map<string, Node>, name: string, default: Node): (r: Result<Node>)
    requires name != ""
    ensures r.Err? <==> Find(root, name).Err?
    ensures Find(root, name) == Ok(None) ==> r == Ok(default)
    ensures forall n :: Find(root, name) == Ok(Some(n)) ==> r == Ok(if NodeFalsy(n) then default else n)
  {
    match Find(root, name)
    case Err(e) => Err(e)
    case Ok(found) =>
      if found.None? || NodeFalsy(found.value) then Ok(default) else Ok(found.value)
  }

  // ---------------------------------------------------------------------
  // The write (`_set_entry_from_dot`)
  // ---------------------------------------------------------------------

  /**
   The outcome of one call of the write loop as the code stands. The loop
   partitions the name once; when more follows the first dot it re-partitions
   the head it has just found, not the remainder, and on an existing dict it
   neither descends nor advances. So only the first segment `head` is ever
   used: a fresh dotted name becomes `root[head][head]`, an empty head (a name
   starting with a dot) stops the loop after it has made `root[""]` a dict, and
   a dotted name under an existing dict meets that dict again on the second
   pass and is refused as having sub entries. Only `head` is touched.
   */
  function SetOutcome(root: map<string, Node>, name: string, value: Value): (r: Result<map<string, Node>>)
    requires name != ""
    ensures r.Ok? ==> r.value - {Partition(name).0} == root - {Partition(name).0}
  {
    if !ValidEntryType(value) then Err(UnsupportedType)
    else
      var (head, _, rest) := Partition(name);
      if head !in root then
        if rest == "" then Ok(root[head := Stored(value)])
        else if head == "" then Ok(root[head := Interior(map[])])
        else Ok(root[head := Interior(map[head := Stored(value)])])
      else if rest == "" then
        if root[head].Interior? then Err(HasSubEntries) else Ok(root[head := Stored(value)])
      else if !root[head].Interior? then Err(InvalidNesting)
      else if head == "" then Ok(root)
      else Err(HasSubEntries)
  }

  /**
   The shape every store built by these writes keeps: every key is dot-free,
   and a dict below the top level holds no dicts that have entries of their own.
   */
  ghost predicate WellShaped(root: map<string, Node>) {
    forall k :: k in root ==>
      '.' !in k &&
      (root[k].Interior? ==>
         forall j :: j in root[k].children ==>
           '.' !in j && (root[k].children[j].Interior? ==> root[k].children[j].children == map[]))
  }

  // ---------------------------------------------------------------------
  // The cursor `_entry` of the write loop: a path of dict keys from the root
  // ---------------------------------------------------------------------

  /** Every key of `path` names a dict, starting from `m`. */
  predicate IsDictPath(m: map<string, Node>, path: seq<string>)
    decreases |path|
  {
    path == [] || (path[0] in m && m[path[0]].Interior? && IsDictPath(m[path[0]].children, path[1..]))
  }

  /** The dict the cursor refers to. */
  function DictAt(m: map<string, Node>, path: seq<string>): (d: map<string, Node>)
    requires IsDictPath(m, path)
    decreases |path|
  {
    if path == [] then m else DictAt(m[path[0]].children, path[1..])
  }

  /**
   `entry[key] = node` through the cursor: the dict at `path` gains the
   assignment, the path still leads to a dict, and nothing else changes. The
   write loop's cursor is the root or one key below it, never deeper.
   */
  function PutAt(m: map<string, Node>, path: seq<string>, key: string, node: Node): (r: map<string, Node>)
    requires |path| <= 1
    requires IsDictPath(m, path)
    ensures IsDictPath(r, path) && DictAt(r, path) == DictAt(m, path)[key := node]
    ensures path != [] ==> r - {path[0]} == m - {path[0]}
    decreases |path|
  {
    if path == [] then m[key := node]
    else m[path[0] := Interior(PutAt(m[path[0]].children, path[1..], key, node))]
  }
}
