/**
 Dot names: `str.partition(".")` and the segments a lookup visits when it
 partitions a name again and again.
 */
module DotNames {

  /**
   `s.partition(".")`: the text before the first dot, the dot itself (or "" when
   there is none) and the text after it.
   */
  function Partition(s: string): (r: (string, string, string))
    ensures r.0 + r.1 + r.2 == s
    ensures '.' !in r.0
    ensures r.1 == (if '.' in s then "." else "")
    ensures r.1 == "" ==> r.2 == ""
  {
    if s == "" then ("", "", "")
    else if s[0] == '.' then ("", ".", s[1..])
    else
      var (head, sep, rest) := Partition(s[1..]);
      assert [s[0]] + head + sep + rest == [s[0]] + (head + sep + rest);
      ([s[0]] + head, sep, rest)
  }

  /** A name without a dot partitions into itself. */
  lemma PartitionDotFree(s: string)
    requires '.' !in s
    ensures Partition(s) == (s, "", "")
  {
    var r := Partition(s);
    assert r.0 + r.1 + r.2 == r.0;
  }

  /** The first dot is the one after a dot-free head, whatever follows it. */
  lemma {:induction false} PartitionAtFirstDot(head: string, rest: string)
    requires '.' !in head
    ensures Partition(head + "." + rest) == (head, ".", rest)
  {
    var s := head + "." + rest;
    if head == "" {
      assert s == "." + rest;
    } else {
      assert s[0] == head[0] && s[1..] == head[1..] + "." + rest;
      PartitionAtFirstDot(head[1..], rest);
      assert [head[0]] + head[1..] == head;
    }
  }

  /**
   The segments the lookup loop visits: the head of each partition, until the
   text after the dot is empty. A trailing dot is therefore dropped, and an
   empty segment stands where two dots meet or the name starts with one.
   */
  function Segments(name: string): (segs: seq<string>)
    decreases |name|
    ensures |segs| >= 1
    ensures forall i :: 0 <= i < |segs| ==> '.' !in segs[i]
  {
    var (head, _, rest) := Partition(name);
    if rest == "" then [head] else [head] + Segments(rest)
  }

  /** The segments joined back with dots. */
  function Join(segs: seq<string>): (name: string)
    requires |segs| >= 1
  {
    if |segs| == 1 then segs[0] else segs[0] + "." + Join(segs[1..])
  }

  /** Joining the segments gives the name back, less at most one trailing dot. */
  lemma {:induction false} JoinSegments(name: string)
    decreases |name|
    ensures name == Join(Segments(name)) || name == Join(Segments(name)) + "."
  {
    var (head, sep, rest) := Partition(name);
    if rest != "" {
      JoinSegments(rest);
      var j := Join(Segments(rest));
      assert Segments(name) == [head] + Segments(rest);
      assert Join(Segments(name)) == head + "." + j;
      if rest == j + "." {
        assert name == head + "." + j + ".";
      }
    }
  }

  /**
   Splitting a dot-joined list of dot-free segments gives the list back, as long
   as the last segment of a longer list is not empty (that dot would be dropped).
   */
  lemma {:induction false} SegmentsOfJoin(segs: seq<string>)
    requires |segs| >= 1
    requires forall i :: 0 <= i < |segs| ==> '.' !in segs[i]
    requires |segs| > 1 ==> segs[|segs| - 1] != ""
    ensures Segments(Join(segs)) == segs
  {
    if |segs| == 1 {
      PartitionDotFree(segs[0]);
    } else {
      var tail := segs[1..];
      assert forall i :: 0 <= i < |tail| ==> '.' !in tail[i] by {
        forall i | 0 <= i < |tail| ensures '.' !in tail[i] { assert tail[i] == segs[i + 1]; }
      }
      assert |tail| > 1 ==> tail[|tail| - 1] == segs[|segs| - 1];
      SegmentsOfJoin(tail);
      PartitionAtFirstDot(segs[0], Join(tail));
      assert Join(tail) != "" by {
        if |tail| == 1 { assert Join(tail) == segs[|segs| - 1]; } else { JoinNotEmpty(tail); }
      }
      assert [segs[0]] + tail == segs;
    }
  }

  lemma JoinNotEmpty(segs: seq<string>)
    requires |segs| > 1
    ensures Join(segs) != ""
  {
  }
}
