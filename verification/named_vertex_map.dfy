/** The older keyed vertex containers of src/vertex_map.rs (an insertion
    ordered map) and src/vertex_set.rs (a hash map), over vertices that
    carry a string id, and the text format one vertex per line. */
module NamedVertexMaps {
  import opened Wrappers
  import opened Sums

  /** A vertex with its coordinates and a string id, as src/vertex_map.rs
      uses it. */
  datatype NamedVertex = NamedVertex(x: int, y: int, id: string)

  /** A segment between two looked-up vertices. */
  datatype NamedSegment = NamedSegment(a: NamedVertex, b: NamedVertex)

  /** The insertion-ordered map: the keys in the order they were first
      inserted, and the vertex stored under each. */
  datatype OrderedMap = OrderedMap(order: seq<string>, values: map<string, NamedVertex>)

  /** Every key is listed once, the listed keys are exactly the stored ones,
      and each vertex sits under its own id. */
  predicate Valid(m: OrderedMap)
  {
    && Distinct(m.order)
    && (forall k | k in m.values :: k in m.order)
    && (forall k | k in m.order :: k in m.values)
    && (forall k | k in m.values :: m.values[k].id == k)
  }

  /** The ids of a vertex list, in order. */
  function Ids(vs: seq<NamedVertex>): (r: seq<string>)
    ensures |r| == |vs| && forall i | 0 <= i < |vs| :: r[i] == vs[i].id
  {
    seq(|vs|, i requires 0 <= i < |vs| => vs[i].id)
  }

  /** Keying a list by id, a later vertex replacing an earlier one with the
      same id: the content both `new`s build. */
  function Keyed(vs: seq<NamedVertex>): map<string, NamedVertex>
  {
    if |vs| == 0 then map[] else Keyed(vs[..|vs| - 1])[vs[|vs| - 1].id := vs[|vs| - 1]]
  }

  /** Inserting into the ordered map: a new key goes to the end, an existing
      key keeps its place and takes the new vertex. */
  function Insert(m: OrderedMap, v: NamedVertex): (r: OrderedMap)
    requires Valid(m)
    ensures Valid(r)
    ensures r.values == m.values[v.id := v]
    ensures r.order == if v.id in m.values then m.order else m.order + [v.id]
  {
    if v.id in m.values then m.(values := m.values[v.id := v])
    else OrderedMap(m.order + [v.id], m.values[v.id := v])
  }

  /** The map the loop of `new` has built after the given vertices. */
  function Build(vs: seq<NamedVertex>): (r: OrderedMap)
    ensures Valid(r)
  {
    if |vs| == 0 then OrderedMap([], map[]) else Insert(Build(vs[..|vs| - 1]), vs[|vs| - 1])
  }

  /** The keyed content holds exactly the ids of the list. */
  lemma {:induction false} KeyedKeys(vs: seq<NamedVertex>)
    ensures forall k :: k in Keyed(vs) <==> k in Ids(vs)
  {
    if |vs| > 0 {
      var p := vs[..|vs| - 1];
      KeyedKeys(p);
      assert Ids(vs) == Ids(p) + [vs[|vs| - 1].id];
    }
  }

  /** The last vertex with a given id is the one kept under it. */
  lemma {:induction false} KeyedLastWins(vs: seq<NamedVertex>, i: nat)
    requires i < |vs|
    requires forall j | i < j < |vs| :: vs[j].id != vs[i].id
    ensures vs[i].id in Keyed(vs) && Keyed(vs)[vs[i].id] == vs[i]
  {
    if i < |vs| - 1 {
      KeyedLastWins(vs[..|vs| - 1], i);
    }
  }

  /** The ordered map built from a list holds the keyed content. */
  lemma {:induction false} BuildValues(vs: seq<NamedVertex>)
    ensures Build(vs).values == Keyed(vs)
  {
    if |vs| > 0 {
      BuildValues(vs[..|vs| - 1]);
    }
  }

  /** With distinct ids the keys are listed in input order. */
  lemma {:induction false} BuildOrder(vs: seq<NamedVertex>)
    requires Distinct(Ids(vs))
    ensures Build(vs).order == Ids(vs)
  {
    if |vs| > 0 {
      var p := vs[..|vs| - 1];
      assert Ids(p) == Ids(vs)[..|vs| - 1];
      BuildOrder(p);
      BuildValues(p);
      KeyedKeys(p);
      assert vs[|vs| - 1].id !in Ids(p);
      assert Ids(vs) == Ids(p) + [vs[|vs| - 1].id];
    }
  }

  /** `new`: insert every vertex under its id, in input order. */
  method New(vertices: seq<NamedVertex>) returns (m: OrderedMap)
    ensures m == Build(vertices)
    ensures forall k :: k in m.values <==> k in Ids(vertices)
    ensures forall i | 0 <= i < |vertices| && (forall j | i < j < |vertices| :: vertices[j].id != vertices[i].id)
      :: m.values[vertices[i].id] == vertices[i]
  {
    m := OrderedMap([], map[]);
    for i := 0 to |vertices|
      invariant m == Build(vertices[..i])
    {
      assert vertices[..i + 1][..i] == vertices[..i];
      m := Insert(m, vertices[i]);
    }
    assert vertices[..|vertices|] == vertices;
    BuildValues(vertices);
    KeyedKeys(vertices);
    forall i | 0 <= i < |vertices| && (forall j | i < j < |vertices| :: vertices[j].id != vertices[i].id)
      ensures m.values[vertices[i].id] == vertices[i]
    {
      KeyedLastWins(vertices, i);
    }
  }

  /** `get`: the vertex stored under the id, if any. */
  function Get(m: OrderedMap, id: string): (r: Option<NamedVertex>)
    requires Valid(m)
    ensures r.Some? <==> id in m.order
    ensures r.Some? ==> r.value == m.values[id] && r.value.id == id
  {
    if id in m.values then Some(m.values[id]) else None
  }

  /** `all_vertices`: the stored vertices in insertion order. */
  function AllVertices(m: OrderedMap): (r: seq<NamedVertex>)
    requires Valid(m)
    ensures |r| == |m.order|
    ensures forall i | 0 <= i < |r| :: r[i] == m.values[m.order[i]]
    ensures Ids(r) == m.order
  {
    seq(|m.order|, i requires 0 <= i < |m.order| => m.values[m.order[i]])
  }

  /** A map built from vertices with distinct ids lists back exactly those
      vertices, in input order. */
  lemma AllVerticesOfNew(vs: seq<NamedVertex>)
    requires Distinct(Ids(vs))
    ensures AllVertices(Build(vs)) == vs
  {
    BuildOrder(vs);
    BuildValues(vs);
    forall i | 0 <= i < |vs|
      ensures Build(vs).values[vs[i].id] == vs[i]
    {
      KeyedLastWins(vs, i);
    }
  }

  /** Looking up each name in turn, in the order of the names. */
  function LookupAll(values: map<string, NamedVertex>, names: seq<string>): (r: seq<NamedVertex>)
    requires forall n | n in names :: n in values
    ensures |r| == |names|
    ensures forall i | 0 <= i < |names| :: r[i] == values[names[i]]
  {
    seq(|names|, i requires 0 <= i < |names| => values[names[i]])
  }

  /** `get_vertices`: one vertex per name, in the order of the names; a
      missing name panics in the source. */
  function GetVertices(m: OrderedMap, names: seq<string>): (r: seq<NamedVertex>)
    requires Valid(m)
    requires forall n | n in names :: n in m.order
    ensures |r| == |names|
    ensures forall i | 0 <= i < |names| :: Get(m, names[i]) == Some(r[i]) && r[i].id == names[i]
  {
    LookupAll(m.values, names)
  }

  /** `get_line_segment`: the segment between the two vertices; either id
      missing panics in the source. */
  function GetLineSegment(m: OrderedMap, id1: string, id2: string): (r: NamedSegment)
    requires Valid(m)
    requires id1 in m.order && id2 in m.order
    ensures Get(m, id1) == Some(r.a) && Get(m, id2) == Some(r.b)
    ensures r.a.id == id1 && r.b.id == id2
  {
    NamedSegment(m.values[id1], m.values[id2])
  }

  /** The pieces joined back with the separator between them. */
  function Join(pieces: seq<string>, sep: char): string
    requires |pieces| > 0
  {
    if |pieces| == 1 then pieces[0] else pieces[0] + [sep] + Join(pieces[1..], sep)
  }

  /** The position of the first occurrence of c in s. */
  function FirstIndex(s: string, c: char): (i: nat)
    requires c in s
    ensures i < |s| && s[i] == c && c !in s[..i]
  {
    if s[0] == c then 0 else FirstIndex(s[1..], c) + 1
  }

  /** `str::split` on one character: the maximal runs between separators,
      one more piece than there are separators; an empty string is one
      empty piece. */
  function Split(s: string, sep: char): (r: seq<string>)
    ensures |r| > 0
    ensures forall i | 0 <= i < |r| :: sep !in r[i]
    ensures Join(r, sep) == s
    decreases |s|
  {
    if sep !in s then [s]
    else
      var i := FirstIndex(s, sep);
      var rest := Split(s[i + 1..], sep);
      assert s == s[..i] + [sep] + s[i + 1..];
      [s[..i]] + rest
  }

  /** Splitting undoes joining when no piece holds the separator. */
  lemma {:induction false} SplitJoin(pieces: seq<string>, sep: char)
    requires |pieces| > 0
    requires forall i | 0 <= i < |pieces| :: sep !in pieces[i]
    ensures Split(Join(pieces, sep), sep) == pieces
  {
    var s := Join(pieces, sep);
    if |pieces| == 1 {
    } else {
      var tail := Join(pieces[1..], sep);
      assert s == pieces[0] + [sep] + tail;
      assert sep in s by { assert s[|pieces[0]|] == sep; }
      var i := FirstIndex(s, sep);
      assert i == |pieces[0]| by {
        assert s[..|pieces[0]|] == pieces[0];
      }
      assert s[..i] == pieces[0];
      assert s[i + 1..] == tail;
      SplitJoin(pieces[1..], sep);
      assert Split(s, sep) == [pieces[0]] + pieces[1..];
    }
  }

  datatype ParseVertexMapError = ParseVertexMapError

  /** `from_str`: split the text on newlines and read one vertex per line.
      The line reader is not part of this model and comes in as `parse`;
      the source unwraps its result, so every line must read. The outcome
      is always Ok. */
  function FromStr(s: string, parse: string -> Option<NamedVertex>): (r: Result<OrderedMap, ParseVertexMapError>)
    requires forall line | line in Split(s, '\n') :: parse(line).Some?
    ensures r.Ok?
    ensures var lines := Split(s, '\n');
      exists vs: seq<NamedVertex> | |vs| == |lines| && (forall i | 0 <= i < |lines| :: parse(lines[i]) == Some(vs[i]))
        :: r.value == Build(vs)
  {
    var lines := Split(s, '\n');
    var vs := seq(|lines|, i requires 0 <= i < |lines| => parse(lines[i]).value);
    Ok(Build(vs))
  }

  /** The unit test: with a line reader that reads "1 2 a" as a at (1, 2)
      and "3 4 b" as b at (3, 4), the text "1 2 a\n3 4 b" gives the map
      built from [a, b]. */
  lemma FromStrExample(parse: string -> Option<NamedVertex>)
    requires parse("1 2 a") == Some(NamedVertex(1, 2, "a"))
    requires parse("3 4 b") == Some(NamedVertex(3, 4, "b"))
    ensures forall line | line in Split("1 2 a\n3 4 b", '\n') :: parse(line).Some?
    ensures FromStr("1 2 a\n3 4 b", parse) == Ok(Build([NamedVertex(1, 2, "a"), NamedVertex(3, 4, "b")]))
  {
    assert Join(["1 2 a", "3 4 b"], '\n') == "1 2 a\n3 4 b";
    SplitJoin(["1 2 a", "3 4 b"], '\n');
    var vs := [NamedVertex(1, 2, "a"), NamedVertex(3, 4, "b")];
    assert seq(2, i requires 0 <= i < 2 => parse(["1 2 a", "3 4 b"][i]).value) == vs;
  }

  /** The hash map of src/vertex_set.rs: vertices keyed by id, no order. */
  datatype VertexSet = VertexSet(vertices: map<string, NamedVertex>)

  /** `new` of the hash map: every vertex under its id, a later vertex with
      the same id replacing the earlier one. */
  method NewSet(vs: seq<NamedVertex>) returns (s: VertexSet)
    ensures s.vertices == Keyed(vs)
    ensures forall k :: k in s.vertices <==> k in Ids(vs)
    ensures forall i | 0 <= i < |vs| && (forall j | i < j < |vs| :: vs[j].id != vs[i].id)
      :: s.vertices[vs[i].id] == vs[i]
    ensures forall k | k in s.vertices :: s.vertices[k].id == k
  {
    var m := map[];
    for i := 0 to |vs|
      invariant m == Keyed(vs[..i])
    {
      assert vs[..i + 1][..i] == vs[..i];
      m := m[vs[i].id := vs[i]];
    }
    assert vs[..|vs|] == vs;
    s := VertexSet(m);
    KeyedKeys(vs);
    BuildValues(vs);
    forall i | 0 <= i < |vs| && (forall j | i < j < |vs| :: vs[j].id != vs[i].id)
      ensures m[vs[i].id] == vs[i]
    {
      KeyedLastWins(vs, i);
    }
  }

  /** `get_vertices` of the hash map: one vertex per name, in the order of
      the names; a missing name panics ("Should have it") in the source. */
  function GetSetVertices(s: VertexSet, names: seq<string>): (r: seq<NamedVertex>)
    requires forall n | n in names :: n in s.vertices
    ensures |r| == |names|
    ensures forall i | 0 <= i < |names| :: r[i] == s.vertices[names[i]]
  {
    LookupAll(s.vertices, names)
  }
}
