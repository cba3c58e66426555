/** `canonicalize_graph`: the fixed form of a graph an LLM produced. Python's `str()` is a
    parameter `str`; floats are not modelled. */
module GraphCanon {
  import opened Wrappers
  import opened JsonValues
  import opened PyText
  import opened Ordering
  import opened ListPasses

  datatype Error = TypeError

  predicate Truthy(v: Json) {
    match v
    case JNull => false
    case JBool(b) => b
    case JNum(n) => n != 0
    case JStr(s) => s != ""
    case JList(items) => items != []
    case JDict(fields) => fields != []
  }

  /** Six values are false; every other one is true. */
  lemma TruthyMeans(v: Json)
    ensures !Truthy(v) <==> v in {JNull, JBool(false), JNum(0), JStr(""), JList([]), JDict([])}
  {
  }

  /** dict.get(key, default) */
  function Get(fields: Fields, key: string, default: Json): Json {
    if fields == [] then default
    else if fields[0].0 == key then fields[0].1
    else Get(fields[1..], key, default)
  }

  /** `d[key] = v`: in its old place if the key is there, else at the end. */
  function Set(fields: Fields, key: string, v: Json): Fields {
    if fields == [] then [(key, v)]
    else if fields[0].0 == key then [(key, v)] + fields[1..]
    else [fields[0]] + Set(fields[1..], key, v)
  }

  lemma {:induction false} GetAfterSet(fields: Fields, key: string, v: Json, other: string, default: Json)
    ensures Get(Set(fields, key, v), other, default) == if other == key then v else Get(fields, other, default)
    ensures Set(fields, key, v) != []
  {
    if fields != [] && fields[0].0 != key {
      GetAfterSet(fields[1..], key, v, other, default);
    }
  }

  predicate HasKey(fields: Fields, key: string) {
    fields != [] && (fields[0].0 == key || HasKey(fields[1..], key))
  }

  /** Assigning what is there already changes nothing, the place of the key included. */
  lemma {:induction false} SetSame(fields: Fields, key: string, v: Json)
    requires HasKey(fields, key) && Get(fields, key, JNull) == v
    ensures Set(fields, key, v) == fields
  {
    assert fields == [fields[0]] + fields[1..];
    if fields[0].0 != key { SetSame(fields[1..], key, v); }
  }

  lemma {:induction false} SetHasKey(fields: Fields, key: string, v: Json, other: string)
    ensures HasKey(Set(fields, key, v), other) <==> other == key || HasKey(fields, other)
  {
    if fields != [] && fields[0].0 != key {
      SetHasKey(fields[1..], key, v, other);
    }
  }

  lemma {:induction false} SetOver(fields: Fields, key: string, v: Json, w: Json)
    ensures Set(Set(fields, key, v), key, w) == Set(fields, key, w)
  {
    if fields != [] && fields[0].0 != key {
      SetOver(fields[1..], key, v, w);
    }
  }

  /** Assigning a key that is there may trade places with assigning another. */
  lemma {:induction false} SetSwap(fields: Fields, key: string, v: Json, other: string, w: Json)
    requires key != other && HasKey(fields, key)
    ensures Set(Set(fields, other, w), key, v) == Set(Set(fields, key, v), other, w)
  {
    if fields[0].0 != key && fields[0].0 != other {
      SetSwap(fields[1..], key, v, other, w);
    }
  }

  // ---- Properties --------------------------------------------------------------------

  function StripValue(v: Json): Json {
    if v.JStr? then JStr(Strip(v.s)) else v
  }

  function StripAll(fields: Fields): Fields {
    if fields == [] then []
    else StripAll(fields[..|fields| - 1]) + [(fields[|fields| - 1].0, StripValue(fields[|fields| - 1].1))]
  }

  function NormProps(v: Json): Json {
    if !Truthy(v) then JDict([])
    else if v.JDict? then JDict(StripAll(Sort(FieldOrder(), v.fields)))
    else v
  }

  method NormaliseProps(v: Json) returns (r: Json)
    ensures r == NormProps(v)
  {
    if !Truthy(v) { return JDict([]); }
    if !v.JDict? { return v; }
    var fields := Sort(FieldOrder(), v.fields);
    var out: Fields := [];
    for i := 0 to |fields|
      invariant out == StripAll(fields[..i])
    {
      assert fields[..i + 1][..i] == fields[..i];
      out := out + [(fields[i].0, StripValue(fields[i].1))];
    }
    assert fields[..|fields|] == fields;
    return JDict(out);
  }

  lemma {:induction false} StripAllPointwise(fields: Fields)
    ensures |StripAll(fields)| == |fields|
    ensures forall i | 0 <= i < |fields| :: StripAll(fields)[i] == (fields[i].0, StripValue(fields[i].1))
  {
    if fields != [] { StripAllPointwise(fields[..|fields| - 1]); }
  }

  lemma StripAllTwice(fields: Fields)
    ensures StripAll(StripAll(fields)) == StripAll(fields)
  {
    StripAllPointwise(fields);
    StripAllPointwise(StripAll(fields));
    forall i | 0 <= i < |fields| ensures StripAll(StripAll(fields))[i] == StripAll(fields)[i] {
      if fields[i].1.JStr? { StripIdempotent(fields[i].1.s); }
    }
  }

  lemma StripAllKeepsSorted(fields: Fields)
    requires SortedBy(FieldOrder(), fields)
    ensures SortedBy(FieldOrder(), StripAll(fields))
  {
    StripAllPointwise(fields);
    var r := StripAll(fields);
    forall i, j | 0 <= i < j < |r| ensures FieldOrder()(r[i], r[j]) {
      assert FieldOrder()(fields[i], fields[j]);
    }
  }

  lemma SortKeepsLength(fields: Fields)
    ensures |Sort(FieldOrder(), fields)| == |fields|
  {
    FieldOrderTotal();
    SortSorts(FieldOrder(), fields);
    assert |multiset(Sort(FieldOrder(), fields))| == |multiset(fields)|;
  }

  /** Properties come out in key order, each field once for each time it went in, its value
      stripped if it is a string. */
  lemma NormPropsMean(fields: Fields)
    requires fields != []
    ensures var r := NormProps(JDict(fields));
            && r.JDict? && |r.fields| == |fields|
            && (forall i, j | 0 <= i < j < |r.fields| :: StringLe(r.fields[i].0, r.fields[j].0))
            && exists order: Fields :: multiset(order) == multiset(fields) && |order| == |fields|
                 && forall i | 0 <= i < |order| ::
                      && r.fields[i].0 == order[i].0
                      && r.fields[i].1 == if order[i].1.JStr? then JStr(Strip(order[i].1.s)) else order[i].1
  {
    FieldOrderTotal();
    SortSorts(FieldOrder(), fields);
    SortKeepsLength(fields);
    var order := Sort(FieldOrder(), fields);
    StripAllPointwise(order);
    StripAllKeepsSorted(order);
  }

  /** Other properties: what is false becomes an empty dict, and what is no dict stays. */
  lemma OddPropsMean(v: Json)
    ensures v in {JNull, JBool(false), JNum(0), JStr(""), JList([]), JDict([])} ==> NormProps(v) == JDict([])
    ensures !v.JDict? && v !in {JNull, JBool(false), JNum(0), JStr(""), JList([])} ==> NormProps(v) == v
  {
  }

  /** Sorting and stripping again changes nothing. */
  lemma NormFieldsTwice(fields: Fields)
    ensures var r := StripAll(Sort(FieldOrder(), fields));
            |r| == |fields| && StripAll(Sort(FieldOrder(), r)) == r
  {
    FieldOrderTotal();
    SortSorts(FieldOrder(), fields);
    SortKeepsLength(fields);
    var sorted := Sort(FieldOrder(), fields);
    StripAllPointwise(sorted);
    StripAllKeepsSorted(sorted);
    SortSorts(FieldOrder(), StripAll(sorted));
    StripAllTwice(sorted);
  }

  lemma NormPropsTwice(v: Json)
    ensures NormProps(NormProps(v)) == NormProps(v)
  {
    if Truthy(v) && v.JDict? { NormFieldsTwice(v.fields); }
  }

  /** What properties come out as does not depend on the order of a dict's keys. */
  lemma NormPropsIgnoresOrder(a: Fields, b: Fields)
    requires multiset(a) == multiset(b)
    requires forall i, j | 0 <= i < j < |a| :: a[i].0 != a[j].0
    ensures NormProps(JDict(a)) == NormProps(JDict(b))
  {
    FieldOrderTotal();
    StringLeTotal();
    assert |multiset(a)| == |a| && |multiset(b)| == |b|;
    forall f, g | f in a && g in a && FieldOrder()(f, g) && FieldOrder()(g, f) ensures f == g {
      var i :| 0 <= i < |a| && a[i] == f;
      var j :| 0 <= j < |a| && a[j] == g;
      assert f.0 == g.0;
      assert i == j;
    }
    SortIgnoresOrder(FieldOrder(), a, b);
  }

  // ---- Nodes -------------------------------------------------------------------------

  /** Python compares a bool with an int as 0 or 1. */
  function AsSetMember(v: Json): Json {
    if v.JBool? then JNum(if v.b then 1 else 0) else v
  }

  /** What goes into `seen_ids`: nothing for an item that is no dict or has no id. */
  function NodeId(n: Json): Option<Json> {
    if n.JDict? && Truthy(Get(n.fields, "id", JNull)) then Some(AsSetMember(Get(n.fields, "id", JNull))) else None
  }

  /** An item has an id when it is a dict whose "id" is true in Python's sense, and two ids are
      the same one when they are equal in Python, where True is 1. */
  lemma NodeIdMeans(n: Json, m: Json)
    ensures NodeId(n).Some? <==>
              n.JDict? && Get(n.fields, "id", JNull) !in {JNull, JBool(false), JNum(0), JStr(""), JList([]), JDict([])}
    ensures NodeId(n).Some? && NodeId(m).Some? ==>
              (NodeId(n) == NodeId(m) <==>
               var a, b := Get(n.fields, "id", JNull), Get(m.fields, "id", JNull);
               a == b || (a == JBool(true) && b == JNum(1)) || (a == JNum(1) && b == JBool(true)))
  {
  }

  function NormNode(n: Json): Json {
    if !n.JDict? then n
    else JDict([("id", Get(n.fields, "id", JNull)),
                ("label", Get(n.fields, "label", JStr(""))),
                ("properties", NormProps(Get(n.fields, "properties", JNull)))])
  }

  function Kept(nodes: seq<Json>): seq<Json> {
    Firsts(NodeId, NormNode, nodes)
  }

  /** An id goes into a Python set, which takes no list and no dict. */
  predicate IsHashable(v: Json) {
    !v.JList? && !v.JDict?
  }

  predicate HashableIds(nodes: seq<Json>) {
    forall n | n in nodes && NodeId(n).Some? :: IsHashable(NodeId(n).value)
  }

  method NormaliseNodes(nodes: seq<Json>) returns (r: Result<seq<Json>, Error>)
    ensures r == if HashableIds(nodes) then Ok(Kept(nodes)) else Err(TypeError)
  {
    var seen: set<Json> := {};
    var out: seq<Json> := [];
    for i := 0 to |nodes|
      invariant seen == Seen(NodeId, nodes[..i]) && out == Kept(nodes[..i]) && HashableIds(nodes[..i])
    {
      var n := nodes[i];
      assert nodes[..i + 1][..i] == nodes[..i] && nodes[..i + 1] == nodes[..i] + [n];
      SeenGrows(NodeId, nodes[..i], n);
      if !n.JDict? { continue; }
      var id := Get(n.fields, "id", JNull);
      if !Truthy(id) { continue; }
      if !IsHashable(id) { return Err(TypeError); }
      if AsSetMember(id) in seen { continue; }
      seen := seen + {AsSetMember(id)};
      var props := NormaliseProps(Get(n.fields, "properties", JNull));
      out := out + [JDict([("id", id), ("label", Get(n.fields, "label", JStr(""))), ("properties", props)])];
    }
    assert nodes[..|nodes|] == nodes;
    return Ok(out);
  }

  lemma GetThird(a: (string, Json), b: (string, Json), c: (string, Json), rest: Fields, default: Json)
    requires a.0 != b.0 && a.0 != c.0 && b.0 != c.0
    ensures var r := [a, b, c] + rest;
            Get(r, a.0, default) == a.1 && Get(r, b.0, default) == b.1 && Get(r, c.0, default) == c.1
  {
    var r := [a, b, c] + rest;
    assert r[0] == a && r[1..][0] == b && r[1..][1..][0] == c;
    assert Get(r, c.0, default) == Get(r[1..], c.0, default) == Get(r[1..][1..], c.0, default);
  }

  lemma FieldNames()
    ensures "id" != "label" && "id" != "properties" && "label" != "properties"
    ensures "source" != "target" && "source" != "type" && "target" != "type"
    ensures "properties" != "source" && "properties" != "target" && "properties" != "type"
    ensures "nodes" != "relationships"
  {
    assert |"id"| == 2 && |"label"| == 5 && |"properties"| == 10 && |"source"| == |"target"| == 6 && |"type"| == 4;
    assert |"nodes"| == 5 && |"relationships"| == 13;
    assert "source"[0] == 's' && "target"[0] == 't';
  }

  /** A node in normal form has its id, its label, '' by default, and its normalised
      properties, and nothing else. */
  lemma NormNodeKeeps(n: Json)
    requires n.JDict?
    ensures var r := NormNode(n);
            && r.JDict? && |r.fields| == 3
            && Get(r.fields, "id", JNull) == Get(n.fields, "id", JNull)
            && Get(r.fields, "label", JStr("")) == Get(r.fields, "label", JNull) == Get(n.fields, "label", JStr(""))
            && Get(r.fields, "properties", JNull) == NormProps(Get(n.fields, "properties", JNull))
    ensures NodeId(NormNode(n)) == NodeId(n) && NormNode(NormNode(n)) == NormNode(n)
  {
    var a := ("id", Get(n.fields, "id", JNull));
    var b := ("label", Get(n.fields, "label", JStr("")));
    var c := ("properties", NormProps(Get(n.fields, "properties", JNull)));
    FieldNames();
    GetThird(a, b, c, [], JNull);
    GetThird(a, b, c, [], JStr(""));
    assert NormNode(n).fields == [a, b, c] == [a, b, c] + [];
    NormPropsTwice(Get(n.fields, "properties", JNull));
  }

  lemma KeptDistinct(nodes: seq<Json>)
    ensures Distinct(NodeId, Kept(nodes))
  {
    forall n ensures NodeId(NormNode(n)) == NodeId(n) {
      if n.JDict? { NormNodeKeeps(n); }
    }
    FirstsDistinct(NodeId, NormNode, nodes);
  }

  // ---- Sort keys ---------------------------------------------------------------------

  /** a <= b for tuples of strings of one length. */
  predicate KeysLe(a: seq<string>, b: seq<string>) {
    a == [] || (b != [] && ((a[0] != b[0] && StringLe(a[0], b[0])) || (a[0] == b[0] && KeysLe(a[1..], b[1..]))))
  }

  lemma {:induction false} KeysLeConnected(a: seq<string>, b: seq<string>)
    ensures KeysLe(a, b) || KeysLe(b, a)
    ensures KeysLe(a, b) && KeysLe(b, a) ==> a == b
  {
    if a != [] && b != [] {
      StringLeConnected(a[0], b[0]);
      KeysLeConnected(a[1..], b[1..]);
      assert a == [a[0]] + a[1..] && b == [b[0]] + b[1..];
    }
  }

  lemma {:induction false} KeysLeTransitive(a: seq<string>, b: seq<string>, c: seq<string>)
    requires KeysLe(a, b) && KeysLe(b, c)
    ensures KeysLe(a, c)
  {
    if a != [] && b != [] && c != [] {
      if a[0] == b[0] == c[0] {
        KeysLeTransitive(a[1..], b[1..], c[1..]);
      } else {
        StringLeConnected(a[0], c[0]);
        StringLeConnected(a[0], b[0]);
        StringLeConnected(b[0], c[0]);
        StringLeTransitive(a[0], b[0], c[0]);
      }
    }
  }

  function ByKey(key: Json -> seq<string>): (Json, Json) -> bool {
    (a: Json, b: Json) => KeysLe(key(a), key(b))
  }

  lemma ByKeyTotal(key: Json -> seq<string>)
    ensures IsTotal(ByKey(key))
    ensures forall a, b :: ByKey(key)(a, b) && ByKey(key)(b, a) ==> key(a) == key(b)
  {
    forall a, b
      ensures (ByKey(key)(a, b) || ByKey(key)(b, a)) && (ByKey(key)(a, b) && ByKey(key)(b, a) ==> key(a) == key(b))
    {
      KeysLeConnected(key(a), key(b));
    }
    forall a, b, c | ByKey(key)(a, b) && ByKey(key)(b, c) ensures ByKey(key)(a, c) {
      KeysLeTransitive(key(a), key(b), key(c));
    }
  }

  /** str(x.get(field) or "") */
  function KeyPart(str: Json -> string, x: Json, field: string): string {
    var v := if x.JDict? then Get(x.fields, field, JNull) else JNull;
    str(if Truthy(v) then v else JStr(""))
  }

  function NodeKey(str: Json -> string): Json -> seq<string> {
    n => [KeyPart(str, n, "label"), KeyPart(str, n, "id")]
  }

  function RelKey(str: Json -> string): Json -> seq<string> {
    r => [KeyPart(str, r, "type"), KeyPart(str, r, "source"), KeyPart(str, r, "target")]
  }

  // ---- Relationships -----------------------------------------------------------------

  predicate IsRel(r: Json) {
    && r.JDict? && Truthy(Get(r.fields, "source", JNull)) && Truthy(Get(r.fields, "target", JNull))
    && Truthy(Get(r.fields, "type", JNull))
  }

  /** The field is there, and true in Python's sense. */
  ghost predicate Given(r: Json, field: string) {
    && r.JDict?
    && Get(r.fields, field, JNull) !in {JNull, JBool(false), JNum(0), JStr(""), JList([]), JDict([])}
  }

  lemma IsRelMeans(r: Json)
    ensures IsRel(r) <==> Given(r, "source") && Given(r, "target") && Given(r, "type")
  {
    if r.JDict? {
      TruthyMeans(Get(r.fields, "source", JNull));
      TruthyMeans(Get(r.fields, "target", JNull));
      TruthyMeans(Get(r.fields, "type", JNull));
    }
  }

  function RelForm(r: Json): Option<Json> {
    if !IsRel(r) then None
    else Some(JDict([("source", Get(r.fields, "source", JNull)),
                     ("target", Get(r.fields, "target", JNull)),
                     ("type", Get(r.fields, "type", JNull)),
                     ("properties", NormProps(Get(r.fields, "properties", JNull)))]))
  }

  function Rels(rels: seq<Json>): seq<Json> {
    Accepted(RelForm, rels)
  }

  method NormaliseRels(rels: seq<Json>) returns (out: seq<Json>)
    ensures out == Rels(rels)
  {
    out := [];
    for i := 0 to |rels|
      invariant out == Rels(rels[..i])
    {
      var r := rels[i];
      assert rels[..i + 1][..i] == rels[..i];
      if !r.JDict? { continue; }
      var source, target := Get(r.fields, "source", JNull), Get(r.fields, "target", JNull);
      var kind := Get(r.fields, "type", JNull);
      if !(Truthy(source) && Truthy(target) && Truthy(kind)) { continue; }
      var props := NormaliseProps(Get(r.fields, "properties", JNull));
      out := out + [JDict([("source", source), ("target", target), ("type", kind), ("properties", props)])];
    }
    assert rels[..|rels|] == rels;
  }

  /** A relationship in normal form has its ends, its type and its normalised properties,
      and nothing else. */
  lemma RelFormKeeps(r: Json)
    requires IsRel(r)
    ensures RelForm(r).Some?
    ensures var q := RelForm(r).value;
            && q.JDict?
            && Get(q.fields, "source", JNull) == Get(r.fields, "source", JNull)
            && Get(q.fields, "target", JNull) == Get(r.fields, "target", JNull)
            && Get(q.fields, "type", JNull) == Get(r.fields, "type", JNull)
            && Get(q.fields, "properties", JNull) == NormProps(Get(r.fields, "properties", JNull))
            && |q.fields| == 4 && RelForm(q) == Some(q)
  {
    var a := ("source", Get(r.fields, "source", JNull));
    var b := ("target", Get(r.fields, "target", JNull));
    var c := ("type", Get(r.fields, "type", JNull));
    var d := ("properties", NormProps(Get(r.fields, "properties", JNull)));
    FieldNames();
    GetThird(a, b, c, [d], JNull);
    var q := [a, b, c] + [d];
    assert RelForm(r).value.fields == [a, b, c, d] == q;
    assert q[1..] == [b, c, d];
    GetThird(b, c, d, [], JNull);
    assert [b, c, d] + [] == [b, c, d];
    assert Get(q, "properties", JNull) == Get(q[1..], "properties", JNull);
    NormPropsTwice(Get(r.fields, "properties", JNull));
  }

  // ---- The whole graph ---------------------------------------------------------------

  /** Iterating over `v or []`. A string gives its characters and a dict its keys. */
  function Iterate(v: Json): Result<seq<Json>, Error> {
    if !Truthy(v) then Ok([])
    else match v
      case JList(items) => Ok(items)
      case JStr(s) => Ok(seq(|s|, i requires 0 <= i < |s| => JStr([s[i]])))
      case JDict(fields) => Ok(seq(|fields|, i requires 0 <= i < |fields| => JStr(fields[i].0)))
      case _ => Err(TypeError)
  }

  function SortNodes(str: Json -> string, nodes: seq<Json>): seq<Json> {
    Sort(ByKey(NodeKey(str)), nodes)
  }

  function SortRels(str: Json -> string, rels: seq<Json>): seq<Json> {
    Sort(ByKey(RelKey(str)), rels)
  }

  function Canon(str: Json -> string, graph: Json): Result<Json, Error> {
    if !Truthy(graph) then Ok(JDict([]))
    else if !graph.JDict? then Ok(graph)
    else
      var nodes := Iterate(Get(graph.fields, "nodes", JNull));
      var rels := Iterate(Get(graph.fields, "relationships", JNull));
      if nodes.Err? || rels.Err? || !HashableIds(nodes.value) then Err(TypeError)
      else
        var withNodes := Set(graph.fields, "nodes", JList(SortNodes(str, Kept(nodes.value))));
        Ok(JDict(Set(withNodes, "relationships", JList(SortRels(str, Rels(rels.value))))))
  }

  method CanonicalizeGraph(str: Json -> string, graph: Json) returns (r: Result<Json, Error>)
    ensures r == Canon(str, graph)
  {
    if !Truthy(graph) { return Ok(JDict([])); }
    if !graph.JDict? { return Ok(graph); }
    var nodesIn := Iterate(Get(graph.fields, "nodes", JNull));
    var relsIn := Iterate(Get(graph.fields, "relationships", JNull));
    if nodesIn.Err? { return Err(TypeError); }
    var nodesOut := NormaliseNodes(nodesIn.value);
    if nodesOut.Err? { return Err(TypeError); }
    var nodes := Sort(ByKey(NodeKey(str)), nodesOut.value);
    if relsIn.Err? { return Err(TypeError); }
    var rels := NormaliseRels(relsIn.value);
    rels := Sort(ByKey(RelKey(str)), rels);
    var out := Set(graph.fields, "nodes", JList(nodes));
    out := Set(out, "relationships", JList(rels));
    return Ok(JDict(out));
  }

  /** What `str()` makes of a field, '' standing in for what is missing or false. */
  ghost function FieldText(str: Json -> string, x: Json, field: string): string {
    if x.JDict? && Truthy(Get(x.fields, field, JNull)) then str(Get(x.fields, field, JNull)) else str(JStr(""))
  }

  /** By label, and by id where the labels are the same. */
  ghost predicate NodeBefore(str: Json -> string, m: Json, n: Json) {
    var a, b := FieldText(str, m, "label"), FieldText(str, n, "label");
    if a == b then StringLe(FieldText(str, m, "id"), FieldText(str, n, "id")) else StringLe(a, b)
  }

  /** By type, then by source, then by target. */
  ghost predicate RelBefore(str: Json -> string, q: Json, r: Json) {
    var a, b := FieldText(str, q, "type"), FieldText(str, r, "type");
    var c, d := FieldText(str, q, "source"), FieldText(str, r, "source");
    if a != b then StringLe(a, b)
    else if c != d then StringLe(c, d)
    else StringLe(FieldText(str, q, "target"), FieldText(str, r, "target"))
  }

  lemma TwoKeys(a: seq<string>, b: seq<string>)
    requires |a| == |b| == 2
    ensures KeysLe(a, b) <==> if a[0] == b[0] then StringLe(a[1], b[1]) else StringLe(a[0], b[0])
  {
    StringLeTotal();
    assert KeysLe(a[1..][1..], b[1..][1..]);
    assert KeysLe(a[1..], b[1..]) <==> StringLe(a[1], b[1]);
  }

  lemma ThreeKeys(a: seq<string>, b: seq<string>)
    requires |a| == |b| == 3
    ensures KeysLe(a, b) <==>
            if a[0] != b[0] then StringLe(a[0], b[0])
            else if a[1] != b[1] then StringLe(a[1], b[1])
            else StringLe(a[2], b[2])
  {
    TwoKeys(a[1..], b[1..]);
  }

  lemma NodesInOrder(str: Json -> string, out: seq<Json>)
    requires SortedBy(ByKey(NodeKey(str)), out)
    ensures forall i, j | 0 <= i < j < |out| :: NodeBefore(str, out[i], out[j])
  {
    forall i, j | 0 <= i < j < |out| ensures NodeBefore(str, out[i], out[j]) {
      assert ByKey(NodeKey(str))(out[i], out[j]);
      TwoKeys(NodeKey(str)(out[i]), NodeKey(str)(out[j]));
    }
  }

  lemma RelsInOrder(str: Json -> string, out: seq<Json>)
    requires SortedBy(ByKey(RelKey(str)), out)
    ensures forall i, j | 0 <= i < j < |out| :: RelBefore(str, out[i], out[j])
  {
    forall i, j | 0 <= i < j < |out| ensures RelBefore(str, out[i], out[j]) {
      assert ByKey(RelKey(str))(out[i], out[j]);
      ThreeKeys(RelKey(str)(out[i]), RelKey(str)(out[j]));
    }
  }

  /** What the nodes of the result are: the normal forms of the first occurrences of each
      id, every one of them, each id once, in (label, id) order. */
  lemma SortedNodesMean(str: Json -> string, nodes: seq<Json>)
    ensures SortedBy(ByKey(NodeKey(str)), SortNodes(str, Kept(nodes)))
    ensures forall i, j | 0 <= i < j < |SortNodes(str, Kept(nodes))| ::
              NodeBefore(str, SortNodes(str, Kept(nodes))[i], SortNodes(str, Kept(nodes))[j])
    ensures Distinct(NodeId, SortNodes(str, Kept(nodes)))
    ensures forall i: nat | IsFirst(NodeId, nodes, i) :: NormNode(nodes[i]) in SortNodes(str, Kept(nodes))
    ensures forall x | x in SortNodes(str, Kept(nodes)) ::
              exists i: nat :: IsFirst(NodeId, nodes, i) && x == NormNode(nodes[i])
  {
    var kept, out := Kept(nodes), SortNodes(str, Kept(nodes));
    ByKeyTotal(NodeKey(str));
    SortSorts(ByKey(NodeKey(str)), kept);
    NodesInOrder(str, out);
    KeptDistinct(nodes);
    DistinctPermuted(NodeId, kept, out);
    forall i: nat | IsFirst(NodeId, nodes, i) ensures NormNode(nodes[i]) in out {
      FirstsStay(NodeId, NormNode, nodes, i);
      assert NormNode(nodes[i]) in multiset(kept);
    }
    forall x | x in out ensures exists i: nat :: IsFirst(NodeId, nodes, i) && x == NormNode(nodes[i]) {
      assert x in multiset(out);
      var i := FirstsCome(NodeId, NormNode, nodes, x);
    }
  }

  lemma DistinctPermuted(id: Json -> Option<Json>, a: seq<Json>, b: seq<Json>)
    requires Distinct(id, a) && multiset(a) == multiset(b)
    ensures Distinct(id, b)
  {
    NoRepeatsPermuted(a, b);
    forall i | 0 <= i < |b| ensures exists k :: 0 <= k < |a| && a[k] == b[i] {
      assert b[i] in multiset(a);
    }
    forall i, j | 0 <= i < j < |b| ensures id(b[i]) != id(b[j]) {
      var k :| 0 <= k < |a| && a[k] == b[i];
      var l :| 0 <= l < |a| && a[l] == b[j];
      assert b[i] != b[j];
    }
  }

  /** And the relationships: the forms of the well-formed ones, as many times as they came,
      in (type, source, target) order. */
  lemma SortedRelsMean(str: Json -> string, rels: seq<Json>)
    ensures SortedBy(ByKey(RelKey(str)), SortRels(str, Rels(rels)))
    ensures forall i, j | 0 <= i < j < |SortRels(str, Rels(rels))| ::
              RelBefore(str, SortRels(str, Rels(rels))[i], SortRels(str, Rels(rels))[j])
    ensures multiset(SortRels(str, Rels(rels))) == multiset(Rels(rels))
    ensures forall x | x in SortRels(str, Rels(rels)) :: exists r :: r in rels && IsRel(r) && RelForm(r) == Some(x)
  {
    ByKeyTotal(RelKey(str));
    SortSorts(ByKey(RelKey(str)), Rels(rels));
    RelsInOrder(str, SortRels(str, Rels(rels)));
    forall x | x in SortRels(str, Rels(rels)) ensures exists r :: r in rels && IsRel(r) && RelForm(r) == Some(x) {
      assert x in multiset(Rels(rels));
      var i := AcceptedCome(RelForm, rels, x);
      assert rels[i] in rels;
    }
  }

  lemma NodesFixed(str: Json -> string, nodes: seq<Json>)
    requires HashableIds(nodes)
    ensures var out := SortNodes(str, Kept(nodes)); HashableIds(out) && SortNodes(str, Kept(out)) == out
  {
    var out := SortNodes(str, Kept(nodes));
    SortedNodesMean(str, nodes);
    forall x | x in out ensures NormNode(x) == x && (NodeId(x).Some? ==> IsHashable(NodeId(x).value)) {
      var i: nat :| IsFirst(NodeId, nodes, i) && x == NormNode(nodes[i]);
      NormNodeKeeps(nodes[i]);
      assert nodes[i] in nodes;
    }
    FirstsFixed(NodeId, NormNode, out);
    ByKeyTotal(NodeKey(str));
    SortSorts(ByKey(NodeKey(str)), out);
  }

  lemma RelsFixed(str: Json -> string, rels: seq<Json>)
    ensures var out := SortRels(str, Rels(rels)); SortRels(str, Rels(out)) == out
  {
    var out := SortRels(str, Rels(rels));
    SortedRelsMean(str, rels);
    forall i | 0 <= i < |out| ensures RelForm(out[i]) == Some(out[i]) {
      var r :| r in rels && IsRel(r) && RelForm(r) == Some(out[i]);
      RelFormKeeps(r);
    }
    AcceptedFixed(RelForm, out);
    ByKeyTotal(RelKey(str));
    SortSorts(ByKey(RelKey(str)), out);
  }

  /** Lists of nodes and relationships put under their keys. */
  function WithLists(fields: Fields, nodes: seq<Json>, rels: seq<Json>): Fields {
    Set(Set(fields, "nodes", JList(nodes)), "relationships", JList(rels))
  }

  lemma WithListsHolds(fields: Fields, nodes: seq<Json>, rels: seq<Json>)
    ensures var out := WithLists(fields, nodes, rels);
            && out != [] && HasKey(out, "nodes") && HasKey(out, "relationships")
            && Iterate(Get(out, "nodes", JNull)) == Ok(nodes) && Iterate(Get(out, "relationships", JNull)) == Ok(rels)
  {
    var n, r := JList(nodes), JList(rels);
    var one := Set(fields, "nodes", n);
    FieldNames();
    GetAfterSet(fields, "nodes", n, "nodes", JNull);
    GetAfterSet(one, "relationships", r, "nodes", JNull);
    GetAfterSet(one, "relationships", r, "relationships", JNull);
    SetHasKey(fields, "nodes", n, "nodes");
    SetHasKey(one, "relationships", r, "nodes");
    SetHasKey(one, "relationships", r, "relationships");
  }

  /** New lists take the place of the old ones. */
  lemma WithListsOver(fields: Fields, nodes: seq<Json>, rels: seq<Json>, nodes': seq<Json>, rels': seq<Json>)
    ensures WithLists(WithLists(fields, nodes, rels), nodes', rels') == WithLists(fields, nodes', rels')
  {
    FieldNames();
    var one := Set(fields, "nodes", JList(nodes));
    SetHasKey(fields, "nodes", JList(nodes), "nodes");
    SetSwap(one, "nodes", JList(nodes'), "relationships", JList(rels));
    SetOver(fields, "nodes", JList(nodes), JList(nodes'));
    SetOver(Set(one, "nodes", JList(nodes')), "relationships", JList(rels), JList(rels'));
  }

  /** On lists of nodes and relationships. */
  lemma CanonOfLists(str: Json -> string, fields: Fields, nodes: seq<Json>, rels: seq<Json>)
    ensures Canon(str, JDict(WithLists(fields, nodes, rels)))
         == if HashableIds(nodes)
            then Ok(JDict(WithLists(fields, SortNodes(str, Kept(nodes)), SortRels(str, Rels(rels)))))
            else Err(TypeError)
  {
    WithListsHolds(fields, nodes, rels);
    WithListsOver(fields, nodes, rels, SortNodes(str, Kept(nodes)), SortRels(str, Rels(rels)));
  }

  /** A second pass changes nothing, whatever the first was given. */
  lemma CanonIdempotent(str: Json -> string, graph: Json)
    requires Canon(str, graph).Ok?
    ensures Canon(str, Canon(str, graph).value) == Canon(str, graph)
  {
    if Truthy(graph) && graph.JDict? {
      var nodes := Iterate(Get(graph.fields, "nodes", JNull)).value;
      var rels := Iterate(Get(graph.fields, "relationships", JNull)).value;
      NodesFixed(str, nodes);
      RelsFixed(str, rels);
      CanonOfLists(str, graph.fields, SortNodes(str, Kept(nodes)), SortRels(str, Rels(rels)));
    }
  }

  /** The two lists come under their keys, and every other top-level key is passed
      through. */
  lemma TopLevelKeys(str: Json -> string, fields: Fields, key: string, default: Json)
    requires fields != [] && Canon(str, JDict(fields)).Ok? && Canon(str, JDict(fields)).value.JDict?
    ensures var nodes, rels := Iterate(Get(fields, "nodes", JNull)), Iterate(Get(fields, "relationships", JNull));
            && nodes.Ok? && rels.Ok?
            && Get(Canon(str, JDict(fields)).value.fields, key, default) ==
                 if key == "nodes" then JList(SortNodes(str, Kept(nodes.value)))
                 else if key == "relationships" then JList(SortRels(str, Rels(rels.value)))
                 else Get(fields, key, default)
  {
    var nodes := Iterate(Get(fields, "nodes", JNull)).value;
    var rels := Iterate(Get(fields, "relationships", JNull)).value;
    var outNodes, outRels := JList(SortNodes(str, Kept(nodes))), JList(SortRels(str, Rels(rels)));
    FieldNames();
    GetAfterSet(fields, "nodes", outNodes, key, default);
    GetAfterSet(Set(fields, "nodes", outNodes), "relationships", outRels, key, default);
  }

  // ---- Order of the input ------------------------------------------------------------

  /** Nodes that share an id differ in nothing that is kept, and nodes that tie in the sort
      share their id. */
  ghost predicate NodesAgree(str: Json -> string, nodes: seq<Json>) {
    && (forall a, b | a in nodes && b in nodes && NodeId(a).Some? && NodeId(a) == NodeId(b) :: NormNode(a) == NormNode(b))
    && (forall a, b | a in nodes && b in nodes && NodeId(a).Some? && NodeId(b).Some?
                      && NodeKey(str)(a) == NodeKey(str)(b) :: NodeId(a) == NodeId(b))
  }

  /** Relationships that tie in the sort differ in nothing that is kept. */
  ghost predicate RelsAgree(str: Json -> string, rels: seq<Json>) {
    forall a, b | a in rels && b in rels && IsRel(a) && IsRel(b) && RelKey(str)(a) == RelKey(str)(b) ::
      RelForm(a) == RelForm(b)
  }

  lemma KeptContains(str: Json -> string, a: seq<Json>, b: seq<Json>, x: Json)
    requires multiset(a) == multiset(b) && NodesAgree(str, a) && x in Kept(a)
    ensures x in Kept(b)
  {
    var i := FirstsCome(NodeId, NormNode, a, x);
    assert a[i] in multiset(b);
    var k: nat :| k < |b| && b[k] == a[i];
    var j := FirstExists(NodeId, b, k);
    assert b[j] in multiset(a);
    FirstsStay(NodeId, NormNode, b, j);
  }

  lemma KeptAlike(str: Json -> string, a: seq<Json>, b: seq<Json>)
    requires multiset(a) == multiset(b) && NodesAgree(str, a)
    ensures multiset(Kept(a)) == multiset(Kept(b))
  {
    forall x ensures x in a <==> x in b {
      assert x in multiset(a) <==> x in multiset(b);
    }
    forall x ensures x in Kept(a) <==> x in Kept(b) {
      if x in Kept(a) { KeptContains(str, a, b, x); }
      if x in Kept(b) { KeptContains(str, b, a, x); }
    }
    KeptDistinct(a);
    KeptDistinct(b);
    SameElements(Kept(a), Kept(b));
  }

  lemma {:induction false} GetOrDefault(fields: Fields, key: string, d: Json, e: Json)
    ensures Get(fields, key, d) == Get(fields, key, e) || (Get(fields, key, d) == d && Get(fields, key, e) == e)
  {
    if fields != [] && fields[0].0 != key { GetOrDefault(fields[1..], key, d, e); }
  }

  /** A node sorts as its normal form does. */
  lemma NodeKeyKept(str: Json -> string, n: Json)
    requires n.JDict?
    ensures NodeKey(str)(NormNode(n)) == NodeKey(str)(n)
  {
    NormNodeKeeps(n);
    GetOrDefault(n.fields, "label", JNull, JStr(""));
    assert KeyPart(str, NormNode(n), "label") == KeyPart(str, n, "label");
    assert KeyPart(str, NormNode(n), "id") == KeyPart(str, n, "id");
  }

  /** Kept nodes with the same sort key are the same node. */
  lemma NodesDoNotTie(str: Json -> string, nodes: seq<Json>, x: Json, y: Json)
    requires NodesAgree(str, nodes) && x in Kept(nodes) && y in Kept(nodes) && NodeKey(str)(x) == NodeKey(str)(y)
    ensures x == y
  {
    var i := FirstsCome(NodeId, NormNode, nodes, x);
    var j := FirstsCome(NodeId, NormNode, nodes, y);
    NodeKeyKept(str, nodes[i]);
    NodeKeyKept(str, nodes[j]);
    assert NodeId(nodes[i]) == NodeId(nodes[j]);
  }

  lemma NodesSortedAlike(str: Json -> string, a: seq<Json>, b: seq<Json>)
    requires multiset(a) == multiset(b) && NodesAgree(str, a)
    ensures SortNodes(str, Kept(a)) == SortNodes(str, Kept(b))
    ensures HashableIds(a) <==> HashableIds(b)
  {
    forall x ensures x in a <==> x in b {
      assert x in multiset(a) <==> x in multiset(b);
    }
    KeptAlike(str, a, b);
    ByKeyTotal(NodeKey(str));
    forall x, y | x in Kept(a) && y in Kept(a) && ByKey(NodeKey(str))(x, y) && ByKey(NodeKey(str))(y, x) ensures x == y {
      NodesDoNotTie(str, a, x, y);
    }
    SortIgnoresOrder(ByKey(NodeKey(str)), Kept(a), Kept(b));
  }

  /** A relationship sorts as its normal form does. */
  lemma RelKeyKept(str: Json -> string, r: Json)
    requires IsRel(r)
    ensures RelForm(r).Some? && RelKey(str)(RelForm(r).value) == RelKey(str)(r)
  {
    RelFormKeeps(r);
  }

  lemma RelsDoNotTie(str: Json -> string, rels: seq<Json>, x: Json, y: Json)
    requires RelsAgree(str, rels) && x in Rels(rels) && y in Rels(rels) && RelKey(str)(x) == RelKey(str)(y)
    ensures x == y
  {
    var i := AcceptedCome(RelForm, rels, x);
    var j := AcceptedCome(RelForm, rels, y);
    RelKeyKept(str, rels[i]);
    RelKeyKept(str, rels[j]);
  }

  lemma RelsSortedAlike(str: Json -> string, a: seq<Json>, b: seq<Json>)
    requires multiset(a) == multiset(b) && RelsAgree(str, a)
    ensures SortRels(str, Rels(a)) == SortRels(str, Rels(b))
  {
    AcceptedPermuted(RelForm, a, b);
    ByKeyTotal(RelKey(str));
    forall x, y | x in Rels(a) && y in Rels(a) && ByKey(RelKey(str))(x, y) && ByKey(RelKey(str))(y, x) ensures x == y {
      RelsDoNotTie(str, a, x, y);
    }
    SortIgnoresOrder(ByKey(RelKey(str)), Rels(a), Rels(b));
  }

  /** Item by item, nodes with one id and one normal form; relationships with one form. */
  ghost predicate SameNodes(a: seq<Json>, b: seq<Json>) {
    |a| == |b| && forall i | 0 <= i < |a| :: NodeId(a[i]) == NodeId(b[i]) && NormNode(a[i]) == NormNode(b[i])
  }

  ghost predicate SameRels(a: seq<Json>, b: seq<Json>) {
    |a| == |b| && forall i | 0 <= i < |a| :: RelForm(a[i]) == RelForm(b[i])
  }

  /** A dict with its fields in another order, a field that is a dict likewise. */
  ghost predicate Reordered(a: Json, b: Json, keys: set<string>) {
    && a.JDict? && b.JDict?
    && (forall k, d | k in keys :: Get(a.fields, k, d) == Get(b.fields, k, d))
    && var p, q := Get(a.fields, "properties", JNull), Get(b.fields, "properties", JNull);
       p == q || (p.JDict? && q.JDict? && multiset(p.fields) == multiset(q.fields)
                  && forall i, j | 0 <= i < j < |p.fields| :: p.fields[i].0 != p.fields[j].0)
  }

  /** The order of a node's own keys and of its properties makes no difference. */
  lemma ReorderedNode(a: Json, b: Json)
    requires Reordered(a, b, {"id", "label"})
    ensures NodeId(a) == NodeId(b) && NormNode(a) == NormNode(b)
  {
    var p, q := Get(a.fields, "properties", JNull), Get(b.fields, "properties", JNull);
    if p != q { NormPropsIgnoresOrder(p.fields, q.fields); }
  }

  lemma ReorderedRel(a: Json, b: Json)
    requires Reordered(a, b, {"source", "target", "type"})
    ensures RelForm(a) == RelForm(b)
  {
    var p, q := Get(a.fields, "properties", JNull), Get(b.fields, "properties", JNull);
    if p != q { NormPropsIgnoresOrder(p.fields, q.fields); }
  }

  lemma SameNodesAlike(a: seq<Json>, b: seq<Json>)
    requires SameNodes(a, b)
    ensures Kept(a) == Kept(b) && (HashableIds(a) <==> HashableIds(b))
  {
    FirstsPointwise(NodeId, NormNode, a, b);
    forall n | n in a ensures exists m :: m in b && NodeId(m) == NodeId(n) {
      var i :| 0 <= i < |a| && a[i] == n;
      assert b[i] in b;
    }
    forall n | n in b ensures exists m :: m in a && NodeId(m) == NodeId(n) {
      var i :| 0 <= i < |b| && b[i] == n;
      assert a[i] in a;
    }
  }

  /** Two graphs whose nodes and relationships are the same up to their order, the order of
      their fields and the order of their properties come out the same, field for field.
      `nodes2` and `rels2` are the first graph's in the second one's order. */
  lemma OrderDoesNotMatter(str: Json -> string, fields: Fields, nodes: seq<Json>, nodes2: seq<Json>, nodes': seq<Json>,
                           rels: seq<Json>, rels2: seq<Json>, rels': seq<Json>)
    requires multiset(nodes) == multiset(nodes2) && SameNodes(nodes2, nodes') && NodesAgree(str, nodes)
    requires multiset(rels) == multiset(rels2) && SameRels(rels2, rels') && RelsAgree(str, rels)
    ensures Canon(str, JDict(WithLists(fields, nodes, rels))) == Canon(str, JDict(WithLists(fields, nodes', rels')))
  {
    NodesSortedAlike(str, nodes, nodes2);
    SameNodesAlike(nodes2, nodes');
    RelsSortedAlike(str, rels, rels2);
    AcceptedPointwise(RelForm, rels2, rels');
    CanonOfLists(str, fields, nodes, rels);
    CanonOfLists(str, fields, nodes', rels');
  }

  // ---- And when it does matter ---------------------------------------------------------

  lemma CanonTellsLists(str: Json -> string, fields: Fields, nodes: seq<Json>, nodes': seq<Json>,
                        rels: seq<Json>, rels': seq<Json>)
    requires HashableIds(nodes) && HashableIds(nodes')
    requires Canon(str, JDict(WithLists(fields, nodes, rels))) == Canon(str, JDict(WithLists(fields, nodes', rels')))
    ensures SortNodes(str, Kept(nodes)) == SortNodes(str, Kept(nodes'))
    ensures SortRels(str, Rels(rels)) == SortRels(str, Rels(rels'))
  {
    CanonOfLists(str, fields, nodes, rels);
    CanonOfLists(str, fields, nodes', rels');
    WithListsHolds(fields, SortNodes(str, Kept(nodes)), SortRels(str, Rels(rels)));
    WithListsHolds(fields, SortNodes(str, Kept(nodes')), SortRels(str, Rels(rels')));
  }

  /** Of two different nodes with one id the one in front stays. */
  lemma SameIdShows(str: Json -> string, a: Json, b: Json, rest: seq<Json>)
    requires NodeId(a).Some? && NodeId(a) == NodeId(b) && NormNode(a) != NormNode(b)
    ensures SortNodes(str, Kept([a, b] + rest)) != SortNodes(str, Kept([b, a] + rest))
  {
    var s, t := [a, b] + rest, [b, a] + rest;
    SortedNodesMean(str, s);
    SortedNodesMean(str, t);
    assert IsFirst(NodeId, s, 0) && IsFirst(NodeId, t, 0);
    var out := SortNodes(str, Kept(s));
    NormNodeKeeps(a);
    NormNodeKeeps(b);
    assert NormNode(a) in out && NormNode(b) in SortNodes(str, Kept(t));
    if NormNode(b) in out { OnePerId(NodeId, out, NormNode(a), NormNode(b)); }
  }

  /** Nodes with different ids that tie come out in the order they came in. */
  lemma NodeTieShows(str: Json -> string, a: Json, b: Json, rest: seq<Json>)
    requires NodeId(a).Some? && NodeId(b).Some? && NodeId(a) != NodeId(b) && NodeKey(str)(a) == NodeKey(str)(b)
    ensures SortNodes(str, Kept([a, b] + rest)) != SortNodes(str, Kept([b, a] + rest))
  {
    var more := FirstsInFront(NodeId, NormNode, a, b, rest);
    NormNodeKeeps(a);
    NormNodeKeeps(b);
    NodeKeyKept(str, a);
    NodeKeyKept(str, b);
    ByKeyTotal(NodeKey(str));
    TieShowsInSort(ByKey(NodeKey(str)), NormNode(a), NormNode(b), more);
  }

  lemma RelTieShows(str: Json -> string, a: Json, b: Json, rest: seq<Json>)
    requires IsRel(a) && IsRel(b) && RelKey(str)(a) == RelKey(str)(b) && RelForm(a) != RelForm(b)
    ensures SortRels(str, Rels([a, b] + rest)) != SortRels(str, Rels([b, a] + rest))
  {
    var x, y := RelForm(a).value, RelForm(b).value;
    AcceptedInFront(RelForm, a, b, rest);
    AcceptedInFront(RelForm, b, a, rest);
    RelKeyKept(str, a);
    RelKeyKept(str, b);
    ByKeyTotal(RelKey(str));
    TieShowsInSort(ByKey(RelKey(str)), x, y, Rels(rest));
  }

  /** Every reordering of nodes and relationships gives the same graph. */
  ghost predicate OrderIrrelevant(str: Json -> string, fields: Fields, nodes: seq<Json>, rels: seq<Json>) {
    forall nodes', rels' | multiset(nodes') == multiset(nodes) && multiset(rels') == multiset(rels) ::
      Canon(str, JDict(WithLists(fields, nodes', rels'))) == Canon(str, JDict(WithLists(fields, nodes, rels)))
  }

  lemma HashableReordered(a: seq<Json>, b: seq<Json>)
    requires multiset(a) == multiset(b) && HashableIds(a)
    ensures HashableIds(b)
  {
    forall x | x in b ensures x in a { assert x in multiset(a); }
  }

  lemma IrrelevantNodes(str: Json -> string, fields: Fields, nodes: seq<Json>, rels: seq<Json>, s: seq<Json>, t: seq<Json>)
    requires HashableIds(nodes) && OrderIrrelevant(str, fields, nodes, rels)
    requires multiset(s) == multiset(nodes) == multiset(t)
    ensures SortNodes(str, Kept(s)) == SortNodes(str, Kept(t))
  {
    HashableReordered(nodes, s);
    HashableReordered(nodes, t);
    CanonTellsLists(str, fields, s, nodes, rels, rels);
    CanonTellsLists(str, fields, t, nodes, rels, rels);
  }

  lemma IrrelevantRels(str: Json -> string, fields: Fields, nodes: seq<Json>, rels: seq<Json>, s: seq<Json>, t: seq<Json>)
    requires HashableIds(nodes) && OrderIrrelevant(str, fields, nodes, rels)
    requires multiset(s) == multiset(rels) == multiset(t)
    ensures SortRels(str, Rels(s)) == SortRels(str, Rels(t))
  {
    CanonTellsLists(str, fields, nodes, nodes, s, rels);
    CanonTellsLists(str, fields, nodes, nodes, t, rels);
  }

  lemma IrrelevantNodesAgree(str: Json -> string, fields: Fields, nodes: seq<Json>, rels: seq<Json>)
    requires HashableIds(nodes) && OrderIrrelevant(str, fields, nodes, rels)
    ensures NodesAgree(str, nodes)
  {
    forall a, b | a in nodes && b in nodes && NodeId(a).Some? && NodeId(a) == NodeId(b) ensures NormNode(a) == NormNode(b) {
      if NormNode(a) != NormNode(b) {
        var rest := TwoInFront(nodes, a, b);
        SameIdShows(str, a, b, rest);
        IrrelevantNodes(str, fields, nodes, rels, [a, b] + rest, [b, a] + rest);
      }
    }
    forall a, b | a in nodes && b in nodes && NodeId(a).Some? && NodeId(b).Some? && NodeKey(str)(a) == NodeKey(str)(b)
      ensures NodeId(a) == NodeId(b)
    {
      if NodeId(a) != NodeId(b) {
        var rest := TwoInFront(nodes, a, b);
        NodeTieShows(str, a, b, rest);
        IrrelevantNodes(str, fields, nodes, rels, [a, b] + rest, [b, a] + rest);
      }
    }
  }

  lemma IrrelevantRelsAgree(str: Json -> string, fields: Fields, nodes: seq<Json>, rels: seq<Json>)
    requires HashableIds(nodes) && OrderIrrelevant(str, fields, nodes, rels)
    ensures RelsAgree(str, rels)
  {
    forall a, b | a in rels && b in rels && IsRel(a) && IsRel(b) && RelKey(str)(a) == RelKey(str)(b)
      ensures RelForm(a) == RelForm(b)
    {
      if RelForm(a) != RelForm(b) {
        var rest := TwoInFront(rels, a, b);
        RelTieShows(str, a, b, rest);
        IrrelevantRels(str, fields, nodes, rels, [a, b] + rest, [b, a] + rest);
      }
    }
  }

  /** Exactly when the order of the input makes no difference: no two nodes share an id and
      differ, no two nodes with different ids tie, and no two relationships that tie
      differ. */
  lemma OrderIrrelevantExactlyWhen(str: Json -> string, fields: Fields, nodes: seq<Json>, rels: seq<Json>)
    requires HashableIds(nodes)
    ensures OrderIrrelevant(str, fields, nodes, rels) <==> NodesAgree(str, nodes) && RelsAgree(str, rels)
  {
    if OrderIrrelevant(str, fields, nodes, rels) {
      IrrelevantNodesAgree(str, fields, nodes, rels);
      IrrelevantRelsAgree(str, fields, nodes, rels);
    }
    if NodesAgree(str, nodes) && RelsAgree(str, rels) {
      forall nodes', rels' | multiset(nodes') == multiset(nodes) && multiset(rels') == multiset(rels)
        ensures Canon(str, JDict(WithLists(fields, nodes', rels'))) == Canon(str, JDict(WithLists(fields, nodes, rels)))
      {
        OrderDoesNotMatter(str, fields, nodes, nodes', nodes', rels, rels', rels');
      }
    }
  }
}
