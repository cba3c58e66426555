/** JSON as `json.loads` gives it, and the order in which `json.dumps(..., sort_keys=True)`
    writes it. Floats are not modelled. */
module JsonValues {
  import opened Ordering

  /** Parsed JSON; a dict lists its fields in insertion order. */
  datatype Json =
    | JNull
    | JBool(b: bool)
    | JNum(n: int)
    | JStr(s: string)
    | JList(items: seq<Json>)
    | JDict(fields: seq<(string, Json)>)

  type Fields = seq<(string, Json)>

  /** The key order of `sorted(props.items())`; a dict has each key once. */
  function FieldOrder(): ((string, Json), (string, Json)) -> bool {
    (f: (string, Json), g: (string, Json)) => StringLe(f.0, g.0)
  }

  lemma FieldOrderTotal()
    ensures IsTotal(FieldOrder())
  {
    StringLeTotal();
  }

  // ---- sort_keys ---------------------------------------------------------------------

  function Keys(fields: Fields): set<string> {
    set i | 0 <= i < |fields| :: fields[i].0
  }

  ghost predicate KeysDiffer(fields: Fields) {
    forall i, j | 0 <= i < j < |fields| :: fields[i].0 != fields[j].0
  }

  /** Every dict in v has each key once. */
  ghost predicate IsJson(v: Json) {
    match v
    case JList(items) => forall i | 0 <= i < |items| :: IsJson(items[i])
    case JDict(fields) => KeysDiffer(fields) && forall i | 0 <= i < |fields| :: IsJson(fields[i].1)
    case _ => true
  }

  /** v with the fields of every dict in it in key order. */
  function Sorted(v: Json): Json {
    match v
    case JList(items) => JList(seq(|items|, i requires 0 <= i < |items| => Sorted(items[i])))
    case JDict(fields) => JDict(Sort(FieldOrder(), SortedFields(v)))
    case _ => v
  }

  function SortedFields(v: Json): (fields: Fields)
    requires v.JDict?
    ensures |fields| == |v.fields|
    ensures forall i | 0 <= i < |fields| :: fields[i] == (v.fields[i].0, Sorted(v.fields[i].1))
    decreases v, 0
  {
    seq(|v.fields|, i requires 0 <= i < |v.fields| => (v.fields[i].0, Sorted(v.fields[i].1)))
  }

  /** The same value but for the order of fields. */
  ghost predicate SameButOrder(v: Json, w: Json)
    decreases v, 1
  {
    match v
    case JList(items) =>
      w.JList? && |w.items| == |items| && forall i | 0 <= i < |items| :: SameButOrder(items[i], w.items[i])
    case JDict(fields) => w.JDict? && |w.fields| == |fields| && HasFieldsOf(v, w)
    case _ => w == v
  }

  ghost predicate HasFieldsOf(v: Json, w: Json)
    requires v.JDict? && w.JDict?
    decreases v, 0
  {
    && Keys(v.fields) == Keys(w.fields)
    && forall i, j | 0 <= i < |v.fields| && 0 <= j < |w.fields| && v.fields[i].0 == w.fields[j].0 ::
         SameButOrder(v.fields[i].1, w.fields[j].1)
  }

  /** Without a dict of two or more fields there is nothing to reorder. */
  predicate OrderFree(v: Json) {
    match v
    case JList(items) => forall i | 0 <= i < |items| :: OrderFree(items[i])
    case JDict(fields) => |fields| <= 1 && forall i | 0 <= i < |fields| :: OrderFree(fields[i].1)
    case _ => true
  }

  lemma SortedDict(v: Json)
    requires v.JDict?
    ensures multiset(Sorted(v).fields) == multiset(SortedFields(v))
    ensures |Sorted(v).fields| == |v.fields|
  {
    FieldOrderTotal();
    SortSorts(FieldOrder(), SortedFields(v));
    assert |multiset(Sorted(v).fields)| == |multiset(SortedFields(v))|;
  }

  lemma DistinctNeverTie(fields: Fields)
    requires KeysDiffer(fields)
    ensures NoTies(FieldOrder(), fields) && NoRepeats(fields)
  {
    StringLeTotal();
  }

  lemma SameFieldsSameSorted(v: Json, w: Json)
    requires v.JDict? && w.JDict? && KeysDiffer(v.fields)
    requires multiset(SortedFields(v)) == multiset(SortedFields(w))
    ensures Sorted(v) == Sorted(w)
  {
    FieldOrderTotal();
    DistinctNeverTie(SortedFields(v));
    SortIgnoresOrder(FieldOrder(), SortedFields(v), SortedFields(w));
  }

  /** What is in one dict is in the other. */
  lemma FieldIsShared(v: Json, w: Json, i: nat) returns (j: nat)
    requires v.JDict? && w.JDict? && Sorted(v) == Sorted(w) && i < |v.fields|
    ensures |w.fields| == |v.fields| && j < |w.fields|
    ensures w.fields[j].0 == v.fields[i].0 && Sorted(w.fields[j].1) == Sorted(v.fields[i].1)
  {
    SortedDict(v);
    SortedDict(w);
    assert SortedFields(v)[i] in multiset(SortedFields(w));
    j :| 0 <= j < |w.fields| && SortedFields(w)[j] == SortedFields(v)[i];
  }

  lemma SameSizeIncluded<T>(a: seq<T>, b: seq<T>)
    requires NoRepeats(a) && NoRepeats(b) && |a| == |b| && forall x | x in a :: x in b
    ensures multiset(a) == multiset(b)
  {
    forall x ensures multiset(a)[x] <= multiset(b)[x] {
      CountsOnce(a, x);
      CountsOnce(b, x);
    }
    assert multiset(b) == multiset(a) + (multiset(b) - multiset(a));
    assert |multiset(b)| == |multiset(a)| + |multiset(b) - multiset(a)|;
  }

  lemma CoversIsSorted(v: Json, w: Json)
    requires v.JDict? && w.JDict? && KeysDiffer(v.fields) && KeysDiffer(w.fields) && |v.fields| == |w.fields|
    requires Keys(v.fields) == Keys(w.fields)
    requires forall i, j | 0 <= i < |v.fields| && 0 <= j < |w.fields| && v.fields[i].0 == w.fields[j].0 ::
               Sorted(v.fields[i].1) == Sorted(w.fields[j].1)
    ensures Sorted(v) == Sorted(w)
  {
    var a, b := SortedFields(v), SortedFields(w);
    DistinctNeverTie(a);
    DistinctNeverTie(b);
    forall x | x in a ensures x in b {
      var i :| 0 <= i < |a| && a[i] == x;
      assert v.fields[i].0 in Keys(w.fields);
      var j :| 0 <= j < |b| && w.fields[j].0 == v.fields[i].0;
      assert b[j] == x;
    }
    SameSizeIncluded(a, b);
    SameFieldsSameSorted(v, w);
  }

  lemma KeysIncluded(v: Json, w: Json)
    requires v.JDict? && w.JDict? && Sorted(v) == Sorted(w)
    ensures |v.fields| == |w.fields| && Keys(v.fields) <= Keys(w.fields)
  {
    SortedDict(v);
    SortedDict(w);
    forall i | 0 <= i < |v.fields| ensures v.fields[i].0 in Keys(w.fields) { var j := FieldIsShared(v, w, i); }
  }

  lemma SortedShares(v: Json, w: Json)
    requires v.JDict? && w.JDict? && KeysDiffer(w.fields) && Sorted(v) == Sorted(w)
    ensures |v.fields| == |w.fields| && Keys(v.fields) == Keys(w.fields)
    ensures forall i, j | 0 <= i < |v.fields| && 0 <= j < |w.fields| && v.fields[i].0 == w.fields[j].0 ::
              Sorted(v.fields[i].1) == Sorted(w.fields[j].1)
  {
    KeysIncluded(v, w);
    KeysIncluded(w, v);
    forall i, j | 0 <= i < |v.fields| && 0 <= j < |w.fields| && v.fields[i].0 == w.fields[j].0
      ensures Sorted(v.fields[i].1) == Sorted(w.fields[j].1)
    {
      var k := FieldIsShared(v, w, i);
      assert k == j;
    }
  }

  /** The sorted forms agree exactly when the values do but for the order of fields. */
  lemma {:induction false} SortedExactlyWhen(v: Json, w: Json)
    requires IsJson(v) && IsJson(w)
    ensures Sorted(v) == Sorted(w) <==> SameButOrder(v, w)
    decreases v, 1
  {
    match v
    case JList(items) =>
      if w.JList? && |w.items| == |items| {
        forall i | 0 <= i < |items| ensures Sorted(items[i]) == Sorted(w.items[i]) <==> SameButOrder(items[i], w.items[i]) {
          SortedExactlyWhen(items[i], w.items[i]);
        }
        assert forall i | 0 <= i < |items| :: Sorted(v).items[i] == Sorted(items[i]) && Sorted(w).items[i] == Sorted(w.items[i]);
      } else if w.JList? {
        assert |Sorted(v).items| != |Sorted(w).items|;
      }
    case JDict(fields) =>
      if w.JDict? { DictSortedExactlyWhen(v, w); }
    case _ =>
  }

  lemma {:induction false} DictSortedExactlyWhen(v: Json, w: Json)
    requires IsJson(v) && IsJson(w) && v.JDict? && w.JDict?
    ensures Sorted(v) == Sorted(w) <==> |v.fields| == |w.fields| && HasFieldsOf(v, w)
    decreases v, 0
  {
    forall i, j | 0 <= i < |v.fields| && 0 <= j < |w.fields|
      ensures Sorted(v.fields[i].1) == Sorted(w.fields[j].1) <==> SameButOrder(v.fields[i].1, w.fields[j].1)
    {
      SortedExactlyWhen(v.fields[i].1, w.fields[j].1);
    }
    if Sorted(v) == Sorted(w) {
      SortedShares(v, w);
    } else if |v.fields| == |w.fields| && HasFieldsOf(v, w) {
      CoversIsSorted(v, w);
    }
  }

  /** A value with no dict of two or more fields is the only one with its sorted form ... */
  lemma {:induction false} OrderFreeFixed(v: Json, w: Json)
    requires OrderFree(v) && Sorted(v) == Sorted(w)
    ensures v == w
    decreases v, 1
  {
    match v
    case JList(items) =>
      assert |Sorted(w).items| == |w.items|;
      forall i | 0 <= i < |items| ensures items[i] == w.items[i] {
        assert Sorted(v).items[i] == Sorted(items[i]) && Sorted(w).items[i] == Sorted(w.items[i]);
        OrderFreeFixed(items[i], w.items[i]);
      }
    case JDict(fields) => OneFieldFixed(v, w);
    case _ =>
  }

  lemma {:induction false} OneFieldFixed(v: Json, w: Json)
    requires v.JDict? && w.JDict? && OrderFree(v) && Sorted(v) == Sorted(w)
    ensures v.fields == w.fields
    decreases v, 0
  {
    if v.fields != [] {
      var j := FieldIsShared(v, w, 0);
      OrderFreeFixed(v.fields[0].1, w.fields[j].1);
    } else {
      SortedDict(v);
      SortedDict(w);
    }
  }

  /** ... and every other one has a second value with the same. */
  lemma {:induction false} OtherOrder(v: Json) returns (w: Json)
    requires IsJson(v) && !OrderFree(v)
    ensures IsJson(w) && w != v && Sorted(w) == Sorted(v)
  {
    match v {
      case JList(items) =>
        var i :| 0 <= i < |items| && !OrderFree(items[i]);
        var x := OtherOrder(items[i]);
        w := JList(items[i := x]);
        assert w.items[i] != v.items[i];
        assert Sorted(w).items == Sorted(v).items;
      case JDict(fields) =>
        if |fields| >= 2 {
          w := JDict(fields[0 := fields[1]][1 := fields[0]]);
          TwoTraded(v, w);
        } else {
          var i :| 0 <= i < |fields| && !OrderFree(fields[i].1);
          var x := OtherOrder(fields[i].1);
          w := JDict(fields[i := (fields[i].0, x)]);
          assert w.fields[i] != v.fields[i];
          assert SortedFields(w) == SortedFields(v);
        }
    }
  }

  lemma TwoTraded(v: Json, w: Json)
    requires IsJson(v) && v.JDict? && |v.fields| >= 2 && w == JDict(v.fields[0 := v.fields[1]][1 := v.fields[0]])
    ensures IsJson(w) && w != v && Sorted(w) == Sorted(v)
  {
    assert v.fields[0].0 != v.fields[1].0 && w.fields[0] == v.fields[1];
    SameWhenTraded(SortedFields(v), SortedFields(w));
    SameFieldsSameSorted(v, w);
  }

  lemma SameWhenTraded<T>(a: seq<T>, b: seq<T>)
    requires |a| >= 2 && b == a[0 := a[1]][1 := a[0]]
    ensures multiset(a) == multiset(b)
  {
    assert a == [a[0], a[1]] + a[2..] && b == [a[1], a[0]] + a[2..];
  }
}
