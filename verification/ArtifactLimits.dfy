/** The structural limits of one JSON artifact value. */
module ArtifactLimits {
  import opened Bytes

  const MAX_DEPTH := 32
  const MAX_NODES := 8192
  const MAX_COLLECTION := 4096
  const MAX_STRING_BYTES := 262144

  /** A parsed JSON value; `keys[i]` names `values[i]`, and only values are checked. */
  datatype Json =
    | Null
    | Bool(b: bool)
    | Number(n: int)
    | Text(utf8: bytes)
    | Array(items: seq<Json>)
    | Object(keys: seq<bytes>, values: seq<Json>)

  function Children(v: Json): (c: seq<Json>)
  {
    match v
    case Array(items) => items
    case Object(_, values) => values
    case _ => []
  }

  /** The bound a node must meet whatever its position. */
  predicate NodeBounded(v: Json)
  {
    match v
    case Text(utf8) => |utf8| <= MAX_STRING_BYTES
    case Array(items) => |items| <= MAX_COLLECTION
    case Object(_, values) => |values| <= MAX_COLLECTION
    case _ => true
  }

  function Nodes(v: Json): (n: nat)
    ensures n >= 1
    decreases v, 1
  {
    match v
    case Array(items) => 1 + NodesAll(items)
    case Object(_, values) => 1 + NodesAll(values)
    case _ => 1
  }

  function NodesAll(vs: seq<Json>): nat
    decreases vs, 0
  {
    if vs == [] then 0 else Nodes(vs[0]) + NodesAll(vs[1..])
  }

  /** No node below `v`, which itself is at `depth`, is deeper than allowed. */
  predicate Shallow(v: Json, depth: nat)
    decreases v, 1
  {
    && depth <= MAX_DEPTH
    && match v
       case Array(items) => ShallowAll(items, depth + 1)
       case Object(_, values) => ShallowAll(values, depth + 1)
       case _ => true
  }

  predicate ShallowAll(vs: seq<Json>, depth: nat)
    decreases vs, 0
  {
    vs == [] || (Shallow(vs[0], depth) && ShallowAll(vs[1..], depth))
  }

  predicate Bounded(v: Json)
    decreases v, 1
  {
    && NodeBounded(v)
    && match v
       case Array(items) => BoundedAll(items)
       case Object(_, values) => BoundedAll(values)
       case _ => true
  }

  predicate BoundedAll(vs: seq<Json>)
    decreases vs, 0
  {
    vs == [] || (Bounded(vs[0]) && BoundedAll(vs[1..]))
  }

  /** The recursive reading of the limits, free of any visiting order. */
  predicate WithinLimits(v: Json)
  {
    Shallow(v, 0) && Nodes(v) <= MAX_NODES && Bounded(v)
  }

  /** `k` arrays around a null. */
  function Nest(k: nat): Json
  {
    if k == 0 then Null else Array([Nest(k - 1)])
  }

  function Nulls(m: nat): seq<Json>
  {
    seq(m, _ => Null)
  }

  lemma MoreItems(v: Json, rest: seq<Json>, depth: nat)
    ensures NodesAll([v] + rest) == Nodes(v) + NodesAll(rest)
    ensures BoundedAll([v] + rest) <==> Bounded(v) && BoundedAll(rest)
    ensures ShallowAll([v] + rest, depth) <==> Shallow(v, depth) && ShallowAll(rest, depth)
  {
    assert ([v] + rest)[1..] == rest;
  }

  lemma {:induction false} NestMeans(k: nat, depth: nat)
    ensures Nodes(Nest(k)) == k + 1 && Bounded(Nest(k)) && (Shallow(Nest(k), depth) <==> depth + k <= 32)
  {
    if k > 0 {
      NestMeans(k - 1, depth + 1);
      MoreItems(Nest(k - 1), [], depth + 1);
      assert [Nest(k - 1)] + [] == [Nest(k - 1)];
      assert Nest(k) == Array([Nest(k - 1)]);
    }
  }

  lemma {:induction false} NullsMean(m: nat, depth: nat)
    requires depth <= 32
    ensures NodesAll(Nulls(m)) == m && BoundedAll(Nulls(m)) && ShallowAll(Nulls(m), depth)
  {
    if m > 0 {
      NullsMean(m - 1, depth);
      MoreItems(Null, Nulls(m - 1), depth);
      assert Nulls(m) == [Null] + Nulls(m - 1);
    }
  }

  lemma PairMeans(v: Json)
    ensures var pair := Array([v, v]);
            WithinLimits(pair) <==> Shallow(v, 1) && Bounded(v) && 1 + 2 * Nodes(v) <= 8192
  {
    MoreItems(v, [v], 1);
    MoreItems(v, [], 1);
    assert [v] + [v] == [v, v] && [v] + [] == [v];
  }

  /** Where the limits lie: 32 levels, 4096 items, 262144 bytes of text, 8192 values in all. */
  lemma LimitsLie(k: nat, m: nat, utf8: bytes)
    ensures WithinLimits(Nest(k)) <==> k <= 32
    ensures WithinLimits(Array(Nulls(m))) <==> m <= 4096
    ensures WithinLimits(Text(utf8)) <==> |utf8| <= 262144
    ensures WithinLimits(Array([Array(Nulls(m)), Array(Nulls(m))])) <==> m <= 4094
  {
    NestMeans(k, 0);
    NullsMean(m, 1);
    NullsMean(m, 2);
    PairMeans(Array(Nulls(m)));
  }

  // A frontier of values still to be visited, each with its depth.
  type Frontier = seq<(Json, nat)>

  function FrontierNodes(f: Frontier): nat
  {
    if f == [] then 0 else Nodes(f[0].0) + FrontierNodes(f[1..])
  }

  ghost predicate FrontierFits(f: Frontier)
  {
    forall i | 0 <= i < |f| :: Shallow(f[i].0, f[i].1) && Bounded(f[i].0)
  }

  ghost predicate Accepts(f: Frontier, visited: nat)
  {
    FrontierFits(f) && visited + FrontierNodes(f) <= MAX_NODES
  }

  function Below(vs: seq<Json>, depth: nat): (f: Frontier)
    ensures |f| == |vs|
    ensures forall i | 0 <= i < |vs| :: f[i] == (vs[i], depth)
  {
    if vs == [] then [] else [(vs[0], depth)] + Below(vs[1..], depth)
  }

  lemma {:induction false} FrontierNodesConcat(a: Frontier, b: Frontier)
    ensures FrontierNodes(a + b) == FrontierNodes(a) + FrontierNodes(b)
  {
    if a == [] {
      assert a + b == b;
    } else {
      assert (a + b)[1..] == a[1..] + b;
      FrontierNodesConcat(a[1..], b);
    }
  }

  lemma {:induction false} BelowTotals(vs: seq<Json>, depth: nat)
    ensures FrontierNodes(Below(vs, depth)) == NodesAll(vs)
    ensures FrontierFits(Below(vs, depth)) <==> ShallowAll(vs, depth) && BoundedAll(vs)
  {
    if vs != [] {
      var f := Below(vs, depth);
      BelowTotals(vs[1..], depth);
      assert f[1..] == Below(vs[1..], depth);
      assert FrontierFits(f) <==> Shallow(vs[0], depth) && Bounded(vs[0]) && FrontierFits(f[1..]) by {
        assert forall i | 0 <= i < |vs| - 1 :: f[1..][i] == f[i + 1];
        assert forall i | 0 < i < |vs| :: f[i] == f[1..][i - 1];
        assert f[0] == (vs[0], depth);
      }
    }
  }

  /** The frontier after visiting entry `k`: its value leaves, its children join. */
  function Visited(f: Frontier, k: nat): Frontier
    requires k < |f|
  {
    f[..k] + f[k + 1..] + Below(Children(f[k].0), f[k].1 + 1)
  }

  lemma SingleNodes(x: (Json, nat))
    ensures FrontierNodes([x]) == 1 + NodesAll(Children(x.0))
  {
    assert [x][1..] == [];
  }

  lemma {:induction false} VisitNodes(f: Frontier, k: nat)
    requires k < |f|
    ensures FrontierNodes(Visited(f, k)) + 1 == FrontierNodes(f)
  {
    BelowTotals(Children(f[k].0), f[k].1 + 1);
    assert f == f[..k] + ([f[k]] + f[k + 1..]);
    FrontierNodesConcat(f[..k], [f[k]] + f[k + 1..]);
    FrontierNodesConcat([f[k]], f[k + 1..]);
    FrontierNodesConcat(f[..k], f[k + 1..]);
    FrontierNodesConcat(f[..k] + f[k + 1..], Below(Children(f[k].0), f[k].1 + 1));
    SingleNodes(f[k]);
  }

  lemma FitsConcat(a: Frontier, b: Frontier)
    ensures FrontierFits(a + b) <==> FrontierFits(a) && FrontierFits(b)
  {
    assert forall i | 0 <= i < |a| :: a[i] == (a + b)[i];
    assert forall i | 0 <= i < |b| :: b[i] == (a + b)[|a| + i];
  }

  lemma VisitFits(f: Frontier, k: nat)
    requires k < |f|
    ensures FrontierFits(f) <==> f[k].1 <= MAX_DEPTH && NodeBounded(f[k].0) && FrontierFits(Visited(f, k))
  {
    BelowTotals(Children(f[k].0), f[k].1 + 1);
    assert f == f[..k] + ([f[k]] + f[k + 1..]);
    FitsConcat(f[..k], [f[k]] + f[k + 1..]);
    FitsConcat([f[k]], f[k + 1..]);
    FitsConcat(f[..k], f[k + 1..]);
    FitsConcat(f[..k] + f[k + 1..], Below(Children(f[k].0), f[k].1 + 1));
    assert [f[k]][0] == f[k];
  }

  /** Visiting any pending value, wherever it stands, leaves the verdict alone. */
  lemma VisitAny(f: Frontier, visited: nat, k: nat)
    requires k < |f|
    ensures Accepts(f, visited) <==>
              f[k].1 <= MAX_DEPTH && visited + 1 <= MAX_NODES && NodeBounded(f[k].0) &&
              Accepts(Visited(f, k), visited + 1)
  {
    VisitNodes(f, k);
    VisitFits(f, k);
  }

  /** The same for the top of a stack. */
  lemma VisitTop(f: Frontier, visited: nat)
    requires f != []
    ensures var rest, (v, depth) := f[..|f| - 1], f[|f| - 1];
            && (Accepts(f, visited) <==>
                  depth <= MAX_DEPTH && visited + 1 <= MAX_NODES && NodeBounded(v)
                      && Accepts(rest + Below(Children(v), depth + 1), visited + 1))
            && FrontierNodes(rest + Below(Children(v), depth + 1)) + 1 == FrontierNodes(f)
  {
    var k := |f| - 1;
    VisitAny(f, visited, k);
    VisitNodes(f, k);
    assert f[k + 1..] == [] && f[..k] + [] == f[..k];
  }

  lemma StartAccepts(value: Json)
    ensures Accepts([(value, 0)], 0) <==> WithinLimits(value)
  {
    SingleNodes((value, 0));
    assert [(value, 0)][0] == (value, 0) && Nodes(value) == 1 + NodesAll(Children(value));
  }

  /** The explicit-stack check accepts a value exactly when the recursive limits do. */
  method CheckArtifactValue(value: Json) returns (ok: bool)
    ensures ok <==> WithinLimits(value)
  {
    var stack: Frontier := [(value, 0)];
    var nodes: nat := 0;
    StartAccepts(value);
    while stack != []
      invariant Accepts(stack, nodes) <==> WithinLimits(value)
      invariant stack == [] ==> nodes <= MAX_NODES
      decreases FrontierNodes(stack)
    {
      VisitTop(stack, nodes);
      var (current, depth) := stack[|stack| - 1];
      stack := stack[..|stack| - 1];
      nodes := nodes + 1;
      if depth > MAX_DEPTH || nodes > MAX_NODES { return false; }
      match current {
        case Text(utf8) =>
          if |utf8| > MAX_STRING_BYTES { return false; }
          assert stack + [] == stack;
        case Object(_, values) =>
          if |values| > MAX_COLLECTION { return false; }
          stack := stack + Below(values, depth + 1);
        case Array(items) =>
          if |items| > MAX_COLLECTION { return false; }
          stack := stack + Below(items, depth + 1);
        case _ =>
          assert stack + [] == stack;
      }
    }
    return true;
  }
}
