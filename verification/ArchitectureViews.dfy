/** The layer law of the workspace, on single edges and on whole paths. */
module ArchitectureViews {
  import opened Prelude
  import opened Graphs
  import opened Tallies

  // Responsibility bands over layer numbers, the upward-edge check, and what it says about dependency paths, cycles
  // and the matrix of edges between bands.

  datatype Edge = Edge(consumer: Node, provider: Node)

  datatype Domain = D0 | D1 | D2 | D3

  datatype Band = Band(domain: Domain, lo: int, hi: int)

  const DOMAINS: seq<Band> := [Band(D0, 0, 1), Band(D1, 2, 5), Band(D2, 6, 8), Band(D3, 9, 10)]

  function FirstBand(layer: int, bands: seq<Band>): Option<Domain> {
    if bands == [] then None
    else if bands[0].lo <= layer <= bands[0].hi then Some(bands[0].domain)
    else FirstBand(layer, bands[1..])
  }

  function DomainOf(layer: int): Option<Domain> {
    FirstBand(layer, DOMAINS)
  }

  /** The bands are disjoint, ordered, and cover exactly the layers 0 to 10: the search order does not matter. */
  lemma BandsTile(layer: int)
    ensures DomainOf(layer).Some? <==> 0 <= layer <= 10
    ensures DomainOf(layer) == Some(D0) <==> layer == 0 || layer == 1
    ensures DomainOf(layer) == Some(D1) <==> 2 <= layer <= 5
    ensures DomainOf(layer) == Some(D2) <==> 6 <= layer <= 8
    ensures DomainOf(layer) == Some(D3) <==> layer == 9 || layer == 10
    ensures forall b :: b in DOMAINS ==> (DomainOf(layer) == Some(b.domain) <==> b.lo <= layer <= b.hi)
  {
    var only3 := [Band(D3, 9, 10)];
    var from2 := [Band(D2, 6, 8)] + only3;
    var from1 := [Band(D1, 2, 5)] + from2;
    assert only3[1..] == [] && from2[1..] == only3 && from1[1..] == from2 && DOMAINS[1..] == from1;
    assert FirstBand(layer, only3) == if 9 <= layer <= 10 then Some(D3) else None;
    assert FirstBand(layer, from2) == if 6 <= layer <= 8 then Some(D2) else FirstBand(layer, only3);
    assert FirstBand(layer, from1) == if 2 <= layer <= 5 then Some(D1) else FirstBand(layer, from2);
  }

  function Rank(d: Domain): nat {
    match d
    case D0 => 0
    case D1 => 1
    case D2 => 2
    case D3 => 3
  }

  lemma BandsAreMonotone(low: int, high: int)
    requires low <= high && DomainOf(low).Some? && DomainOf(high).Some?
    ensures Rank(DomainOf(low).value) <= Rank(DomainOf(high).value)
  {
    BandsTile(low);
    BandsTile(high);
    assert DOMAINS[0] in DOMAINS && DOMAINS[1] in DOMAINS && DOMAINS[2] in DOMAINS && DOMAINS[3] in DOMAINS;
  }

  // ----- The check --------------------------------------------------------------------------------

  /** Both ends have a layer and the provider's is higher. */
  predicate Upward(e: Edge, layers: map<Node, int>) {
    e.consumer in layers && e.provider in layers && layers[e.consumer] < layers[e.provider]
  }

  method UpwardEdges(edges: set<Edge>, layers: map<Node, int>) returns (out: set<Edge>)
    ensures forall e :: e in out <==>
              e in edges && e.consumer in layers && e.provider in layers && layers[e.provider] > layers[e.consumer]
  {
    out := {};
    var rest := edges;
    while rest != {}
      invariant rest <= edges
      invariant forall e :: e in out <==> e in edges - rest && Upward(e, layers)
      decreases rest
    {
      var e :| e in rest;
      rest := rest - {e};
      if e.consumer in layers && e.provider in layers {
        if layers[e.consumer] < layers[e.provider] {
          out := out + {e};
        }
      }
    }
  }

  ghost predicate Banded(layers: map<Node, int>) {
    forall c :: c in layers ==> 0 <= layers[c] <= 10
  }

  ghost predicate NoUpwardEdge(edges: set<Edge>, layers: map<Node, int>) {
    forall e :: e in edges ==> !Upward(e, layers)
  }

  /** The band sum of the second check. */
  method BandSum(layers: map<Node, int>) returns (sum: nat)
    ensures sum == |layers| <==> forall c :: c in layers ==> 0 <= layers[c] <= 10
  {
    sum := 0;
    var rest := layers.Keys;
    ghost var inside: set<Node> := {};
    while rest != {}
      invariant rest <= layers.Keys && sum == |inside|
      invariant inside == set c | c in layers.Keys - rest && 0 <= layers[c] <= 10
      decreases rest
    {
      var c :| c in rest;
      rest := rest - {c};
      BandsTile(layers[c]);
      if DomainOf(layers[c]).Some? {
        sum := sum + 1;
        inside := inside + {c};
      }
    }
    assert inside <= layers.Keys;
    if sum == |layers| {
      SubsetOfSameSize(inside, layers.Keys);
      forall c | c in layers ensures 0 <= layers[c] <= 10 {
        assert c in inside;
      }
    } else {
      assert inside != layers.Keys;
      ghost var c :| c in layers.Keys && c !in inside;
    }
  }

  lemma {:induction false} SubsetOfSameSize(a: set<Node>, b: set<Node>)
    requires a <= b && |a| == |b|
    ensures a == b
  {
    assert |b - a| == |b| - |a|;
  }

  /** 0 exactly when every crate on disk is layered, every layer lies in a band, and no edge points up. */
  method Check(onDisk: Option<set<Node>>, layers: map<Node, int>, edges: set<Edge>) returns (rc: nat)
    ensures rc == if (onDisk.Some? ==> forall c :: c in onDisk.value ==> c in layers) &&
                     (forall c :: c in layers ==> 0 <= layers[c] <= 10) &&
                     (forall e :: e in edges && e.consumer in layers && e.provider in layers ==>
                        layers[e.provider] <= layers[e.consumer])
                  then 0 else 1
  {
    var problems := 0;
    if onDisk.Some? {
      var missing := onDisk.value - layers.Keys;
      if missing != {} {
        problems := problems + 1;
        ghost var crate :| crate in missing;
      }
      forall c | missing == {} && c in onDisk.value ensures c in layers.Keys {
        assert c !in missing;
      }
    }
    var sum := BandSum(layers);
    if sum != |layers| {
      problems := problems + 1;
    }
    var up := UpwardEdges(edges, layers);
    problems := problems + |up|;
    if up != {} {
      ghost var e :| e in up;
    } else {
      assert forall e :: e in edges ==> e !in up;
    }
    rc := if problems > 0 then 1 else 0;
  }

  // ----- The law over whole paths -----------------------------------------------------------------

  function Providers(edges: set<Edge>): Succ {
    n => set e | e in edges && e.consumer == n :: e.provider
  }

  ghost predicate Layered(p: seq<Node>, layers: map<Node, int>) {
    forall n :: n in p ==> n in layers
  }

  /** Along a dependency path of any length through layered crates the layer never rises. */
  lemma {:induction false} LayersNeverRise(edges: set<Edge>, layers: map<Node, int>, p: seq<Node>, i: nat, j: nat)
    requires NoUpwardEdge(edges, layers) && IsPath(Providers(edges), p) && Layered(p, layers) && i <= j < |p|
    ensures layers[p[i]] >= layers[p[j]]
    decreases j - i
  {
    if i < j {
      assert p[i + 1] in Providers(edges)(p[i]);
      assert !Upward(Edge(p[i], p[i + 1]), layers);
      LayersNeverRise(edges, layers, p, i + 1, j);
    }
  }

  /** Every dependency cycle through layered crates lies in one layer. */
  lemma CyclesAreFlat(edges: set<Edge>, layers: map<Node, int>, p: seq<Node>, i: nat, j: nat)
    requires NoUpwardEdge(edges, layers) && IsPath(Providers(edges), p) && Layered(p, layers)
    requires p[0] == p[|p| - 1] && i < |p| && j < |p|
    ensures layers[p[i]] == layers[p[j]]
  {
    LayersNeverRise(edges, layers, p, 0, i);
    LayersNeverRise(edges, layers, p, i, |p| - 1);
    LayersNeverRise(edges, layers, p, 0, j);
    LayersNeverRise(edges, layers, p, j, |p| - 1);
  }

  /** A rise between two layered crates along a path, whatever lies between them. */
  ghost predicate Rises(edges: set<Edge>, layers: map<Node, int>, p: seq<Node>) {
    && IsPath(Providers(edges), p)
    && p[0] in layers && p[|p| - 1] in layers && layers[p[0]] < layers[p[|p| - 1]]
  }

  /** A rise whose inner crates have no layer at all. */
  ghost predicate RisingBridge(edges: set<Edge>, layers: map<Node, int>, p: seq<Node>) {
    Rises(edges, layers, p) && |p| >= 3 && forall i :: 1 <= i < |p| - 1 ==> p[i] !in layers
  }

  /**
   The check skips edges with an unlayered end, so a path may still climb through crates without a layer.
   That is the only way: with no upward edge, some path rises exactly when some bridge of unlayered crates
   does.
   */
  lemma RisesIffBridge(edges: set<Edge>, layers: map<Node, int>)
    requires NoUpwardEdge(edges, layers)
    ensures (exists p :: Rises(edges, layers, p)) <==>
            exists p :: Rises(edges, layers, p) && |p| >= 3 && forall i :: 1 <= i < |p| - 1 ==> p[i] !in layers
  {
    if p :| Rises(edges, layers, p) {
      FindBridge(edges, layers, p);
      var q :| RisingBridge(edges, layers, q);
    }
  }

  lemma {:induction false} FindBridge(edges: set<Edge>, layers: map<Node, int>, p: seq<Node>)
    requires NoUpwardEdge(edges, layers) && Rises(edges, layers, p)
    ensures exists q :: RisingBridge(edges, layers, q)
    decreases |p|
  {
    if k :| 1 <= k < |p| - 1 && p[k] in layers {
      PathParts(Providers(edges), p, k);
      if layers[p[0]] < layers[p[k]] {
        FindBridge(edges, layers, p[..k + 1]);
      } else {
        FindBridge(edges, layers, p[k..]);
      }
    } else {
      FirstStepFalls(edges, layers, p);
      assert RisingBridge(edges, layers, p);
    }
  }

  lemma FirstStepFalls(edges: set<Edge>, layers: map<Node, int>, p: seq<Node>)
    requires NoUpwardEdge(edges, layers) && IsPath(Providers(edges), p)
    ensures |p| >= 2 && p[0] in layers && p[1] in layers ==> layers[p[0]] >= layers[p[1]]
  {
    if |p| >= 2 {
      assert p[0 + 1] in Providers(edges)(p[0]);
      assert !Upward(Edge(p[0], p[1]), layers);
    }
  }

  lemma PathParts(succ: Succ, p: seq<Node>, k: nat)
    requires IsPath(succ, p) && k < |p|
    ensures IsPath(succ, p[..k + 1]) && IsPath(succ, p[k..])
  {
    var tail := p[k..];
    forall i | 0 <= i < |tail| - 1 ensures tail[i + 1] in succ(tail[i]) {
      assert p[k + i + 1] in succ(p[k + i]);
    }
  }

  /** Without a crates directory the first check is skipped and such a bridge passes all three. */
  lemma BridgePassesTheCheck()
    ensures var edges, layers := {Edge("core", "shim"), Edge("shim", "cli")}, map["core" := 0, "cli" := 10];
            Banded(layers) && NoUpwardEdge(edges, layers) &&
            RisingBridge(edges, layers, ["core", "shim", "cli"])
  {
    var edges, layers := {Edge("core", "shim"), Edge("shim", "cli")}, map["core" := 0, "cli" := 10];
    assert Edge("core", "shim") in edges && Edge("shim", "cli") in edges;
    assert IsPath(Providers(edges), ["core", "shim", "cli"]);
  }

  /** When the crates directory holds every end of an edge, a passing check is the law for all paths. */
  lemma PassingCheckIsTheLaw(onDisk: set<Node>, layers: map<Node, int>, edges: set<Edge>, p: seq<Node>)
    requires onDisk <= layers.Keys && NoUpwardEdge(edges, layers)
    requires forall e :: e in edges ==> e.consumer in onDisk && e.provider in onDisk
    ensures !Rises(edges, layers, p)
  {
    if Rises(edges, layers, p) {
      forall n | n in p ensures n in layers {
        var i :| 0 <= i < |p| && p[i] == n;
        if i > 0 {
          assert p[(i - 1) + 1] in Providers(edges)(p[i - 1]);
        }
      }
      LayersNeverRise(edges, layers, p, 0, |p| - 1);
    }
  }

  // ----- The matrix of edges between bands --------------------------------------------------------

  /** A cell: the bands of both ends; None is the unmapped bucket. */
  datatype Cell = Cell(row: Option<Domain>, col: Option<Domain>)

  /** A crate without a layer is looked up at layer -1. */
  function LayerOr(layers: map<Node, int>, c: Node): int {
    if c in layers then layers[c] else -1
  }

  function CellOf(e: Edge, layers: map<Node, int>): Cell {
    Cell(DomainOf(LayerOr(layers, e.consumer)), DomainOf(LayerOr(layers, e.provider)))
  }

  function Cells(layers: map<Node, int>): Edge -> Cell {
    e => CellOf(e, layers)
  }

  /** An edge's cell: the bands of its two ends, an end without a layer counting as unmapped. */
  lemma CellIs(e: Edge, layers: map<Node, int>)
    ensures CellOf(e, layers) == Cell(if e.consumer in layers then DomainOf(layers[e.consumer]) else None,
                                      if e.provider in layers then DomainOf(layers[e.provider]) else None)
  {
    BandsTile(-1);
  }

  /** The matrix counts every edge in exactly one cell and holds no empty cell. */
  method DomainEdgeMatrix(edges: set<Edge>, layers: map<Node, int>) returns (mat: map<Cell, nat>)
    ensures IsTally(mat, edges, Cells(layers))
  {
    mat := map[];
    var rest := edges;
    ghost var done: set<Edge> := {};
    while rest != {}
      invariant rest + done == edges && rest !! done
      invariant IsTally(mat, done, Cells(layers))
      decreases rest
    {
      var e :| e in rest;
      CountOne(mat, done, Cells(layers), e);
      mat := Bumped(mat, CellOf(e, layers));
      rest, done := rest - {e}, done + {e};
    }
    assert done == edges;
  }

  /** No unmapped bucket appears exactly when every end of every edge has a layer from 0 to 10. */
  lemma NoUnmappedBucketIff(mat: map<Cell, nat>, edges: set<Edge>, layers: map<Node, int>)
    requires IsTally(mat, edges, Cells(layers))
    ensures (forall cell :: cell in mat ==> cell.row.Some? && cell.col.Some?) <==>
            (forall e :: e in edges ==> e.consumer in layers && 0 <= layers[e.consumer] <= 10 &&
                                        e.provider in layers && 0 <= layers[e.provider] <= 10)
  {
    forall e | e in edges
      ensures CellOf(e, layers) in mat
      ensures CellOf(e, layers).row.Some? <==> 0 <= LayerOr(layers, e.consumer) <= 10
      ensures CellOf(e, layers).col.Some? <==> 0 <= LayerOr(layers, e.provider) <= 10
    {
      BandsTile(LayerOr(layers, e.consumer));
      BandsTile(LayerOr(layers, e.provider));
    }
    forall cell | cell in mat ensures exists e :: e in edges && CellOf(e, layers) == cell {
      var e :| e in OfKind(edges, Cells(layers), cell);
    }
  }

  /** With no upward edge the matrix is triangular: no mapped cell leads from a lower band to a higher one. */
  lemma MatrixIsTriangular(mat: map<Cell, nat>, edges: set<Edge>, layers: map<Node, int>, cell: Cell)
    requires IsTally(mat, edges, Cells(layers)) && NoUpwardEdge(edges, layers)
    requires cell in mat && cell.row.Some? && cell.col.Some?
    ensures Rank(cell.row.value) >= Rank(cell.col.value)
    ensures match cell.row.value
            case D0 => cell.col == Some(D0)
            case D1 => cell.col in {Some(D0), Some(D1)}
            case D2 => cell.col != Some(D3)
            case D3 => true
  {
    var e :| e in OfKind(edges, Cells(layers), cell);
    var lc, lp := LayerOr(layers, e.consumer), LayerOr(layers, e.provider);
    BandsTile(lc);
    BandsTile(lp);
    BandsAreMonotone(lp, lc);
  }
}
