/**
 The crate reachability ratchet: a stack search from the entry points along non-optional edges, and a
 verdict that only lets the set of unreachable crates shrink.
 */
module CrateReachability {
  import opened Graphs

  datatype Deps = Deps(always: set<Node>, optional: set<Node>)

  type Graph = map<Node, Deps>

  function Always(g: Graph): Succ {
    n => if n in g then g[n].always else {}
  }

  function AnyEdge(g: Graph): Succ {
    n => if n in g then g[n].always + g[n].optional else {}
  }

  /** Only edges between members count; a member without a manifest has none. */
  function BuildGraph(members: set<Node>, manifests: map<Node, Deps>): Graph {
    map c | c in members ::
      if c in manifests then Deps(manifests[c].always * members, manifests[c].optional * members)
      else Deps({}, {})
  }

  /** Edges keep their kind, and only those between members remain. */
  lemma EdgesKeepTheirKind(members: set<Node>, manifests: map<Node, Deps>, c: Node, d: Node)
    ensures var g := BuildGraph(members, manifests);
            && (c in g <==> c in members)
            && (d in Always(g)(c) <==> c in members && d in members && c in manifests && d in manifests[c].always)
            && (c in g && d in g[c].optional <==>
                  c in members && d in members && c in manifests && d in manifests[c].optional)
            && (d in AnyEdge(g)(c) <==> d in Always(g)(c) || (c in g && d in g[c].optional))
  {
  }

  // ----- The search -------------------------------------------------------------------------------

  /** Everything the search can ever push. */
  ghost function Universe(g: Graph, entries: seq<Node>): set<Node> {
    (set n | n in entries) + (set c, d | c in g && d in g[c].always :: d)
  }

  /** What the search knows: everything met is reached, and every edge out of a seen node is met. */
  ghost predicate Explored(succ: Succ, from: set<Node>, seen: set<Node>, stack: seq<Node>) {
    && (forall n :: n in seen || n in stack ==> Reaches(succ, from, n))
    && (forall n :: n in from ==> n in seen || n in stack)
    && (forall n, m :: n in seen && m in succ(n) ==> m in seen || m in stack)
  }

  lemma StaysInUniverse(g: Graph, entries: seq<Node>, cur: Node, next: seq<Node>)
    requires cur in Universe(g, entries) && forall n :: n in next <==> n in Always(g)(cur)
    ensures forall n :: n in next ==> n in Universe(g, entries)
  {
  }

  ghost predicate Within(stack: seq<Node>, all: set<Node>) {
    forall n :: n in stack ==> n in all
  }

  lemma StartIsExplored(succ: Succ, from: set<Node>, entries: seq<Node>)
    requires forall n :: n in from <==> n in entries
    ensures Explored(succ, from, {}, entries)
  {
    forall n | n in entries ensures Reaches(succ, from, n) {
      StartIsReached(succ, from, n);
    }
  }

  lemma NothingLeftIsReach(succ: Succ, from: set<Node>, seen: set<Node>)
    requires Explored(succ, from, seen, [])
    ensures forall n :: n in seen <==> Reaches(succ, from, n)
  {
    ClosedReachedIsReach(succ, from, seen);
  }

  lemma OneLess(all: set<Node>, seen: set<Node>, rest: seq<Node>, cur: Node)
    requires Within(rest + [cur], all) && cur !in seen
    ensures all - (seen + {cur}) < all - seen
  {
    assert cur in rest + [cur];
    assert cur in all - seen;
  }

  lemma DropSeen(succ: Succ, from: set<Node>, seen: set<Node>, stack: seq<Node>, cur: Node, all: set<Node>)
    requires Explored(succ, from, seen, stack + [cur]) && cur in seen && Within(stack + [cur], all)
    ensures Explored(succ, from, seen, stack) && Within(stack, all)
  {
    forall n | n in stack ensures n in stack + [cur] {
    }
    forall n | n in stack + [cur] ensures n in seen || n in stack {
    }
  }

  method Visit(g: Graph, ghost entries: seq<Node>, ghost from: set<Node>, ghost seen: set<Node>,
               rest: seq<Node>, cur: Node)
    returns (stack: seq<Node>)
    requires Explored(Always(g), from, seen, rest + [cur])
    requires Within(rest + [cur], Universe(g, entries))
    ensures Explored(Always(g), from, seen + {cur}, stack) && Within(stack, Universe(g, entries))
  {
    var next := ListOf(if cur in g then g[cur].always else {});
    Expand(Always(g), from, seen, rest, cur, next);
    assert cur in rest + [cur];
    StaysInUniverse(g, entries, cur, next);
    forall n | n in rest ensures n in Universe(g, entries) {
      assert n in rest + [cur];
    }
    stack := rest + next;
  }

  lemma Expand(succ: Succ, from: set<Node>, seen: set<Node>, stack: seq<Node>, cur: Node, next: seq<Node>)
    requires Explored(succ, from, seen, stack + [cur])
    requires forall n :: n in next <==> n in succ(cur)
    ensures Explored(succ, from, seen + {cur}, stack + next)
  {
    assert cur in stack + [cur];
    forall n | n in seen + {cur} || n in stack + next ensures Reaches(succ, from, n) {
      if n in next {
        SuccessorIsReached(succ, from, cur, n);
      } else if n in stack {
        assert n in stack + [cur];
      }
    }
    forall n | n in seen || n in stack + [cur] ensures n in seen + {cur} || n in stack + next {
    }
  }

  /** The stack search visits exactly the nodes some path of non-optional edges leads to. */
  method Reachable(g: Graph, entries: seq<Node>) returns (seen: set<Node>)
    ensures forall n :: n in seen <==> Reaches(Always(g), (set e | e in entries), n)
  {
    ghost var from, all, succ := (set e | e in entries), Universe(g, entries), Always(g);
    seen := {};
    var stack := entries;
    StartIsExplored(succ, from, entries);
    while stack != []
      invariant Explored(succ, from, seen, stack) && Within(stack, all)
      decreases all - seen, |stack|
    {
      var cur := stack[|stack| - 1];
      var rest := stack[..|stack| - 1];
      assert stack == rest + [cur];
      if cur in seen {
        DropSeen(succ, from, seen, rest, cur, all);
        stack := rest;
      } else {
        OneLess(all, seen, rest, cur);
        stack := Visit(g, entries, from, seen, rest, cur);
        seen := seen + {cur};
      }
    }
    NothingLeftIsReach(succ, from, seen);
  }

  // ----- The verdict ------------------------------------------------------------------------------

  /** Some manifest lists d as optional. */
  predicate OptionallyReferenced(g: Graph, d: Node) {
    exists c :: c in g && d in g[c].optional
  }

  /** Members that no non-optional path reaches and that no crate lists as optional. */
  ghost function Islands(members: set<Node>, g: Graph, entries: set<Node>): set<Node> {
    set m | m in members && !Reaches(Always(g), entries, m) && !OptionallyReferenced(g, m)
  }

  ghost predicate Passes(members: set<Node>, g: Graph, freeze: set<Node>, entries: set<Node>) {
    Islands(members, g, entries) <= freeze && freeze <= members
  }

  function OptionalTargets(g: Graph): (r: set<Node>)
    ensures forall d :: d in r <==> OptionallyReferenced(g, d)
  {
    set c, d | c in g && d in g[c].optional :: d
  }

  /**
   The verdict. Reachable, gated-only and island members are three disjoint classes that cover the
   workspace, and the exit status is the ratchet's.
   */
  method Evaluate(members: set<Node>, g: Graph, freeze: set<Node>, entries: seq<Node>)
    returns (islands: set<Node>, gated: set<Node>, reach: set<Node>, unfrozen: set<Node>, repaid: set<Node>,
             status: nat)
    ensures var from := set e | e in entries;
            islands == Islands(members, g, from) &&
            (forall n :: n in reach <==> Reaches(Always(g), from, n)) &&
            (forall n :: n in gated <==> OptionallyReferenced(g, n) && n !in reach) &&
            unfrozen == islands - freeze && repaid == (freeze * members) - islands &&
            status == (if Passes(members, g, freeze, from) then 0 else 1)
    ensures forall m :: m in islands <==> m in members && m !in reach && !exists c :: c in g && m in g[c].optional
    ensures forall n :: n in gated <==> n !in reach && exists c :: c in g && n in g[c].optional
    ensures status == 0 <==> (forall m :: m in islands ==> m in freeze) && forall m :: m in freeze ==> m in members
    ensures reach !! gated && islands !! reach + gated && members <= reach + gated + islands
  {
    reach := Reachable(g, entries);
    var entry := set e | e in entries;
    forall e | e in entry ensures e in reach {
      StartIsReached(Always(g), entry, e);
    }
    gated := OptionalTargets(g) - reach - entry;
    islands := members - reach - entry - gated;
    status, repaid, unfrozen := 0, {}, {};
    var check := islands;
    while check != {}
      invariant check <= islands
      invariant unfrozen == (islands - check) - freeze
      invariant status == (if unfrozen == {} then 0 else 1)
      decreases check
    {
      var crate :| crate in check;
      check := check - {crate};
      if crate !in freeze {
        unfrozen := unfrozen + {crate};
        status := 1;
      }
    }
    var todo := freeze;
    while todo != {}
      invariant todo <= freeze
      invariant status == (if unfrozen == {} && freeze - todo <= members then 0 else 1)
      invariant repaid == ((freeze - todo) * members) - islands
      decreases todo
    {
      var crate :| crate in todo;
      todo := todo - {crate};
      if crate !in members {
        status := 1;
        assert crate in freeze - todo;
      } else if crate !in islands {
        repaid := repaid + {crate};
      }
    }
    assert islands == Islands(members, g, entry);
  }

  /** g' has every edge of g, each of the same kind. */
  predicate MoreEdges(g: Graph, g': Graph) {
    forall c :: c in g ==> c in g' && g[c].always <= g'[c].always && g[c].optional <= g'[c].optional
  }

  /**
   The ratchet: adding dependency edges, optional or not, to any graph never creates an island and never
   turns a passing verdict into a failing one.
   */
  lemma EdgesNeverHurt(members: set<Node>, g: Graph, g': Graph, freeze: set<Node>, entries: set<Node>)
    requires MoreEdges(g, g')
    ensures Islands(members, g', entries) <= Islands(members, g, entries)
    ensures Passes(members, g, freeze, entries) ==> Passes(members, g', freeze, entries)
  {
    forall m | m in Islands(members, g', entries) ensures m in Islands(members, g, entries) {
      if Reaches(Always(g), entries, m) {
        ReachIsMonotone(Always(g), Always(g'), entries, m);
      }
    }
  }

  /** On a graph built from manifests the search never leaves the workspace. */
  lemma ReachStaysInWorkspace(members: set<Node>, manifests: map<Node, Deps>, entries: set<Node>, n: Node)
    requires Reaches(Always(BuildGraph(members, manifests)), entries, n)
    ensures n in members + entries
  {
    var g := BuildGraph(members, manifests);
    var p :| IsPathTo(Always(g), entries, p, n);
    assert Closed(Always(g), members + entries);
    PathStaysInside(Always(g), members + entries, p);
  }

  // ----- The verdict and the builds ---------------------------------------------------------------

  /** Some choice of features brings the crate into the product: edges of both kinds lead to it. */
  ghost predicate Buildable(g: Graph, entries: set<Node>, d: Node) {
    Reaches(AnyEdge(g), entries, d)
  }

  lemma AlwaysIsBuildable(g: Graph, entries: set<Node>, d: Node)
    requires Reaches(Always(g), entries, d)
    ensures Buildable(g, entries, d)
  {
    ReachIsMonotone(Always(g), AnyEdge(g), entries, d);
  }

  /** A group of crates no edge of either kind enters from outside, and that holds no entry point. */
  ghost predicate Detached(g: Graph, entries: set<Node>, group: set<Node>) {
    group !! entries && forall c, d :: d in group && d in AnyEdge(g)(c) ==> c in group
  }

  /** A crate can be in no build, whatever the features, exactly when it lies in a detached group. */
  lemma NeverBuiltIff(g: Graph, entries: set<Node>, d: Node)
    ensures !Buildable(g, entries, d) <==> exists group :: d in group && Detached(g, entries, group)
  {
    if !Buildable(g, entries, d) {
      var candidates := {d} + g.Keys + (set c, e | c in g && e in g[c].always + g[c].optional :: e);
      var group := set n | n in candidates && !Buildable(g, entries, n);
      forall e | e in entries ensures e !in group {
        StartIsReached(AnyEdge(g), entries, e);
      }
      forall c, e | e in group && e in AnyEdge(g)(c) ensures c in group {
        if Buildable(g, entries, c) {
          SuccessorIsReached(AnyEdge(g), entries, c, e);
        }
      }
      assert Detached(g, entries, group);
    }
    forall group | d in group && Detached(g, entries, group) ensures !Buildable(g, entries, d) {
      forall p | IsPath(AnyEdge(g), p) && p[0] in entries ensures p[|p| - 1] != d {
        OutsideStaysOutside(g, entries, group, p);
      }
    }
  }

  lemma {:induction false} OutsideStaysOutside(g: Graph, entries: set<Node>, group: set<Node>, p: seq<Node>)
    requires Detached(g, entries, group) && IsPath(AnyEdge(g), p) && p[0] !in group
    ensures p[|p| - 1] !in group
    decreases |p|
  {
    if |p| > 1 {
      assert p[1] in AnyEdge(g)(p[0]);
      forall i | 0 <= i < |p[1..]| - 1 ensures p[1..][i + 1] in AnyEdge(g)(p[1..][i]) {
        assert p[i + 1 + 1] in AnyEdge(g)(p[i + 1]);
      }
      OutsideStaysOutside(g, entries, group, p[1..]);
    }
  }

  /**
   A member escapes the gate, being no island although no build can contain it, exactly when it lies in a
   detached group and some crate lists it as optional.
   */
  lemma EscapesIff(members: set<Node>, g: Graph, entries: set<Node>, d: Node)
    requires d in members
    ensures d !in Islands(members, g, entries) && !Buildable(g, entries, d) <==>
            OptionallyReferenced(g, d) && exists group :: d in group && Detached(g, entries, group)
  {
    NeverBuiltIff(g, entries, d);
    if Reaches(Always(g), entries, d) {
      AlwaysIsBuildable(g, entries, d);
    }
  }

  /** Some feature brings c in directly: an optional edge from a crate some build contains. */
  ghost predicate FeatureBrings(g: Graph, entries: set<Node>, c: Node) {
    exists b :: b in g && c in g[b].optional && Buildable(g, entries, b)
  }

  /**
   A member is blamed, being an island although some build contains it, exactly when it stands only behind a
   feature: some feature brings in a crate that needs it, while no optional edge names the member itself and
   the entry points do not need it.
   */
  lemma BlamedIff(members: set<Node>, g: Graph, entries: set<Node>, d: Node)
    requires d in members
    ensures d in Islands(members, g, entries) && Buildable(g, entries, d) <==>
            !Reaches(Always(g), entries, d) && !OptionallyReferenced(g, d) &&
            exists c :: FeatureBrings(g, entries, c) && Reaches(Always(g), {c}, d)
  {
    if Buildable(g, entries, d) && !Reaches(Always(g), entries, d) {
      var p :| IsPathTo(AnyEdge(g), entries, p, d);
      LastFeature(g, entries, p);
    }
    forall c | FeatureBrings(g, entries, c) && Reaches(Always(g), {c}, d) ensures Buildable(g, entries, d) {
      var b :| b in g && c in g[b].optional && Buildable(g, entries, b);
      SuccessorIsReached(AnyEdge(g), entries, b, c);
      ReachContinues(g, entries, c, d);
    }
  }

  /** What a crate that builds can contain needs, builds can contain. */
  lemma ReachContinues(g: Graph, entries: set<Node>, c: Node, d: Node)
    requires Buildable(g, entries, c) && Reaches(Always(g), {c}, d)
    ensures Buildable(g, entries, d)
  {
    var p :| IsPathTo(Always(g), {c}, p, d);
    NeedsOfBuildable(g, entries, p);
  }

  lemma {:induction false} NeedsOfBuildable(g: Graph, entries: set<Node>, p: seq<Node>)
    requires IsPath(Always(g), p) && Buildable(g, entries, p[0])
    ensures Buildable(g, entries, p[|p| - 1])
    decreases |p|
  {
    if |p| > 1 {
      PathWithoutLast(Always(g), p);
      NeedsOfBuildable(g, entries, p[..|p| - 1]);
      SuccessorIsReached(AnyEdge(g), entries, p[|p| - 2], p[|p| - 1]);
    }
  }

  lemma PathWithoutLast(succ: Succ, p: seq<Node>)
    requires IsPath(succ, p) && |p| > 1
    ensures IsPath(succ, p[..|p| - 1]) && p[|p| - 1] in succ(p[|p| - 2])
  {
    var n := |p| - 2;
    assert p[n + 1] in succ(p[n]);
  }

  /** The end of a path is needed by the entry points, or by a crate that a feature brings in. */
  lemma {:induction false} LastFeature(g: Graph, entries: set<Node>, p: seq<Node>)
    requires IsPath(AnyEdge(g), p) && p[0] in entries
    ensures Reaches(Always(g), entries, p[|p| - 1]) ||
            exists c :: FeatureBrings(g, entries, c) && Reaches(Always(g), {c}, p[|p| - 1])
    decreases |p|
  {
    var d := p[|p| - 1];
    if |p| == 1 {
      StartIsReached(Always(g), entries, d);
    } else {
      PathWithoutLast(AnyEdge(g), p);
      var q, b := p[..|p| - 1], p[|p| - 2];
      LastFeature(g, entries, q);
      if d in g[b].always {
        if Reaches(Always(g), entries, b) {
          SuccessorIsReached(Always(g), entries, b, d);
        } else {
          var c :| FeatureBrings(g, entries, c) && Reaches(Always(g), {c}, b);
          SuccessorIsReached(Always(g), {c}, b, d);
        }
      } else {
        assert IsPathTo(AnyEdge(g), entries, q, b);
        assert FeatureBrings(g, entries, d);
        StartIsReached(Always(g), {d}, d);
      }
    }
  }

  /**
   The islands are exactly the members no build can contain when, and only when, both hold: every member an
   optional edge names is in some build, and whatever a crate behind a feature needs is needed by the entry
   points too or named by an optional edge itself.
   */
  lemma IslandsAreTheUnbuiltIff(members: set<Node>, g: Graph, entries: set<Node>)
    ensures (forall d :: d in members ==> (d in Islands(members, g, entries) <==> !Buildable(g, entries, d))) <==>
            (forall d :: d in members && OptionallyReferenced(g, d) ==> Buildable(g, entries, d)) &&
            (forall c, d :: c in g && d in g[c].always && d in members && Buildable(g, entries, c) ==>
               Reaches(Always(g), entries, d) || OptionallyReferenced(g, d))
  {
    forall c, d | c in g && d in g[c].always && Buildable(g, entries, c) ensures Buildable(g, entries, d) {
      SuccessorIsReached(AnyEdge(g), entries, c, d);
    }
    forall d | Reaches(Always(g), entries, d) ensures Buildable(g, entries, d) {
      AlwaysIsBuildable(g, entries, d);
    }
    forall d | Buildable(g, entries, d) && !Reaches(Always(g), entries, d) && !OptionallyReferenced(g, d)
      ensures exists c :: c in g && d in g[c].always && Buildable(g, entries, c)
    {
      NeededByBuildable(g, entries, d);
    }
  }

  lemma NeededByBuildable(g: Graph, entries: set<Node>, d: Node)
    requires Buildable(g, entries, d) && !Reaches(Always(g), entries, d) && !OptionallyReferenced(g, d)
    ensures exists c :: c in g && d in g[c].always && Buildable(g, entries, c)
  {
    var p :| IsPathTo(AnyEdge(g), entries, p, d);
    if |p| == 1 {
      StartIsReached(Always(g), entries, d);
    } else {
      PathWithoutLast(AnyEdge(g), p);
      assert IsPathTo(AnyEdge(g), entries, p[..|p| - 1], p[|p| - 2]);
    }
  }

  /**
   "Gated" is decided by single edges: two crates that only list each other as optional pass the gate
   with an empty freeze list, although no feature can bring either into the product.
   */
  lemma MutualOptionalsEscape()
    ensures var g: Graph := map["cli" := Deps({}, {}), "a" := Deps({}, {"b"}), "b" := Deps({}, {"a"})];
            Passes({"cli", "a", "b"}, g, {}, {"cli"}) &&
            !Buildable(g, {"cli"}, "a") && !Buildable(g, {"cli"}, "b")
  {
    var g: Graph := map["cli" := Deps({}, {}), "a" := Deps({}, {"b"}), "b" := Deps({}, {"a"})];
    StartIsReached(Always(g), {"cli"}, "cli");
    assert "b" in g["a"].optional && "a" in g["b"].optional;
    assert OptionallyReferenced(g, "a") && OptionallyReferenced(g, "b");
    assert Islands({"cli", "a", "b"}, g, {"cli"}) == {};
    assert Detached(g, {"cli"}, {"a", "b"});
    NeverBuiltIff(g, {"cli"}, "a");
    NeverBuiltIff(g, {"cli"}, "b");
  }

  /** The other way round, the advice to gate a crate behind a feature blames what that crate alone needs. */
  lemma GatedNeedIsBlamed()
    ensures var g: Graph := map["cli" := Deps({}, {"a"}), "a" := Deps({"b"}, {}), "b" := Deps({}, {})];
            "b" in Islands({"cli", "a", "b"}, g, {"cli"}) && Buildable(g, {"cli"}, "b")
  {
    var g: Graph := map["cli" := Deps({}, {"a"}), "a" := Deps({"b"}, {}), "b" := Deps({}, {})];
    StartIsReached(AnyEdge(g), {"cli"}, "cli");
    SuccessorIsReached(AnyEdge(g), {"cli"}, "cli", "a");
    SuccessorIsReached(AnyEdge(g), {"cli"}, "a", "b");
    StartIsReached(Always(g), {"cli"}, "cli");
    ClosedReachedIsReach(Always(g), {"cli"}, {"cli"});
  }
}
