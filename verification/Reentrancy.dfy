/** The second rule of the await gate: a map entry held while the map is mutated. */
module Reentrancy {
  import opened Prelude
  import opened ScopeLines

  // From each acquisition the scanner walks forward over the lines the guard may still live on and stops at the
  // first `drop` of the binding or the first mutation of the map.

  /**
   The leftmost acquisition on a line: receiver, binding if any, and the braces on either side of it. An
   `if let` opens the body its guard lives in; `low` is the least difference of braces over the prefixes of
   what follows the acquisition, or that body's `{`.
   */
  datatype Acquire = Acquire(recv: string, binding: Option<string>, before: int, after: int, low: int,
                             opensBody: bool)

  datatype Line = Line(
    net: int,                      // braces opened minus braces closed
    low: int,                      // the least of these differences over the line's prefixes
    acquire: Option<Acquire>,
    dropped: Option<string>,       // the first `drop(x)`
    mutated: Option<string>,       // receiver of the first mutating call
    ahead: int)                    // the least difference of braces over the prefixes in front of that call

  datatype Finding = Finding(acquireLine: nat, mutateLine: nat, recv: string)

  function Nets(lines: seq<Line>): seq<int> {
    seq(|lines|, i requires 0 <= i < |lines| => lines[i].net)
  }

  // ----- The reference definition -----------------------------------------------------------------

  /** Line i binds a guard of a known map to a name. */
  predicate Holds(lines: seq<Line>, names: set<string>, i: nat)
    requires i < |lines|
  {
    lines[i].acquire.Some? && lines[i].acquire.value.recv in names && lines[i].acquire.value.binding.Some?
  }

  /** How many scopes the scanner waits to see closed: those line i leaves open, or the one around it. */
  function Waiting(lines: seq<Line>, i: nat): int
    requires i < |lines|
  {
    if lines[i].net <= 0 then 1 else lines[i].net
  }

  /** How many scopes are left to close at the start of line m, of `count` at the end of line i. */
  function Left(lines: seq<Line>, i: nat, count: int, m: nat): int
    requires i < |lines| && m <= |lines|
  {
    count + Depth(Nets(lines), m) - Depth(Nets(lines), i + 1)
  }

  /** The guard of line i is still taken to live at the start of line j. */
  predicate InWindow(lines: seq<Line>, i: nat, j: nat)
    requires i < j <= |lines|
  {
    forall m :: i < m <= j ==> Left(lines, i, Waiting(lines, i), m) > 0
  }

  /** Line k ends the walk from line i, by a drop or by a mutation. */
  predicate Ends(lines: seq<Line>, i: nat, k: nat)
    requires i < |lines| && k < |lines| && lines[i].acquire.Some?
  {
    (lines[k].dropped.Some? && lines[k].dropped == lines[i].acquire.value.binding) ||
    lines[k].mutated == Some(lines[i].acquire.value.recv)
  }

  /** The mutation on line j is the first thing that happens to the guard of line i while it lives. */
  predicate Reenters(lines: seq<Line>, names: set<string>, i: nat, j: nat)
    requires i < j < |lines|
  {
    && Holds(lines, names, i)
    && InWindow(lines, i, j)
    && lines[j].mutated == Some(lines[i].acquire.value.recv)
    && lines[j].dropped != lines[i].acquire.value.binding
    && forall k :: i < k < j ==> !Ends(lines, i, k)
  }

  /** The findings of acquisitions among the first n lines, in order. */
  ghost predicate IsFindings(lines: seq<Line>, names: set<string>, n: nat, out: seq<Finding>)
    requires n <= |lines|
  {
    && (forall f :: f in out <==> Finds(lines, names, n, f))
    && (forall a, b :: 0 <= a < b < |out| ==> out[a].acquireLine < out[b].acquireLine)
  }

  predicate Finds(lines: seq<Line>, names: set<string>, n: nat, f: Finding)
    requires n <= |lines|
  {
    && 1 <= f.acquireLine <= n && f.acquireLine < f.mutateLine <= |lines|
    && Reenters(lines, names, f.acquireLine - 1, f.mutateLine - 1)
    && lines[f.mutateLine - 1].mutated == Some(f.recv)
  }

  // ----- The scanner ------------------------------------------------------------------------------

  /** The walk forward from one acquisition; its result is the line of the mutation, if one is met. */
  method Walk(lines: seq<Line>, names: set<string>, i: nat) returns (hit: Option<nat>)
    requires i < |lines| && Holds(lines, names, i)
    ensures hit.Some? ==> i < hit.value < |lines| && Reenters(lines, names, i, hit.value)
    ensures hit.None? ==> forall j :: i < j < |lines| ==> !Reenters(lines, names, i, j)
  {
    var depth := lines[i].net;
    if depth <= 0 {
      depth := 1;
    }
    var acquire := lines[i].acquire.value;
    var j := i + 1;
    while j < |lines| && depth > 0
      invariant i < j <= |lines|
      invariant depth == Left(lines, i, Waiting(lines, i), j)
      invariant forall m :: i < m < j ==> Left(lines, i, Waiting(lines, i), m) > 0
      invariant forall k :: i < k < j ==> !Ends(lines, i, k)
    {
      if lines[j].dropped.Some? && lines[j].dropped == acquire.binding {
        NothingBeyond(lines, names, i, j);
        return None;
      }
      if lines[j].mutated == Some(acquire.recv) {
        return Some(j);
      }
      depth := depth + lines[j].net;
      j := j + 1;
    }
    hit := None;
    forall k | i < k < |lines| ensures !Reenters(lines, names, i, k) {
      if k >= j {
        assert depth <= 0 && !InWindow(lines, i, k);
      } else {
        assert !Ends(lines, i, k);
      }
    }
  }

  /** Once the walk has ended without a mutation nothing later counts. */
  lemma NothingBeyond(lines: seq<Line>, names: set<string>, i: nat, j: nat)
    requires i < j < |lines| && Holds(lines, names, i)
    requires lines[j].dropped.Some? && lines[j].dropped == lines[i].acquire.value.binding
    requires forall k :: i < k < j ==> !Ends(lines, i, k)
    ensures forall k :: i < k < |lines| ==> !Reenters(lines, names, i, k)
  {
    forall k | i < k < |lines| ensures !Reenters(lines, names, i, k) {
      if k > j {
        assert Ends(lines, i, j);
      } else if k < j {
        assert !Ends(lines, i, k);
      }
    }
  }

  lemma ReentersOnce(lines: seq<Line>, names: set<string>, i: nat, j: nat, k: nat)
    requires i < j < |lines| && i < k < |lines|
    requires Reenters(lines, names, i, j) && Reenters(lines, names, i, k)
    ensures j == k
  {
    assert Ends(lines, i, j) && Ends(lines, i, k);
  }

  /** The scanner reports each acquisition at most once, with the mutation that first meets its live guard. */
  method ScanReentrancy(lines: seq<Line>, names: set<string>) returns (out: seq<Finding>)
    ensures IsFindings(lines, names, |lines|, out)
  {
    out := [];
    if names == {} {
      return;
    }
    for i := 0 to |lines|
      invariant IsFindings(lines, names, i, out)
    {
      ghost var before := out;
      if lines[i].acquire.Some? && lines[i].acquire.value.recv in names && lines[i].acquire.value.binding.Some? {
        var hit := Walk(lines, names, i);
        if hit.Some? {
          out := out + [Finding(i + 1, hit.value + 1, lines[i].acquire.value.recv)];
        }
        OneMoreLine(lines, names, i, before, hit, out);
      } else {
        OneMoreLine(lines, names, i, before, None, out);
      }
    }
  }

  lemma OneMoreLine(lines: seq<Line>, names: set<string>, i: nat, before: seq<Finding>, hit: Option<nat>,
                    out: seq<Finding>)
    requires i < |lines| && IsFindings(lines, names, i, before)
    requires hit.Some? ==> i < hit.value < |lines| && Reenters(lines, names, i, hit.value)
    requires hit.None? ==> forall j :: i < j < |lines| ==> !Reenters(lines, names, i, j)
    requires out == match hit
                    case None => before
                    case Some(j) => before + [Finding(i + 1, j + 1, lines[j].mutated.value)]
    ensures IsFindings(lines, names, i + 1, out)
  {
    forall f | Finds(lines, names, i + 1, f) ensures f in out {
      if f.acquireLine == i + 1 {
        if hit.Some? {
          ReentersOnce(lines, names, i, hit.value, f.mutateLine - 1);
          assert out[|before|] == f;
        }
      } else {
        assert Finds(lines, names, i, f);
      }
    }
    forall f | f in out ensures Finds(lines, names, i + 1, f) {
      assert f in before ==> Finds(lines, names, i, f);
    }
    forall a | 0 <= a < |before| ensures before[a].acquireLine <= i {
      assert Finds(lines, names, i, before[a]);
    }
  }

  /** No line strictly between the two drops the binding or mutates the map. */
  predicate Undisturbed(lines: seq<Line>, i: nat, j: nat, recv: string, binding: string)
    requires j <= |lines|
  {
    forall k :: i < k < j ==> lines[k].dropped != Some(binding) && lines[k].mutated != Some(recv)
  }

  /** Since the end of line i fewer braces have closed, on balance, than that line left open, or than one. */
  predicate FewClosed(lines: seq<Line>, i: nat, m: nat)
    requires i < |lines| && m <= |lines|
  {
    Depth(Nets(lines), i + 1) - Depth(Nets(lines), m) < if lines[i].net <= 0 then 1 else lines[i].net
  }

  lemma WindowIff(lines: seq<Line>, i: nat, j: nat)
    requires i < j <= |lines|
    ensures InWindow(lines, i, j) <==> forall m :: i < m <= j ==> FewClosed(lines, i, m)
  {
    if !InWindow(lines, i, j) {
      var m :| i < m <= j && Left(lines, i, Waiting(lines, i), m) <= 0;
      assert !FewClosed(lines, i, m);
    } else {
      forall m | i < m <= j ensures FewClosed(lines, i, m) {
        assert Left(lines, i, Waiting(lines, i), m) > 0;
      }
    }
  }

  lemma FindsIff(lines: seq<Line>, names: set<string>, i: nat, j: nat, recv: string)
    ensures Finds(lines, names, |lines|, Finding(i + 1, j + 1, recv)) <==>
            i < j < |lines| && Reenters(lines, names, i, j) && lines[j].mutated == Some(recv)
  {
  }

  /**
   What is found, in terms of the lines: line j mutates a known map that line i holds an entry of under a name,
   neither drops that name nor comes behind a line that drops it or mutates the map, and up to its start fewer
   braces have closed since line i than that line left open, or than one.
   */
  lemma FindingsIff(lines: seq<Line>, names: set<string>, out: seq<Finding>, i: nat, j: nat, recv: string)
    requires IsFindings(lines, names, |lines|, out)
    ensures Finding(i + 1, j + 1, recv) in out <==>
            && i < j < |lines| && lines[j].mutated == Some(recv) && recv in names
            && lines[i].acquire.Some? && lines[i].acquire.value.recv == recv
            && (exists binding ::
                  lines[i].acquire.value.binding == Some(binding) && lines[j].dropped != Some(binding) &&
                  Undisturbed(lines, i, j, recv, binding))
            && (forall m :: i < m <= j ==> FewClosed(lines, i, m))
  {
    var f := Finding(i + 1, j + 1, recv);
    assert f in out <==> Finds(lines, names, |lines|, f);
    FindsIff(lines, names, i, j, recv);
    if i < j < |lines| && Holds(lines, names, i) && lines[i].acquire.value.recv == recv {
      var binding := lines[i].acquire.value.binding.value;
      forall k | i < k < j
        ensures !Ends(lines, i, k) <==> lines[k].dropped != Some(binding) && lines[k].mutated != Some(recv)
      {
      }
      WindowIff(lines, i, j);
      assert Undisturbed(lines, i, j, recv, binding) <==> forall k :: i < k < j ==> !Ends(lines, i, k);
    }
  }

  // ----- Is the window the guard's scope? ---------------------------------------------------------

  /** The closing braces the guard outlives, counted from the end of its line. */
  function Lifetime(a: Acquire): int {
    if a.opensBody then a.after else a.after + 1
  }

  /** With d more braces open than at its start, line m is at depth `floor` or deeper. */
  predicate Above(lines: seq<Line>, m: nat, d: int, floor: int)
    requires m <= |lines|
  {
    Depth(Nets(lines), m) + d >= floor
  }

  /**
   The same in depths: the guard of a `let` is in scope while no brace takes the depth below that of its
   acquisition, the guard of an `if let` while the depth stays above it.
   */
  lemma ScopeInDepths(lines: seq<Line>, i: nat, j: nat)
    requires i < j <= |lines| && lines[i].acquire.Some?
    requires lines[i].net == lines[i].acquire.value.before + lines[i].acquire.value.after
    ensures var a := lines[i].acquire.value;
            var floor := Depth(Nets(lines), i) + a.before + if a.opensBody then 1 else 0;
            InScope(lines, i, j) <==>
            a.low >= 0 && (forall m :: i < m <= j ==> Above(lines, m, 0, floor)) &&
            forall m :: i < m < j ==> Above(lines, m, lines[m].low, floor)
  {
    var a := lines[i].acquire.value;
    var floor := Depth(Nets(lines), i) + a.before + if a.opensBody then 1 else 0;
    if InScope(lines, i, j) {
      forall m | i < m <= j ensures Above(lines, m, 0, floor) {
        LeftIsAbove(lines, i, m, 0);
      }
      forall m | i < m < j ensures Above(lines, m, lines[m].low, floor) {
        LeftIsAbove(lines, i, m, lines[m].low);
      }
    } else if a.low >= 0 && forall m :: i < m <= j ==> Above(lines, m, 0, floor) {
      forall m | i < m <= j ensures Left(lines, i, Lifetime(a), m) > 0 {
        LeftIsAbove(lines, i, m, 0);
      }
      var m :| i < m < j && Left(lines, i, Lifetime(a), m) + lines[m].low <= 0;
      LeftIsAbove(lines, i, m, lines[m].low);
    }
  }

  lemma LeftIsAbove(lines: seq<Line>, i: nat, m: nat, d: int)
    requires i < m <= |lines| && lines[i].acquire.Some?
    requires lines[i].net == lines[i].acquire.value.before + lines[i].acquire.value.after
    ensures var a := lines[i].acquire.value;
            Left(lines, i, Lifetime(a), m) + d > 0 <==>
            Above(lines, m, d, Depth(Nets(lines), i) + a.before + if a.opensBody then 1 else 0)
  {
  }

  /** After every brace up to the start of line j the guard of line i is still in scope. */
  predicate InScope(lines: seq<Line>, i: nat, j: nat)
    requires i < j <= |lines| && lines[i].acquire.Some?
  {
    var a := lines[i].acquire.value;
    && a.low >= 0
    && (forall m :: i < m <= j ==> Left(lines, i, Lifetime(a), m) > 0)
    && (forall m :: i < m < j ==> Left(lines, i, Lifetime(a), m) + lines[m].low > 0)
  }

  /** The line is deepest down at one of its ends. */
  predicate Tidy(l: Line) {
    l.low == if l.net < 0 then l.net else 0
  }

  function Closing(n: nat): (lines: seq<Line>)
    ensures |lines| == n && forall k :: 0 <= k < n ==> lines[k].net == -1 && Tidy(lines[k]) && lines[k].ahead == 0
  {
    if n == 0 then [] else Closing(n - 1) + [Line(-1, -1, None, None, None, 0)]
  }

  lemma {:induction false} ClosingDepth(l: Line, n: nat, m: nat)
    requires m <= n
    ensures Depth(Nets([l] + Closing(n)), m + 1) == Depth(Nets([l] + Closing(n)), 1) - m
  {
    if m > 0 {
      ClosingDepth(l, n, m - 1);
      assert ([l] + Closing(n))[m] == Closing(n)[m - 1];
    }
  }

  /** Window and scope of a line that is followed by closing lines, after k of them. */
  lemma AfterClosing(l: Line, n: nat, k: nat)
    requires l.acquire.Some? && k <= n
    ensures var lines, a := [l] + Closing(n), l.acquire.value;
            (InWindow(lines, 0, k + 1) <==> Waiting([l], 0) > k) &&
            (InScope(lines, 0, k + 1) <==> a.low >= 0 && Lifetime(a) > k)
  {
    var lines, a := [l] + Closing(n), l.acquire.value;
    var waiting, life := Waiting([l], 0), Lifetime(a);
    assert Waiting(lines, 0) == waiting;
    forall m | 0 < m <= n + 1
      ensures Left(lines, 0, waiting, m) == waiting + 1 - m && Left(lines, 0, life, m) == life + 1 - m
    {
      ClosingDepth(l, n, m - 1);
    }
    assert Left(lines, 0, waiting, k + 1) == waiting - k && Left(lines, 0, life, k + 1) == life - k;
    forall m | 0 < m < n + 1 ensures lines[m].low == -1 {
      assert lines[m] == Closing(n)[m - 1];
    }
  }

  /** The guard is in scope at the start of line j and the scanner has stopped looking. */
  predicate Misses(lines: seq<Line>, i: nat, j: nat)
    requires i < j <= |lines| && lines[i].acquire.Some?
  {
    InScope(lines, i, j) && !InWindow(lines, i, j)
  }

  /** The guard is gone at the start of line j and the scanner still looks. */
  predicate Overruns(lines: seq<Line>, i: nat, j: nat)
    requires i < j <= |lines| && lines[i].acquire.Some?
  {
    InWindow(lines, i, j) && !InScope(lines, i, j)
  }

  /**
   The scanner stops too early, for some lines that follow, exactly when the guard survives its line and
   outlives more closing braces than the line leaves waiting: a `let` behind a closing brace.
   */
  lemma MissesIff(l: Line)
    requires l.acquire.Some?
    ensures (exists rest: seq<Line>, j: nat :: 0 < j <= |rest| + 1 && Misses([l] + rest, 0, j)) <==>
            l.acquire.value.low >= 0 && Lifetime(l.acquire.value) > (if l.net <= 0 then 1 else l.net)
  {
    var a, n := l.acquire.value, Waiting([l], 0);
    forall rest: seq<Line>, j: nat | 0 < j <= |rest| + 1 && Misses([l] + rest, 0, j)
      ensures a.low >= 0 && Lifetime(a) > n
    {
      assert ([l] + rest)[0] == l;
      var m :| 0 < m <= j && Left([l] + rest, 0, n, m) <= 0;
      assert Left([l] + rest, 0, Lifetime(a), m) > 0;
    }
    if a.low >= 0 && Lifetime(a) > n {
      AfterClosing(l, n, n);
      assert Misses([l] + Closing(n), 0, n + 1);
    }
  }

  /**
   It looks too far, for some tidy lines that follow, exactly when the guard does not survive its own line or
   outlives fewer closing braces than the line leaves waiting: a `let` behind two opening braces.
   */
  lemma OverrunsIff(l: Line)
    requires l.acquire.Some?
    ensures (exists rest: seq<Line>, j: nat :: (forall k :: k in rest ==> Tidy(k)) && 0 < j <= |rest| + 1 &&
                                               Overruns([l] + rest, 0, j)) <==>
            l.acquire.value.low < 0 || Lifetime(l.acquire.value) < (if l.net <= 0 then 1 else l.net)
  {
    var a, n := l.acquire.value, Waiting([l], 0);
    forall rest: seq<Line>, j: nat | (forall k :: k in rest ==> Tidy(k)) && 0 < j <= |rest| + 1 &&
                                     Overruns([l] + rest, 0, j)
      ensures a.low < 0 || Lifetime(a) < n
    {
      if a.low >= 0 && Lifetime(a) >= n {
        TidyScopeStays(l, rest, j);
      }
    }
    if a.low < 0 || Lifetime(a) < n {
      var k: nat := if Lifetime(a) < n && Lifetime(a) > 0 then Lifetime(a) else 0;
      AfterClosing(l, k, k);
      assert Overruns([l] + Closing(k), 0, k + 1);
    }
  }

  /** Over tidy lines, line ends are enough to see that the guard is in scope. */
  lemma TidyScopeStays(l: Line, rest: seq<Line>, j: nat)
    requires l.acquire.Some? && 0 < j <= |rest| + 1 && forall k :: k in rest ==> Tidy(k)
    requires l.acquire.value.low >= 0 && Lifetime(l.acquire.value) >= Waiting([l], 0)
    ensures InWindow([l] + rest, 0, j) ==> InScope([l] + rest, 0, j)
  {
    var lines, a := [l] + rest, l.acquire.value;
    if InWindow(lines, 0, j) {
      forall m | 0 < m <= j ensures Left(lines, 0, Lifetime(a), m) > 0 {
        assert Left(lines, 0, Waiting(lines, 0), m) > 0;
      }
      forall m | 0 < m < j ensures Left(lines, 0, Lifetime(a), m) + lines[m].low > 0 {
        assert lines[m] == rest[m - 1] && lines[m] in rest;
        assert Left(lines, 0, Lifetime(a), m + 1) == Left(lines, 0, Lifetime(a), m) + lines[m].net;
        assert Left(lines, 0, Lifetime(a), m) > 0 && Left(lines, 0, Lifetime(a), m + 1) > 0;
      }
    }
  }

  /**
   So the window is the guard's scope, whatever tidy lines follow, exactly when the guard survives its line
   and outlives as many closing braces as the line leaves waiting.
   */
  lemma WindowIsScopeIff(l: Line)
    requires l.acquire.Some?
    ensures (forall rest: seq<Line>, j: nat :: (forall k :: k in rest ==> Tidy(k)) && 0 < j <= |rest| + 1 ==>
               (InWindow([l] + rest, 0, j) <==> InScope([l] + rest, 0, j))) <==>
            l.acquire.value.low >= 0 && Lifetime(l.acquire.value) == (if l.net <= 0 then 1 else l.net)
  {
    MissesIff(l);
    OverrunsIff(l);
    var a, n := l.acquire.value, Waiting([l], 0);
    if a.low >= 0 && Lifetime(a) > n {
      AfterClosing(l, n, n);
      assert Misses([l] + Closing(n), 0, n + 1);
    }
    forall rest: seq<Line>, j: nat | (forall k :: k in rest ==> Tidy(k)) && 0 < j <= |rest| + 1
      ensures (InWindow([l] + rest, 0, j) <==> InScope([l] + rest, 0, j)) <==>
              !Misses([l] + rest, 0, j) && !Overruns([l] + rest, 0, j)
    {
    }
  }

  /**
   In any file, tidy or not: such a window never ends too early, and it overruns at line j exactly when some
   line in between goes below the guard's scope and comes back.
   */
  lemma OnlyDipsOverrunIff(lines: seq<Line>, i: nat, j: nat)
    requires i < j <= |lines| && lines[i].acquire.Some?
    requires lines[i].acquire.value.low >= 0
    requires Lifetime(lines[i].acquire.value) == if lines[i].net <= 0 then 1 else lines[i].net
    ensures !Misses(lines, i, j)
    ensures Overruns(lines, i, j) <==>
            InWindow(lines, i, j) &&
            exists m :: i < m < j && Left(lines, i, Waiting(lines, i), m) + lines[m].low <= 0
  {
  }

  /** The guard of line i is still in scope in front of line j's first mutating call. */
  predicate HeldAtMutation(lines: seq<Line>, i: nat, j: nat)
    requires i < j < |lines| && lines[i].acquire.Some?
  {
    InScope(lines, i, j) && Left(lines, i, Lifetime(lines[i].acquire.value), j) + lines[j].ahead > 0
  }

  /** Its first mutating call stands in front of every closing brace that is not matched on the line. */
  predicate Orderly(l: Line) {
    Tidy(l) && l.ahead == 0
  }

  predicate MutationJudgedRight(l: Line, rest: seq<Line>, j: nat)
    requires l.acquire.Some? && 0 < j <= |rest|
  {
    InWindow([l] + rest, 0, j) <==> HeldAtMutation([l] + rest, 0, j)
  }

  /**
   At the mutating call itself: the scanner looks at it exactly when the guard is held there, whatever orderly
   lines follow, exactly when the guard survives its line and outlives as many closing braces as the line
   leaves waiting.
   */
  lemma MutationIsJudgedRightIff(l: Line)
    requires l.acquire.Some?
    ensures (forall rest: seq<Line>, j: nat :: (forall k :: k in rest ==> Orderly(k)) && 0 < j <= |rest| ==>
               MutationJudgedRight(l, rest, j)) <==>
            l.acquire.value.low >= 0 && Lifetime(l.acquire.value) == (if l.net <= 0 then 1 else l.net)
  {
    var a, n := l.acquire.value, Waiting([l], 0);
    if a.low >= 0 && Lifetime(a) == n {
      WindowIsScopeIff(l);
      forall rest: seq<Line>, j: nat | (forall k :: k in rest ==> Orderly(k)) && 0 < j <= |rest|
        ensures MutationJudgedRight(l, rest, j)
      {
        assert ([l] + rest)[j] == rest[j - 1] && rest[j - 1] in rest;
      }
    } else {
      var k: nat := if a.low < 0 then 0 else if Lifetime(a) > n then n else if Lifetime(a) > 0 then Lifetime(a) else 0;
      AfterClosing(l, k + 1, k);
      assert ([l] + Closing(k + 1))[k + 1] == Closing(k + 1)[k];
      assert !MutationJudgedRight(l, Closing(k + 1), k + 1);
    }
  }

  /**
   In any file, for such a guard: no mutation made while it is held is overlooked by the window, and one is
   looked at wrongly exactly when some line in between went below the guard's scope and came back, or the
   mutation's own line closes that scope in front of it.
   */
  lemma OnlyClosedScopesOverrunIff(lines: seq<Line>, i: nat, j: nat)
    requires i < j < |lines| && lines[i].acquire.Some?
    requires lines[i].acquire.value.low >= 0
    requires Lifetime(lines[i].acquire.value) == if lines[i].net <= 0 then 1 else lines[i].net
    ensures HeldAtMutation(lines, i, j) ==> InWindow(lines, i, j)
    ensures InWindow(lines, i, j) && !HeldAtMutation(lines, i, j) <==>
            InWindow(lines, i, j) &&
            ((exists m :: i < m < j && Left(lines, i, Waiting(lines, i), m) + lines[m].low <= 0) ||
             Left(lines, i, Waiting(lines, i), j) + lines[j].ahead <= 0)
  {
    OnlyDipsOverrunIff(lines, i, j);
  }

  /** `} else {` again: a guard of the first arm is reported at a mutation in the second. */
  lemma ElseArmIsReported()
    ensures var lines := [
              Line(1, 0, None, None, None, 0),                                             // if c {
              Line(0, 0, Some(Acquire("m", Some("g"), 0, 0, 0, false)), None, None, 0),    //   let g = m.get_mut(&k);
              Line(0, -1, None, None, None, 0),                                            // } else {
              Line(0, 0, None, None, Some("m"), 0)];                                       //   m.remove(&k);
            Reenters(lines, {"m"}, 1, 3) && Overruns(lines, 1, 3)
  {
    var lines := [
      Line(1, 0, None, None, None, 0),
      Line(0, 0, Some(Acquire("m", Some("g"), 0, 0, 0, false)), None, None, 0),
      Line(0, -1, None, None, None, 0),
      Line(0, 0, None, None, Some("m"), 0)];
    var nets := Nets(lines);
    assert Depth(nets, 0) == 0 && Depth(nets, 1) == 1 && Depth(nets, 2) == 1 && Depth(nets, 3) == 1;
    assert Left(lines, 1, 1, 2) + lines[2].low == 0;
  }
}
