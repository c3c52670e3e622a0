/**
 The "no subscribe inside a spawned task" scanner: one pass with a stack of spawn depths, proved
 equal to a quadratic definition over pairs of lines.
 */
module SubscribeOrder {
  import opened Prelude
  import opened ScopeLines
  import opened Tokens
  import B = BlockScopes

  datatype Line = Line(
    testMarker: bool,
    tokens: seq<Token>,
    blocking: bool)          // contains spawn_blocking

  function Nets(lines: seq<Line>): seq<int> {
    seq(|lines|, i requires 0 <= i < |lines| => Net(lines[i].tokens))
  }

  predicate OpensSpawn(l: Line) {
    Spawn in l.tokens && !l.blocking
  }

  predicate Subscribes(l: Line) {
    Subscribe in l.tokens
  }

  function SpawnMarks(lines: seq<Line>): seq<bool> {
    seq(|lines|, i requires 0 <= i < |lines| => OpensSpawn(lines[i]))
  }

  // ----- The reference definition ---------------------------------------------------------------

  predicate Visible(lines: seq<Line>, includeTests: bool, i: nat)
    requires i < |lines|
  {
    includeTests || !SeenMarker(lines, i + 1)
  }

  predicate SeenMarker(lines: seq<Line>, i: nat)
    requires i <= |lines|
  {
    exists k :: 0 <= k < i && lines[k].testMarker
  }

  /** Line i lies in the region of the async spawn of line j. */
  predicate InsideSpawn(lines: seq<Line>, j: nat, i: nat)
    requires j < i < |lines|
  {
    OpensSpawn(lines[j]) && StillInside(Nets(lines), j, i)
  }

  /** Line i lies in the region of some earlier spawn. */
  predicate InsideOlder(lines: seq<Line>, i: nat)
    requires i < |lines|
  {
    exists j :: 0 <= j < i && InsideSpawn(lines, j, i)
  }

  predicate SubscribesAfterSpawn(l: Line) {
    OpensSpawn(l) && Subscribe in l.tokens[First(l.tokens, Spawn)..]
  }

  predicate Flagged(lines: seq<Line>, includeTests: bool, i: nat)
    requires i < |lines|
  {
    && Visible(lines, includeTests, i)
    && Subscribes(lines[i])
    && (InsideOlder(lines, i) || SubscribesAfterSpawn(lines[i]))
  }

  /** The flagged lines among the first n, numbered from 1. */
  ghost function Findings(lines: seq<Line>, includeTests: bool, n: nat): seq<nat>
    requires n <= |lines|
  {
    if n == 0 then []
    else if Flagged(lines, includeTests, n - 1) then Findings(lines, includeTests, n - 1) + [n]
    else Findings(lines, includeTests, n - 1)
  }

  // ----- The scanner ------------------------------------------------------------------------------

  predicate DeeperThanSome(stack: seq<int>, depth: int) {
    exists d :: d in stack && depth > d
  }

  /** After this line's push, being deeper than some entry of the stack means that some older region is open. */
  lemma InsideIffOlderOpen(lines: seq<Line>, i: nat, stack: seq<int>)
    requires i < |lines|
    requires stack == OpenRegions(Nets(lines), SpawnMarks(lines), i, i) +
                      if OpensSpawn(lines[i]) then [Depth(Nets(lines), i)] else []
    ensures DeeperThanSome(stack, Depth(Nets(lines), i)) <==> InsideOlder(lines, i)
  {
    StackIsSorted(Nets(lines), SpawnMarks(lines), i, i);
    OlderIffInside(lines, i);
    ConcatEmpty(OpenRegions(Nets(lines), SpawnMarks(lines), i, i));
    OnlyOlderCounts(OpenRegions(Nets(lines), SpawnMarks(lines), i, i), stack, Depth(Nets(lines), i));
  }

  lemma OlderIffInside(lines: seq<Line>, i: nat)
    requires i < |lines|
    ensures OpenRegions(Nets(lines), SpawnMarks(lines), i, i) != [] <==> InsideOlder(lines, i)
  {
    var nets, marks := Nets(lines), SpawnMarks(lines);
    SomethingOpenIff(nets, marks, i, i);
    if k :| 0 <= k < i && marks[k] && StillInside(nets, k, i) {
      assert InsideSpawn(lines, k, i);
    }
    if j :| 0 <= j < i && InsideSpawn(lines, j, i) {
      assert marks[j];
    }
  }

  /** The entry a line has just pushed is not below its own depth. */
  lemma OnlyOlderCounts(older: seq<int>, stack: seq<int>, depth: int)
    requires forall d :: d in older ==> d < depth
    requires stack == older || stack == older + [depth]
    ensures DeeperThanSome(stack, depth) <==> older != []
  {
    if older != [] {
      var d := older[0];
      assert d in older && d in stack && depth > d;
    } else {
      assert forall d :: d in stack ==> d == depth;
    }
  }

  /** The scanner's stack at the start of line i. */
  predicate SpawnsAt(lines: seq<Line>, i: nat, stack: seq<int>)
    requires i <= |lines|
  {
    stack == OpenRegions(Nets(lines), SpawnMarks(lines), i, i)
  }

  /** One visible line: whether it is flagged, and the stack at its end. */
  method ScanLine(lines: seq<Line>, i: nat, depth: int, before: seq<int>) returns (flagged: bool, after: seq<int>)
    requires i < |lines| && depth == Depth(Nets(lines), i)
    requires SpawnsAt(lines, i, before)
    ensures flagged <==> Flagged(lines, true, i)
    ensures SpawnsAt(lines, i + 1, after)
  {
    var l, spawnDepths := lines[i], before;
    ConcatEmpty(before);
    if OpensSpawn(l) {
      spawnDepths := spawnDepths + [depth];
    }
    InsideIffOlderOpen(lines, i, spawnDepths);
    flagged := SubscribesInside(l, depth, spawnDepths);
    PushAndRelease(Nets(lines), SpawnMarks(lines), i);
    after := Below(spawnDepths, depth + Net(l.tokens));
  }

  method SubscribesInside(l: Line, depth: int, spawnDepths: seq<int>) returns (flagged: bool)
    ensures flagged <==> Subscribes(l) &&
                         (DeeperThanSome(spawnDepths, depth) || SubscribesAfterSpawn(l))
  {
    flagged := false;
    if Subscribes(l) {
      var insideRegion := DeeperThanSome(spawnDepths, depth);
      var sameLineAfter := false;
      if Spawn in l.tokens && !l.blocking {
        sameLineAfter := Subscribe in l.tokens[First(l.tokens, Spawn)..];
      }
      flagged := insideRegion || sameLineAfter;
    }
  }

  lemma LineStep(lines: seq<Line>, i: nat)
    requires i < |lines|
    ensures SeenMarker(lines, i + 1) <==> SeenMarker(lines, i) || lines[i].testMarker
    ensures Depth(Nets(lines), i + 1) == Depth(Nets(lines), i) + Net(lines[i].tokens)
  {
  }

  ghost predicate FoundAt(lines: seq<Line>, includeTests: bool, i: nat, findings: seq<nat>)
    requires i <= |lines|
  {
    findings == Findings(lines, includeTests, i)
  }

  /** The default mode adds what the other mode would, unless a marker has been seen. */
  lemma FindingsStep(lines: seq<Line>, includeTests: bool, i: nat, before: seq<nat>, flagged: bool)
    requires i < |lines| && FoundAt(lines, includeTests, i, before)
    requires flagged <==> Visible(lines, includeTests, i) && Flagged(lines, true, i)
    ensures FoundAt(lines, includeTests, i + 1, if flagged then before + [i + 1] else before)
  {
  }

  /** The one-pass scanner flags exactly the lines of the quadratic definition, in order. */
  method ScanText(lines: seq<Line>, includeTests: bool) returns (findings: seq<nat>)
    ensures findings == Findings(lines, includeTests, |lines|)
  {
    findings := [];
    var depth, inTest := 0, false;
    var spawnDepths: seq<int> := [];
    var i := 0;
    while i < |lines|
      invariant 0 <= i <= |lines|
      invariant depth == Depth(Nets(lines), i)
      invariant inTest <==> SeenMarker(lines, i)
      invariant FoundAt(lines, includeTests, i, findings)
      invariant !inTest || includeTests ==> SpawnsAt(lines, i, spawnDepths)
    {
      var l := lines[i];
      LineStep(lines, i);
      if l.testMarker {
        inTest := true;
      }
      var flagged := false;
      if !inTest || includeTests {
        flagged, spawnDepths := ScanLine(lines, i, depth, spawnDepths);
      }
      FindingsStep(lines, includeTests, i, findings, flagged);
      if flagged {
        findings := findings + [i + 1];
      }
      depth := depth + Net(l.tokens);
      i := i + 1;
    }
  }

  lemma {:induction false} FindingsAreFlagged(lines: seq<Line>, includeTests: bool, n: nat, i: nat)
    requires n <= |lines|
    ensures i + 1 in Findings(lines, includeTests, n) <==> i < n && Flagged(lines, includeTests, i)
  {
    if n > 0 {
      FindingsAreFlagged(lines, includeTests, n - 1, i);
    }
  }

  /** Line j spawns asynchronously, and no line since ended at its depth or below. */
  predicate SpawnReaches(lines: seq<Line>, j: nat, i: nat)
    requires j < i < |lines|
  {
    Spawn in lines[j].tokens && !lines[j].blocking &&
    forall m :: j < m <= i ==> Depth(Nets(lines), m) > Depth(Nets(lines), j)
  }

  /**
   What the scanner finds, in terms of the lines: line i subscribes, no test marker precedes it unless tests are
   included, and an earlier asynchronous spawn reaches it or one stands in front of a subscribe call on the line.
   */
  lemma {:induction false} FindingsIff(lines: seq<Line>, includeTests: bool, n: nat, i: nat)
    requires n <= |lines|
    ensures i + 1 in Findings(lines, includeTests, n) <==>
            && i < n
            && (includeTests || forall k :: 0 <= k <= i ==> !lines[k].testMarker)
            && Subscribe in lines[i].tokens
            && ((exists j :: 0 <= j < i && SpawnReaches(lines, j, i)) ||
                (!lines[i].blocking && SpawnThenSubscribe(lines[i].tokens)))
  {
    FindingsAreFlagged(lines, includeTests, n, i);
    if i < n {
      assert Visible(lines, includeTests, i) <==> includeTests || forall k :: 0 <= k <= i ==> !lines[k].testMarker;
      forall j | 0 <= j < i ensures InsideSpawn(lines, j, i) <==> SpawnReaches(lines, j, i) {
      }
      SpawnThenSubscribeIff(lines[i]);
    }
  }

  predicate SpawnThenSubscribe(tokens: seq<Token>) {
    exists p, q :: 0 <= p < q < |tokens| && tokens[p] == Spawn && tokens[q] == Subscribe
  }

  lemma SpawnThenSubscribeIff(l: Line)
    ensures SubscribesAfterSpawn(l) <==> !l.blocking && SpawnThenSubscribe(l.tokens)
  {
    if Spawn in l.tokens {
      BehindFirstIff(l.tokens, First(l.tokens, Spawn));
    }
  }

  lemma BehindFirstIff(tokens: seq<Token>, first: nat)
    requires first < |tokens| && tokens[first] == Spawn && forall p :: 0 <= p < first ==> tokens[p] != Spawn
    ensures Subscribe in tokens[first..] <==> SpawnThenSubscribe(tokens)
  {
    var rest := tokens[first..];
    if Subscribe in rest {
      var k :| 0 <= k < |rest| && rest[k] == Subscribe;
      assert tokens[first + k] == Subscribe;
    }
    if SpawnThenSubscribe(tokens) {
      var p, q :| 0 <= p < q < |tokens| && tokens[p] == Spawn && tokens[q] == Subscribe;
      assert rest[q - first] == Subscribe;
    }
  }

  /** By default the findings are those in front of the first test marker; m is its line, or the number of lines. */
  lemma {:induction false} DefaultStopsAtMarker(lines: seq<Line>, m: nat, n: nat)
    requires m <= n <= |lines| && (m < |lines| ==> lines[m].testMarker)
    requires forall k :: 0 <= k < m ==> !lines[k].testMarker
    requires m == |lines| ==> n == m
    ensures Findings(lines, false, n) == Findings(lines, true, m)
    decreases n
  {
    if n > 0 {
      if n > m {
        DefaultStopsAtMarker(lines, m, n - 1);
        assert SeenMarker(lines, n);
      } else {
        UnmarkedModesAgree(lines, m);
      }
    }
  }

  lemma {:induction false} UnmarkedModesAgree(lines: seq<Line>, m: nat)
    requires m <= |lines| && forall k :: 0 <= k < m ==> !lines[k].testMarker
    ensures Findings(lines, false, m) == Findings(lines, true, m)
  {
    if m > 0 {
      UnmarkedModesAgree(lines, m - 1);
    }
  }

  // ----- One spawn's verdict ----------------------------------------------------------------------

  /** Line i is flagged on account of the spawn of line j. */
  predicate Blames(lines: seq<Line>, j: nat, i: nat)
    requires j <= i < |lines|
  {
    if i == j then SubscribesAfterSpawn(lines[j]) else Subscribes(lines[i]) && InsideSpawn(lines, j, i)
  }

  lemma {:induction false} FlaggedIff(lines: seq<Line>, includeTests: bool, i: nat)
    requires i < |lines|
    ensures Flagged(lines, includeTests, i) <==>
            Visible(lines, includeTests, i) && exists j :: 0 <= j <= i && Blames(lines, j, i)
  {
    if SubscribesAfterSpawn(lines[i]) {
      assert Blames(lines, i, i);
    }
    if j :| 0 <= j < i && Subscribes(lines[i]) && InsideSpawn(lines, j, i) {
      assert Blames(lines, j, i);
    }
  }

  /** The brace that opens a spawned closure. */
  datatype Closure = Closure(line: nat, brace: nat)

  predicate IsBrace(lines: seq<Line>, c: Closure) {
    c.line < |lines| && c.brace < |lines[c.line].tokens| && lines[c.line].tokens[c.brace] == Open
  }

  function BlockOf(lines: seq<Line>, c: Closure): B.Block
    requires IsBrace(lines, c)
  {
    var tokens := lines[c.line].tokens;
    B.Block(c.line, Net(tokens[..c.brace]), Low(tokens[c.brace + 1..]))
  }

  function Rows(lines: seq<Line>): seq<B.Row> {
    seq(|lines|, i requires 0 <= i < |lines| => B.Row(Net(lines[i].tokens), Low(lines[i].tokens)))
  }

  lemma RowsKeepNets(lines: seq<Line>)
    ensures B.Nets(Rows(lines)) == Nets(lines)
  {
  }

  /** How deep line i starts inside the closure; below 0 it starts outside. */
  function Spare(lines: seq<Line>, c: Closure, i: nat): int
    requires IsBrace(lines, c) && c.line < i <= |lines|
  {
    Depth(Nets(lines), i) - B.Inner(Rows(lines), BlockOf(lines, c))
  }

  /** Token p stands behind the brace, and nothing in between closes it. */
  predicate BehindBrace(tokens: seq<Token>, brace: nat, p: nat)
    requires p <= |tokens|
  {
    brace < p && StaysAbove(tokens[brace + 1..p], 0)
  }

  /** So the closure ends at the matching brace. */
  lemma {:induction false} ClosureEndsAtMatch(tokens: seq<Token>, brace: nat, close: nat, p: nat)
    requires brace < close < |tokens| && tokens[close] == Close && p <= |tokens|
    requires Net(tokens[brace + 1..close]) == 0 && StaysAbove(tokens[brace + 1..close], 0)
    ensures BehindBrace(tokens, brace, p) <==> brace < p <= close
  {
    if brace < p {
      var body := tokens[brace + 1..p];
      if p <= close {
        assert body == tokens[brace + 1..close][..p - brace - 1];
        PrefixStaysAbove(tokens[brace + 1..close], p - brace - 1, 0);
      } else {
        var n := close - brace;
        assert body[..n - 1] == tokens[brace + 1..close] && body[n - 1] == Close;
        NetStep(body, n - 1);
        assert Net(body[..n]) == -1;
      }
    }
  }

  /** Token p of line i stands in the closure: no brace since the opening one has closed it. */
  predicate Inside(lines: seq<Line>, c: Closure, i: nat, p: nat)
    requires IsBrace(lines, c) && c.line <= i < |lines| && p <= |lines[i].tokens|
  {
    if i == c.line then BehindBrace(lines[i].tokens, c.brace, p)
    else
      B.InBlock(Rows(lines), BlockOf(lines, c), i) && StaysAbove(lines[i].tokens[..p], -Spare(lines, c, i))
  }

  /** Some subscribe call of line i stands in the closure. */
  predicate Guilty(lines: seq<Line>, c: Closure, i: nat)
    requires IsBrace(lines, c) && c.line <= i < |lines|
  {
    exists p :: 0 <= p < |lines[i].tokens| && lines[i].tokens[p] == Subscribe && Inside(lines, c, i, p)
  }

  predicate JudgedRight(lines: seq<Line>, c: Closure, i: nat)
    requires IsBrace(lines, c) && c.line <= i < |lines|
  {
    Blames(lines, c.line, i) <==> Guilty(lines, c, i)
  }

  /** When every spawn is judged right at line i, so is the line. */
  lemma {:induction false} VerdictsAddUp(lines: seq<Line>, closures: map<nat, Closure>, i: nat)
    requires i < |lines|
    requires forall j :: j in closures ==> closures[j].line == j && IsBrace(lines, closures[j])
    requires forall j :: 0 <= j <= i ==>
               if j in closures then JudgedRight(lines, closures[j], i) else !Blames(lines, j, i)
    ensures Flagged(lines, true, i) <==> exists j :: j in closures && j <= i && Guilty(lines, closures[j], i)
  {
    FlaggedIff(lines, true, i);
    if j :| 0 <= j <= i && Blames(lines, j, i) {
      assert j in closures && Guilty(lines, closures[j], i);
    }
    if j :| j in closures && j <= i && Guilty(lines, closures[j], i) {
      assert Blames(lines, j, i);
    }
  }

  /** On a later line the first subscribe call decides: braces can only close the closure once. */
  lemma {:induction false} FirstSubscribeDecides(lines: seq<Line>, c: Closure, i: nat)
    requires IsBrace(lines, c) && c.line < i < |lines|
    ensures Guilty(lines, c, i) <==>
            Subscribes(lines[i]) && Inside(lines, c, i, First(lines[i].tokens, Subscribe))
  {
    var tokens := lines[i].tokens;
    var first := First(tokens, Subscribe);
    if p :| 0 <= p < |tokens| && tokens[p] == Subscribe && Inside(lines, c, i, p) {
      PrefixStaysAbove(tokens[..p], first, -Spare(lines, c, i));
      assert tokens[..p][..first] == tokens[..first];
    }
  }

  // ----- When a spawn is judged right ---------------------------------------------------------------

  /** Of the line's subscribe calls behind the spawn call, one stands in the closure, if there are any. */
  predicate OwnLineFits(tokens: seq<Token>, brace: nat)
    requires brace < |tokens|
  {
    Subscribe in tokens[First(tokens, Spawn)..] ==>
      exists p :: 0 <= p < |tokens| && tokens[p] == Subscribe && BehindBrace(tokens, brace, p)
  }

  /** The line is deepest down at one of its ends, and closes nothing older before its first subscribe call. */
  predicate Orderly(l: Line) {
    B.Tidy(B.Row(Net(l.tokens), Low(l.tokens))) &&
    (Subscribes(l) ==> Low(l.tokens[..First(l.tokens, Subscribe)]) == 0)
  }

  predicate RightOn(pre: seq<Line>, c: Closure, rest: seq<Line>, i: nat)
    requires c.line <= i < |pre| + |rest|
  {
    IsBrace(pre + rest, c) && JudgedRight(pre + rest, c, i)
  }

  predicate AllOrderly(rest: seq<Line>) {
    forall l :: l in rest ==> Orderly(l)
  }

  lemma {:induction false} OwnLineIff(lines: seq<Line>, c: Closure)
    requires IsBrace(lines, c) && OpensSpawn(lines[c.line])
    requires First(lines[c.line].tokens, Spawn) < c.brace
    ensures JudgedRight(lines, c, c.line) <==> OwnLineFits(lines[c.line].tokens, c.brace)
  {
    var tokens := lines[c.line].tokens;
    forall p | 0 <= p < |tokens| && tokens[p] == Subscribe && BehindBrace(tokens, c.brace, p)
      ensures Subscribe in tokens[First(tokens, Spawn)..]
    {
      assert tokens[First(tokens, Spawn)..][p - First(tokens, Spawn)] == Subscribe;
    }
    assert Guilty(lines, c, c.line) <==>
           exists p :: 0 <= p < |tokens| && tokens[p] == Subscribe && BehindBrace(tokens, c.brace, p);
  }

  /** On an orderly line starts decide: it is judged right just when region and closure agree at its start. */
  lemma {:induction false} OrderlyLineIff(lines: seq<Line>, c: Closure, i: nat)
    requires IsBrace(lines, c) && OpensSpawn(lines[c.line]) && c.line < i < |lines|
    requires Orderly(lines[i]) && Subscribes(lines[i])
    ensures JudgedRight(lines, c, i) <==>
            (InsideSpawn(lines, c.line, i) <==> B.InBlock(Rows(lines), BlockOf(lines, c), i))
  {
    FirstSubscribeDecides(lines, c, i);
    var first := lines[i].tokens[..First(lines[i].tokens, Subscribe)];
    if B.InBlock(Rows(lines), BlockOf(lines, c), i) {
      RowsKeepNets(lines);
      assert Spare(lines, c, i) >= 0;
      LowIsLeast(first, -Spare(lines, c, i));
    }
  }

  /** Region and closure hold the same lines after the spawn's own, whatever orderly lines follow. */
  predicate Covers(pre: seq<Line>, c: Closure)
    requires |pre| == c.line + 1 && IsBrace(pre, c)
  {
    if B.BlockOpen(Rows(pre), BlockOf(pre, c)) then Net(pre[c.line].tokens[..c.brace]) == 0
    else Net(pre[c.line].tokens) <= 0
  }

  lemma {:induction false} JoinedRows(pre: seq<Line>, rest: seq<Line>, c: Closure)
    requires |pre| == c.line + 1 && IsBrace(pre, c)
    ensures Rows(pre + rest) == Rows(pre) + Rows(rest) && B.Nets(Rows(pre) + Rows(rest)) == Nets(pre + rest)
    ensures IsBrace(pre + rest, c) && BlockOf(pre + rest, c) == BlockOf(pre, c)
  {
    RowsKeepNets(pre + rest);
  }

  /** Lines with the given rows that all subscribe at once. */
  function LinesOf(rows: seq<B.Row>): seq<Line> {
    seq(|rows|, i requires 0 <= i < |rows| => Line(false, [Subscribe] + Braces(rows[i].net), false))
  }

  lemma {:induction false} LinesHaveRows(rows: seq<B.Row>)
    requires forall l :: l in rows ==> B.Tidy(l)
    ensures Rows(LinesOf(rows)) == rows
    ensures forall l :: l in LinesOf(rows) ==> Orderly(l) && Subscribes(l)
  {
    forall i | 0 <= i < |rows|
      ensures Rows(LinesOf(rows))[i] == rows[i] && Orderly(LinesOf(rows)[i]) && Subscribes(LinesOf(rows)[i])
    {
      assert rows[i] in rows;
      SubscribeThenBraces(rows[i].net);
    }
  }

  lemma {:induction false} SubscribeThenBraces(net: int)
    ensures var tokens := [Subscribe] + Braces(net);
            Net(tokens) == net && Low(tokens) == (if net < 0 then net else 0) && First(tokens, Subscribe) == 0
  {
    var tokens := [Subscribe] + Braces(net);
    BracesAre(net);
    NetConcat([Subscribe], Braces(net));
    LowIsLeast(tokens, Low(Braces(net)));
    LowIsLeast(Braces(net), Low(Braces(net)));
    forall p | 0 < p <= |tokens| ensures Net(tokens[..p]) == Net(Braces(net)[..p - 1]) {
      assert tokens[..p] == [Subscribe] + Braces(net)[..p - 1];
      NetConcat([Subscribe], Braces(net)[..p - 1]);
    }
  }

  lemma {:induction false} CoversIff(pre: seq<Line>, c: Closure, rest: seq<Line>, i: nat)
    requires |pre| == c.line + 1 && IsBrace(pre, c) && OpensSpawn(pre[c.line]) && Covers(pre, c)
    requires AllOrderly(rest) && |pre| <= i < |pre| + |rest|
    ensures IsBrace(pre + rest, c) && JudgedRight(pre + rest, c, i)
  {
    var lines := pre + rest;
    JoinedRows(pre, rest, c);
    B.RegionIsBlockIff(Rows(pre), BlockOf(pre, c));
    forall r | r in Rows(rest) ensures B.Tidy(r) {
      var k :| 0 <= k < |rest| && Rows(rest)[k] == r;
      assert rest[k] in rest;
    }
    assert StillInside(B.Nets(Rows(pre) + Rows(rest)), c.line, i) <==>
           B.InBlock(Rows(pre) + Rows(rest), BlockOf(pre, c), i);
    assert lines[i] == rest[i - |pre|] && lines[i] in rest;
    if Subscribes(lines[i]) {
      OrderlyLineIff(lines, c, i);
    }
  }

  lemma {:induction false} UncoveredIsMisjudged(pre: seq<Line>, c: Closure) returns (rest: seq<Line>, i: nat)
    requires |pre| == c.line + 1 && IsBrace(pre, c) && OpensSpawn(pre[c.line]) && !Covers(pre, c)
    ensures AllOrderly(rest) && |pre| <= i < |pre| + |rest|
    ensures IsBrace(pre + rest, c) && !JudgedRight(pre + rest, c, i)
  {
    B.RegionIsBlockIff(Rows(pre), BlockOf(pre, c));
    var rows: seq<B.Row>;
    rows, i :| (forall l :: l in rows ==> B.Tidy(l)) && |pre| <= i <= |pre| + |rows| &&
               !(StillInside(B.Nets(Rows(pre) + rows), c.line, i) <==>
                 B.InBlock(Rows(pre) + rows, BlockOf(pre, c), i));
    var more := rows + [B.Row(0, 0)];
    rest := LinesOf(more);
    LinesHaveRows(more);
    JoinedRows(pre, rest, c);
    assert Rows(pre) + more == (Rows(pre) + rows) + [B.Row(0, 0)];
    B.OneMoreRow(Rows(pre) + rows, B.Row(0, 0), c.line, BlockOf(pre, c), i);
    assert (pre + rest)[i] == rest[i - |pre|] && rest[i - |pre|] in rest;
    OrderlyLineIff(pre + rest, c, i);
  }

  /**
   A spawn that opens its closure on its own line is judged right on that line and on all lines after it,
   whatever orderly lines follow, exactly when two things hold of its line: a subscribe call behind the spawn
   call, if there is any, stands in the closure; and no brace stands open or closed in front of the closure's
   own, or the closure ends there too and no brace is left open.
   */
  lemma {:induction false} SpawnIsJudgedRightIff(pre: seq<Line>, c: Closure)
    requires |pre| == c.line + 1 && IsBrace(pre, c) && OpensSpawn(pre[c.line])
    requires First(pre[c.line].tokens, Spawn) < c.brace
    ensures (forall rest, i :: AllOrderly(rest) && c.line <= i < |pre| + |rest| ==> RightOn(pre, c, rest, i)) <==>
            OwnLineFits(pre[c.line].tokens, c.brace) && Covers(pre, c)
  {
    if OwnLineFits(pre[c.line].tokens, c.brace) && Covers(pre, c) {
      forall rest, i | AllOrderly(rest) && c.line <= i < |pre| + |rest| ensures RightOn(pre, c, rest, i)
      {
        JoinedRows(pre, rest, c);
        if i == c.line {
          OwnLineIff(pre + rest, c);
        } else {
          CoversIff(pre, c, rest, i);
        }
      }
    } else if !Covers(pre, c) {
      var rest, i := UncoveredIsMisjudged(pre, c);
      assert !RightOn(pre, c, rest, i);
    } else {
      var none: seq<Line> := [];
      JoinedRows(pre, none, c);
      OwnLineIff(pre + none, c);
      assert !RightOn(pre, c, none, c.line);
    }
  }

  /**
   Whatever lines follow: a spawn whose closure opens in front of all other braces of its line misses no
   subscribe, and blames line i wrongly exactly when the region reaches it though some line in between went
   below the closure and came back, or the line closes the closure before its first subscribe call.
   */
  lemma {:induction false} OnlyClosedClosuresAreBlamedIff(lines: seq<Line>, c: Closure, i: nat)
    requires IsBrace(lines, c) && OpensSpawn(lines[c.line]) && c.line < i < |lines|
    requires Net(lines[c.line].tokens[..c.brace]) == 0 && B.InBlock(Rows(lines), BlockOf(lines, c), c.line + 1)
    ensures Guilty(lines, c, i) ==> Blames(lines, c.line, i)
    ensures Blames(lines, c.line, i) && !Guilty(lines, c, i) <==>
            Blames(lines, c.line, i) &&
            ((exists m :: c.line < m < i && Spare(lines, c, m) + Low(lines[m].tokens) < 0) ||
             Spare(lines, c, i) + Low(lines[i].tokens[..First(lines[i].tokens, Subscribe)]) < 0)
  {
    RowsKeepNets(lines);
    B.OnlyDipsAreBlamedIff(Rows(lines), BlockOf(lines, c), i);
    FirstSubscribeDecides(lines, c, i);
    LowIsLeast(lines[i].tokens[..First(lines[i].tokens, Subscribe)], -Spare(lines, c, i));
    forall m | c.line < m < i ensures Rows(lines)[m].low == Low(lines[m].tokens) {
    }
  }

  /**
   A forwarding spawn has no closure. It blames some line, for some lines that follow, exactly when a
   subscribe call stands behind it on its own line or that line leaves a brace open.
   */
  lemma {:induction false} ForwardingBlamesIff(pre: seq<Line>, j: nat)
    requires |pre| == j + 1 && OpensSpawn(pre[j])
    ensures (exists rest, i :: j <= i < |pre| + |rest| && Blames(pre + rest, j, i)) <==>
            SubscribesAfterSpawn(pre[j]) || Net(pre[j].tokens) > 0
  {
    forall rest, i | j <= i < |pre| + |rest| && Blames(pre + rest, j, i)
      ensures SubscribesAfterSpawn(pre[j]) || Net(pre[j].tokens) > 0
    {
      assert (pre + rest)[j] == pre[j];
      if i > j {
        RegionExistsIff(Nets(pre + rest), j);
        assert StillInside(Nets(pre + rest), j, i);
      }
    }
    if SubscribesAfterSpawn(pre[j]) {
      var none: seq<Line> := [];
      assert (pre + none)[j] == pre[j];
      assert Blames(pre + none, j, j);
    } else if Net(pre[j].tokens) > 0 {
      var rest := [Line(false, [Subscribe], false)];
      var lines := pre + rest;
      assert lines[j] == pre[j] && lines[j + 1] == rest[0] && rest[0].tokens[0] == Subscribe;
      assert Depth(Nets(lines), j + 1) == Depth(Nets(lines), j) + Net(pre[j].tokens);
      assert Blames(lines, j, j + 1);
    }
  }

  // ----- Inputs the gate gets wrong ------------------------------------------------------------------

  /** A subscribe inside a spawned task goes unreported when the closure opens on the next line. */
  lemma {:induction false} SplitSpawnIsMissed()
    ensures var lines := [
              Line(false, [Spawn], false),        // tokio::spawn(
              Line(false, [Open], false),         //   async move {
              Line(false, [Subscribe], false)];   //     bus.subscribe();
            Findings(lines, false, |lines|) == [] && Guilty(lines, Closure(1, 0), 2)
  {
    var lines := [Line(false, [Spawn], false), Line(false, [Open], false), Line(false, [Subscribe], false)];
    var nets := Nets(lines);
    NetsOf(lines);
    assert Depth(nets, 0) == 0 && Depth(nets, 1) == 0 && Depth(nets, 2) == 1;
    assert !StillInside(nets, 0, 2);
    OnlyLineSubscribes(lines, 2);
    InsideAt(lines, Closure(1, 0), 2);
  }

  const BEHIND_BRACE: seq<Line> := [
    Line(false, [Open], false),                      // if c {
    Line(false, [Close, Spawn, Open, Open], false),  // } tokio::spawn(async move { loop {
    Line(false, [Close], false),                     //   }
    Line(false, [Subscribe], false)]                 //   bus.subscribe();

  /** It also does behind a closing brace: the region shuts when the closure's own inner block does. */
  lemma {:induction false} SpawnBehindBraceIsMissed()
    ensures Findings(BEHIND_BRACE, false, 4) == [] && Guilty(BEHIND_BRACE, Closure(1, 2), 3)
  {
    var lines, nets := BEHIND_BRACE, Nets(BEHIND_BRACE);
    NetsOf(lines);
    assert nets == [1, 1, -1, 0];
    assert Depth(nets, 0) == 0 && Depth(nets, 1) == 1 && Depth(nets, 2) == 2 && Depth(nets, 3) == 1;
    assert !StillInside(nets, 1, 3);
    assert forall j :: 0 <= j < 3 && OpensSpawn(lines[j]) ==> j == 1;
    OnlyLineSubscribes(lines, 3);
    InsideBehindBrace();
  }

  lemma {:induction false} InsideBehindBrace()
    ensures Guilty(BEHIND_BRACE, Closure(1, 2), 3)
  {
    var rows := Rows(BEHIND_BRACE);
    BlockBehindBrace();
    NetsOf(BEHIND_BRACE);
    LowOfOne(Close);
    assert rows[2] == B.Row(-1, -1) && rows[1].net == 1;
    StillOpenAfterInner(rows);
    InsideAt(BEHIND_BRACE, Closure(1, 2), 3);
  }

  lemma {:induction false} StillOpenAfterInner(rows: seq<B.Row>)
    requires |rows| > 3 && rows[1].net == 1 && rows[2] == B.Row(-1, -1)
    ensures B.InBlock(rows, B.Block(1, -1, 0), 3)
  {
    var nets := B.Nets(rows);
    assert Depth(nets, 2) == Depth(nets, 1) + 1 && Depth(nets, 3) == Depth(nets, 2) - 1;
  }

  lemma {:induction false} BlockBehindBrace()
    ensures BlockOf(BEHIND_BRACE, Closure(1, 2)) == B.Block(1, -1, 0)
  {
    var tokens := BEHIND_BRACE[1].tokens;
    assert tokens[..2] == [Close, Spawn] && tokens[3..] == [Open];
    ShortNetIs([Close, Spawn]);
    LowOfOne(Open);
  }

  lemma {:induction false} LowOfOne(t: Token)
    ensures Low([t]) == if t == Close then -1 else 0
  {
    assert [t][..0] == [];
  }

  const CLOSING: seq<Line> := [
    Line(false, [Spawn, Open], false),        // tokio::spawn(async move {
    Line(false, [Close, Subscribe], false)]   // }); let rx = bus.subscribe();

  /** The caller's own subscribe is blamed behind the closure's closing brace. */
  lemma {:induction false} ClosingLineIsBlamed()
    ensures 2 in Findings(CLOSING, false, 2) && IsBrace(CLOSING, Closure(0, 1)) && !Guilty(CLOSING, Closure(0, 1), 1)
  {
    NetsOf(CLOSING);
    assert Nets(CLOSING) == [1, -1];
    assert Depth(Nets(CLOSING), 0) == 0 && Depth(Nets(CLOSING), 1) == 1;
    assert InsideSpawn(CLOSING, 0, 1) && CLOSING[1].tokens[1] == Subscribe;
    FindingsIff(CLOSING, false, 2, 1);
    OutsideOnClosingLine();
  }

  lemma {:induction false} OutsideOnClosingLine()
    ensures IsBrace(CLOSING, Closure(0, 1)) && !Guilty(CLOSING, Closure(0, 1), 1)
  {
    var c, open, close := Closure(0, 1), CLOSING[0].tokens[..1], CLOSING[1].tokens[..1];
    assert open == [Spawn] && close == [Close];
    ShortNetIs(open);
    ShortNetIs(close);
    ShortNetIs(CLOSING[0].tokens);
    SpareIs(CLOSING, c, 1);
    assert Depth(Nets(CLOSING), 1) == Depth(Nets(CLOSING), 0) + Net(CLOSING[0].tokens);
    ClosedFirst(CLOSING, c, 1);
  }

  lemma {:induction false} SpareIs(lines: seq<Line>, c: Closure, i: nat)
    requires IsBrace(lines, c) && c.line < i <= |lines|
    ensures Spare(lines, c, i) ==
            Depth(Nets(lines), i) - Depth(Nets(lines), c.line) - Net(lines[c.line].tokens[..c.brace]) - 1
  {
    RowsKeepNets(lines);
  }

  lemma {:induction false} ClosedFirst(lines: seq<Line>, c: Closure, i: nat)
    requires IsBrace(lines, c) && c.line < i < |lines| && |lines[i].tokens| > 0 && lines[i].tokens[0] != Subscribe
    requires Spare(lines, c, i) + Net(lines[i].tokens[..1]) < 0
    ensures !Guilty(lines, c, i)
  {
    forall p | 0 <= p < |lines[i].tokens| && lines[i].tokens[p] == Subscribe ensures !Inside(lines, c, i, p) {
      assert lines[i].tokens[..p][..1] == lines[i].tokens[..1];
    }
  }

  /** And after a forwarding spawn: on its line, or below when a brace opens in front of it. */
  lemma {:induction false} ForwardedSpawnIsBlamed()
    ensures var line := Line(false, [Spawn, Subscribe], false);  // tokio::spawn(worker(b)); let rx = bus.subscribe();
            1 in Findings([line], false, 1)
    ensures var lines := [
              Line(false, [Open, Spawn], false),      // fn start(b: B) { tokio::spawn(worker(b));
              Line(false, [Subscribe], false)];       //   let rx = bus.subscribe();
            2 in Findings(lines, false, |lines|)
  {
    var line := Line(false, [Spawn, Subscribe], false);
    assert line.tokens[First(line.tokens, Spawn)..][1] == Subscribe && line.tokens[0] == Spawn;
    FindingsIff([line], false, 1, 0);
    var lines := [Line(false, [Open, Spawn], false), Line(false, [Subscribe], false)];
    NetsOf(lines);
    assert Depth(Nets(lines), 0) == 0 && Depth(Nets(lines), 1) == 1 && lines[0].tokens[1] == Spawn;
    assert InsideSpawn(lines, 0, 1) && lines[1].tokens[0] == Subscribe;
    FindingsIff(lines, false, 2, 1);
  }

  /** The braces of short lines, one by one. */
  lemma {:induction false} NetsOf(lines: seq<Line>)
    ensures forall i :: 0 <= i < |lines| ==> Nets(lines)[i] == Net(lines[i].tokens)
    ensures forall i :: 0 <= i < |lines| && |lines[i].tokens| <= 4 ==> Net(lines[i].tokens) == ShortNet(lines[i].tokens)
  {
    forall i | 0 <= i < |lines| && |lines[i].tokens| <= 4
      ensures Net(lines[i].tokens) == ShortNet(lines[i].tokens)
    {
      ShortNetIs(lines[i].tokens);
    }
  }

  function StepAt(tokens: seq<Token>, p: nat): int {
    if p < |tokens| then Step(tokens[p]) else 0
  }

  function ShortNet(tokens: seq<Token>): int {
    StepAt(tokens, 0) + StepAt(tokens, 1) + StepAt(tokens, 2) + StepAt(tokens, 3)
  }

  lemma {:induction false} ShortNetIs(tokens: seq<Token>)
    requires |tokens| <= 4
    ensures Net(tokens) == ShortNet(tokens)
    decreases |tokens|
  {
    if tokens != [] {
      ShortNetIs(tokens[..|tokens| - 1]);
    }
  }

  lemma {:induction false} InsideAt(lines: seq<Line>, c: Closure, i: nat)
    requires IsBrace(lines, c) && c.line < i < |lines| && lines[i].tokens == [Subscribe]
    requires B.InBlock(Rows(lines), BlockOf(lines, c), i)
    ensures Guilty(lines, c, i)
  {
    RowsKeepNets(lines);
    assert lines[i].tokens[0] == Subscribe && lines[i].tokens[..0] == [] && Spare(lines, c, i) >= 0;
    assert Inside(lines, c, i, 0);
  }

  lemma {:induction false} OnlyLineSubscribes(lines: seq<Line>, s: nat)
    requires s < |lines| && forall i :: 0 <= i < |lines| && i != s ==> !Subscribes(lines[i])
    requires !OpensSpawn(lines[s]) && !InsideOlder(lines, s)
    ensures Findings(lines, false, |lines|) == []
  {
    forall i | 0 <= i < |lines| ensures !Flagged(lines, false, i) {
      if SubscribesAfterSpawn(lines[i]) {
        assert Subscribes(lines[i]);
      }
    }
    NothingFound(lines, |lines|);
  }

  lemma {:induction false} NothingFound(lines: seq<Line>, n: nat)
    requires n <= |lines| && forall i :: 0 <= i < |lines| ==> !Flagged(lines, false, i)
    ensures Findings(lines, false, n) == []
  {
    if n > 0 {
      NothingFound(lines, n - 1);
    }
  }

  // ----- The allowlist ----------------------------------------------------------------------------

  /** Findings not allowed, and allowances no finding uses. */
  method Decide<K(==)>(findings: seq<K>, allow: set<K>) returns (gap: seq<K>, stale: set<K>)
    ensures forall key :: key in gap <==> key in findings && key !in allow
    ensures forall key :: key in stale <==> key in allow && key !in findings
    ensures gap == [] && stale == {} <==> (set key | key in findings) == allow
  {
    var used: set<K> := {};
    gap := [];
    var k := 0;
    while k < |findings|
      invariant 0 <= k <= |findings|
      invariant forall key :: key in used <==> key in findings[..k] && key in allow
      invariant forall key :: key in gap <==> key in findings[..k] && key !in allow
    {
      if findings[k] in allow {
        used := used + {findings[k]};
      } else {
        gap := gap + [findings[k]];
      }
      k := k + 1;
    }
    stale := allow - used;
    if gap == [] && stale == {} {
      forall key | key in findings ensures key in allow {
        assert key !in gap;
      }
    } else if gap != [] {
      assert gap[0] in gap;
    } else {
      var key :| key in stale;
      assert key !in findings;
    }
  }
}
