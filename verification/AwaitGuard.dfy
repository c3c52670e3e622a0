/** The "lock guard held across an await" scanner. */
module AwaitGuard {
  import opened Prelude
  import opened ScopeLines
  import opened Tokens

  // One pass over a file, keeping the guards alive, the open spawn_blocking regions and the `let` whose
  // initializer has not ended yet.

  // The findings are proved equal to a quadratic definition over pairs of lines. What the regular expressions
  // find on a noise-stripped line is taken as given: its tokens, in source order.

  datatype Line = Line(
    testMarker: bool,         // the raw line contains #[cfg(test)]
    tokens: seq<Token>,
    spawnBlocking: bool)

  /** The line awaits, and nowhere merely to acquire a lock. */
  predicate HoldingAwait(tokens: seq<Token>) {
    Await(false) in tokens && Await(true) !in tokens
  }

  /** The argument of the first `drop(..)`; later ones on the line are not looked at. */
  function Dropped(tokens: seq<Token>): Option<string> {
    if tokens == [] then None
    else if tokens[0].Drop? then Some(tokens[0].dropped)
    else Dropped(tokens[1..])
  }

  datatype Guard = Guard(name: string, line: nat, depth: int, inSync: bool)

  datatype Gap = Gap(awaitLine: nat, name: string, guardLine: nat)

  function Nets(lines: seq<Line>): seq<int> {
    seq(|lines|, i requires 0 <= i < |lines| => Net(lines[i].tokens))
  }

  function SyncMarks(lines: seq<Line>): seq<bool> {
    seq(|lines|, i requires 0 <= i < |lines| => lines[i].spawnBlocking)
  }

  // ----- The reference definition ---------------------------------------------------------------

  /** The binding in force before token p: the latest `let`, unless a semicolon ended it. */
  function Pending(tokens: seq<Token>, p: nat, before: Option<string>): Option<string>
    requires p <= |tokens|
  {
    if p == 0 then before
    else
      match tokens[p - 1]
      case Semicolon => None
      case Let(name) => Some(name)
      case _ => Pending(tokens, p - 1, before)
  }

  /** The unfinished binding at the start of line i. */
  function Carried(lines: seq<Line>, i: nat): Option<string>
    requires i <= |lines|
  {
    if i == 0 then None else Pending(lines[i - 1].tokens, |lines[i - 1].tokens|, Carried(lines, i - 1))
  }

  /** The leftmost lock call; any later one on the same line is not looked at. */
  function FirstLock(tokens: seq<Token>): (p: nat)
    ensures p <= |tokens|
  {
    First(tokens, LockCall)
  }

  /** The guard acquired on a line, given the binding carried into it. */
  function Owner(tokens: seq<Token>, before: Option<string>): Option<string> {
    var p := FirstLock(tokens);
    if p < |tokens| then Pending(tokens, p, before) else None
  }

  function Acquired(lines: seq<Line>, j: nat): Option<string>
    requires j < |lines|
  {
    Owner(lines[j].tokens, Carried(lines, j))
  }

  function AcquiredDepth(lines: seq<Line>, j: nat): int
    requires j < |lines|
  {
    Depth(Nets(lines), j) + Net(lines[j].tokens[..FirstLock(lines[j].tokens)])
  }

  /** Line j lies in a spawn_blocking region, or opens one. */
  predicate InSync(lines: seq<Line>, j: nat)
    requires j < |lines|
  {
    InsideRegion(Nets(lines), SyncMarks(lines), j)
  }

  /** The guard of line j survives to the start of line i: in scope at every line end, never dropped. */
  predicate Alive(lines: seq<Line>, j: nat, i: nat)
    requires j < |lines| && j <= i <= |lines|
  {
    && (forall m :: j < m <= i ==> Depth(Nets(lines), m) >= AcquiredDepth(lines, j))
    && (forall k :: j < k < i ==> Dropped(lines[k].tokens).None? || Dropped(lines[k].tokens) != Acquired(lines, j))
  }

  predicate Visible(lines: seq<Line>, includeTests: bool, i: nat)
    requires i < |lines|
  {
    includeTests || !SeenMarker(lines, i + 1)
  }

  predicate SeenMarker(lines: seq<Line>, i: nat)
    requires i <= |lines|
  {
    exists k :: 0 <= k < i && lines[k].testMarker
  }

  /** The quadratic definition of a violation. */
  predicate Reported(lines: seq<Line>, includeTests: bool, i: nat, j: nat)
    requires j < i < |lines|
  {
    && Visible(lines, includeTests, i)
    && HoldingAwait(lines[i].tokens)
    && Acquired(lines, j).Some?
    && !InSync(lines, j)
    && Alive(lines, j, i)
  }

  /** The violation at line i by the guard of line j. */
  function GapAt(lines: seq<Line>, includeTests: bool, i: nat, j: nat): Option<Gap>
    requires j < i < |lines|
  {
    if Reported(lines, includeTests, i, j) then Some(Gap(i + 1, Acquired(lines, j).value, j + 1)) else None
  }

  function GapsAt(lines: seq<Line>, includeTests: bool, i: nat): seq<Option<Gap>>
    requires i < |lines|
  {
    seq(i, j requires 0 <= j < i => GapAt(lines, includeTests, i, j))
  }

  /** What there is among the first n entries, in order. */
  function Somes<T>(entries: seq<Option<T>>, n: nat): seq<T>
    requires n <= |entries|
  {
    if n == 0 then []
    else if entries[n - 1].Some? then Somes(entries, n - 1) + [entries[n - 1].value]
    else Somes(entries, n - 1)
  }

  /** The violations at line i, in order of acquisition. */
  function LineGaps(lines: seq<Line>, includeTests: bool, i: nat): seq<Gap>
    requires i < |lines|
  {
    Somes(GapsAt(lines, includeTests, i), i)
  }

  function Findings(lines: seq<Line>, includeTests: bool, n: nat): seq<Gap>
    requires n <= |lines|
  {
    if n == 0 then [] else Findings(lines, includeTests, n - 1) + LineGaps(lines, includeTests, n - 1)
  }

  // ----- The scanner's guards at a line start -----------------------------------------------------

  function GuardOf(lines: seq<Line>, j: nat): Guard
    requires j < |lines| && Acquired(lines, j).Some?
  {
    Guard(Acquired(lines, j).value, j + 1, AcquiredDepth(lines, j), InSync(lines, j))
  }

  /** What line j still holds at the start of line i. */
  function HeldAt(lines: seq<Line>, j: nat, i: nat): Option<Guard>
    requires j < |lines| && j <= i <= |lines|
  {
    if Acquired(lines, j).Some? && Alive(lines, j, i) then Some(GuardOf(lines, j)) else None
  }

  function Held(lines: seq<Line>, i: nat): seq<Option<Guard>>
    requires i <= |lines|
  {
    seq(|lines|, j requires 0 <= j < |lines| => if j < i then HeldAt(lines, j, i) else None)
  }

  /** The guards of the first n lines that survive to the start of line i. */
  function Live(lines: seq<Line>, n: nat, i: nat): seq<Guard>
    requires n <= i <= |lines|
  {
    Somes(Held(lines, i), n)
  }

  /** The guards of any other name than the dropped one; all of them when nothing is dropped. */
  function Undropped(guards: seq<Guard>, dropped: Option<string>): seq<Guard> {
    UndroppedOf(guards, |guards|, dropped)
  }

  function UndroppedOf(guards: seq<Guard>, n: nat, dropped: Option<string>): seq<Guard>
    requires n <= |guards|
  {
    if n == 0 then []
    else if Some(guards[n - 1].name) != dropped then UndroppedOf(guards, n - 1, dropped) + [guards[n - 1]]
    else UndroppedOf(guards, n - 1, dropped)
  }

  /** The guards no deeper than the depth a line ends at. */
  function InScope(guards: seq<Guard>, depth: int): seq<Guard> {
    InScopeOf(guards, |guards|, depth)
  }

  function InScopeOf(guards: seq<Guard>, n: nat, depth: int): seq<Guard>
    requires n <= |guards|
  {
    if n == 0 then []
    else if depth >= guards[n - 1].depth then InScopeOf(guards, n - 1, depth) + [guards[n - 1]]
    else InScopeOf(guards, n - 1, depth)
  }

  lemma {:induction false} FiltersIgnoreTheRest(guards: seq<Guard>, g: Guard, n: nat, dropped: Option<string>,
                                                depth: int)
    requires n <= |guards|
    ensures UndroppedOf(guards + [g], n, dropped) == UndroppedOf(guards, n, dropped)
    ensures InScopeOf(guards + [g], n, depth) == InScopeOf(guards, n, depth)
  {
    if n > 0 {
      FiltersIgnoreTheRest(guards, g, n - 1, dropped, depth);
    }
  }

  lemma UndroppedAppend(guards: seq<Guard>, g: Guard, dropped: Option<string>)
    ensures Undropped(guards + [g], dropped) ==
            if Some(g.name) != dropped then Undropped(guards, dropped) + [g] else Undropped(guards, dropped)
  {
    FiltersIgnoreTheRest(guards, g, |guards|, dropped, 0);
  }

  lemma InScopeAppend(guards: seq<Guard>, g: Guard, depth: int)
    ensures InScope(guards + [g], depth) ==
            if depth >= g.depth then InScope(guards, depth) + [g] else InScope(guards, depth)
  {
    FiltersIgnoreTheRest(guards, g, |guards|, None, depth);
  }

  lemma {:induction false} AliveStep(lines: seq<Line>, j: nat, i: nat)
    requires j < i < |lines| && Acquired(lines, j).Some?
    ensures Alive(lines, j, i + 1) <==>
            Alive(lines, j, i) && Dropped(lines[i].tokens) != Acquired(lines, j) &&
            Depth(Nets(lines), i + 1) >= AcquiredDepth(lines, j)
  {
  }

  predicate Survives(g: Guard, dropped: Option<string>, depth: int) {
    Some(g.name) != dropped && depth >= g.depth
  }

  lemma {:induction false} HeldStep(lines: seq<Line>, j: nat, i: nat)
    requires j < i < |lines|
    ensures HeldAt(lines, j, i + 1) ==
            Filtered(HeldAt(lines, j, i), Dropped(lines[i].tokens), Depth(Nets(lines), i + 1))
  {
    if Acquired(lines, j).Some? {
      AliveStep(lines, j, i);
    }
  }

  /** What is left of a line's guard when the line filters are done. */
  function Filtered(held: Option<Guard>, dropped: Option<string>, depth: int): Option<Guard> {
    if held.Some? && Survives(held.value, dropped, depth) then held else None
  }

  lemma FilterSnoc(guards: seq<Guard>, last: Option<Guard>, dropped: Option<string>, depth: int)
    ensures InScope(Undropped(if last.Some? then guards + [last.value] else guards, dropped), depth) ==
            match Filtered(last, dropped, depth)
            case Some(g) => InScope(Undropped(guards, dropped), depth) + [g]
            case None => InScope(Undropped(guards, dropped), depth)
  {
    if last.Some? {
      UndroppedAppend(guards, last.value, dropped);
      InScopeAppend(Undropped(guards, dropped), last.value, depth);
    }
  }

  /** Filtering the guards is filtering what each line holds. */
  lemma {:induction false} FilterHeld(held: seq<Option<Guard>>, after: seq<Option<Guard>>, n: nat,
                                      dropped: Option<string>, depth: int)
    requires n <= |held| && n <= |after|
    requires forall j :: 0 <= j < n ==> after[j] == Filtered(held[j], dropped, depth)
    ensures Somes(after, n) == InScope(Undropped(Somes(held, n), dropped), depth)
  {
    if n > 0 {
      FilterHeld(held, after, n - 1, dropped, depth);
      FilterSnoc(Somes(held, n - 1), held[n - 1], dropped, depth);
    }
  }

  /** What the first n lines hold is filtered, and line n holds what it adds if that is in scope at its end. */
  predicate Advanced(held: seq<Option<Guard>>, after: seq<Option<Guard>>, n: nat, added: seq<Guard>,
                     dropped: Option<string>, depth: int)
  {
    && n <= |held| && n < |after| && |added| <= 1
    && (forall j :: 0 <= j < n ==> after[j] == Filtered(held[j], dropped, depth))
    && after[n] == if added != [] && depth >= added[0].depth then Some(added[0]) else None
  }

  /** A line's end, on what the lines before it hold and what it adds itself. */
  lemma FilterAndAdd(held: seq<Option<Guard>>, after: seq<Option<Guard>>, n: nat, added: seq<Guard>,
                     dropped: Option<string>, depth: int)
    requires Advanced(held, after, n, added, dropped, depth)
    ensures Somes(after, n + 1) == InScope(Undropped(Somes(held, n), dropped) + added, depth)
  {
    FilterHeld(held, after, n, dropped, depth);
    ScopeOfAdded(Undropped(Somes(held, n), dropped), added, depth);
  }

  lemma {:induction false} AliveAtOwnLineEnd(lines: seq<Line>, i: nat)
    requires i < |lines|
    ensures Alive(lines, i, i + 1) <==> Depth(Nets(lines), i + 1) >= AcquiredDepth(lines, i)
  {
  }

  /** What line i's lock call adds. */
  function Added(tokens: seq<Token>, lineno: nat, depth: int, inSync: bool, carried: Option<string>): seq<Guard> {
    match Owner(tokens, carried)
    case None => []
    case Some(name) => [Guard(name, lineno, depth + Net(tokens[..FirstLock(tokens)]), inSync)]
  }

  /** What line i's lock call adds is what the line still holds at its end, unless its scope has closed by then. */
  lemma {:induction false} OwnLine(lines: seq<Line>, i: nat, depth: int, inSync: bool)
    requires i < |lines| && depth == Depth(Nets(lines), i) && inSync == InSync(lines, i)
    ensures var added := Added(lines[i].tokens, i + 1, depth, inSync, Carried(lines, i));
            |added| <= 1 &&
            HeldAt(lines, i, i + 1) ==
              if added != [] && depth + Net(lines[i].tokens) >= added[0].depth then Some(added[0]) else None
  {
    if Acquired(lines, i).Some? {
      AliveAtOwnLineEnd(lines, i);
    }
  }

  lemma ScopeOfAdded(kept: seq<Guard>, added: seq<Guard>, end: int)
    requires |added| <= 1
    ensures InScope(kept + added, end) ==
            if added != [] && end >= added[0].depth then InScope(kept, end) + [added[0]] else InScope(kept, end)
  {
    if added == [] {
      ConcatEmpty(kept);
    } else {
      assert added == [added[0]];
      InScopeAppend(kept, added[0], end);
    }
  }

  /** What the lines hold at the end of line i, in terms of what they held at its start. */
  lemma {:induction false} HeldRow(lines: seq<Line>, i: nat, added: seq<Guard>, depth: int, inSync: bool, end: int)
    requires i < |lines| && depth == Depth(Nets(lines), i) && inSync == InSync(lines, i)
    requires added == Added(lines[i].tokens, i + 1, depth, inSync, Carried(lines, i))
    requires end == depth + Net(lines[i].tokens)
    ensures Advanced(Held(lines, i), Held(lines, i + 1), i, added, Dropped(lines[i].tokens), end)
  {
    forall j: nat | j < i
      ensures Held(lines, i + 1)[j] == Filtered(Held(lines, i)[j], Dropped(lines[i].tokens), end)
    {
      HeldStep(lines, j, i);
    }
    OwnLine(lines, i, depth, inSync);
  }

  lemma {:induction false} AcquireAndRelease(lines: seq<Line>, i: nat, guards: seq<Guard>, depth: int, inSync: bool)
    requires i < |lines| && guards == Live(lines, i, i)
    requires depth == Depth(Nets(lines), i) && inSync == InSync(lines, i)
    ensures InScope(Undropped(guards, Dropped(lines[i].tokens)) +
                    Added(lines[i].tokens, i + 1, depth, inSync, Carried(lines, i)),
                    depth + Net(lines[i].tokens)) == Live(lines, i + 1, i + 1)
  {
    var end, added := depth + Net(lines[i].tokens), Added(lines[i].tokens, i + 1, depth, inSync, Carried(lines, i));
    HeldRow(lines, i, added, depth, inSync, end);
    FilterAndAdd(Held(lines, i), Held(lines, i + 1), i, added, Dropped(lines[i].tokens), end);
  }

  function GapsOf(guards: seq<Guard>, lineno: nat): seq<Gap> {
    if guards == [] then []
    else
      var n := |guards| - 1;
      var rest := GapsOf(guards[..n], lineno);
      if guards[n].inSync then rest else rest + [Gap(lineno, guards[n].name, guards[n].line)]
  }

  lemma GapsSnoc(rest: seq<Guard>, g: Guard, lineno: nat)
    ensures GapsOf(rest + [g], lineno) ==
            if g.inSync then GapsOf(rest, lineno) else GapsOf(rest, lineno) + [Gap(lineno, g.name, g.line)]
  {
    assert (rest + [g])[..|rest|] == rest;
  }

  /** What the report of line lineno says of one line's guard. */
  function GapOf(held: Option<Guard>, lineno: nat): Option<Gap> {
    if held.Some? && !held.value.inSync then Some(Gap(lineno, held.value.name, held.value.line)) else None
  }

  /** Reporting the guards is reporting what each line holds. */
  lemma {:induction false} GapsOfSomes(held: seq<Option<Guard>>, entries: seq<Option<Gap>>, n: nat, lineno: nat)
    requires n <= |held| && n <= |entries|
    requires forall j :: 0 <= j < n ==> entries[j] == GapOf(held[j], lineno)
    ensures Somes(entries, n) == GapsOf(Somes(held, n), lineno)
  {
    if n > 0 {
      GapsOfSomes(held, entries, n - 1, lineno);
      if held[n - 1].Some? {
        GapsSnoc(Somes(held, n - 1), held[n - 1].value, lineno);
      }
    }
  }

  lemma {:induction false} NothingAmong<T>(entries: seq<Option<T>>, n: nat)
    requires n <= |entries| && forall j :: 0 <= j < n ==> entries[j].None?
    ensures Somes(entries, n) == []
  {
    if n > 0 {
      NothingAmong(entries, n - 1);
    }
  }

  lemma {:induction false} GapsAreReported(lines: seq<Line>, includeTests: bool, i: nat)
    requires i < |lines|
    ensures LineGaps(lines, includeTests, i) ==
            if Visible(lines, includeTests, i) && HoldingAwait(lines[i].tokens) then GapsOf(Live(lines, i, i), i + 1)
            else []
  {
    var entries := GapsAt(lines, includeTests, i);
    if Visible(lines, includeTests, i) && HoldingAwait(lines[i].tokens) {
      forall j | 0 <= j < i ensures entries[j] == GapOf(Held(lines, i)[j], i + 1) {
        assert Held(lines, i)[j] == HeldAt(lines, j, i);
      }
      GapsOfSomes(Held(lines, i), entries, i, i + 1);
    } else {
      NothingAmong(entries, i);
    }
  }

  // ----- The scanner ------------------------------------------------------------------------------

  /** Step 1: report every live guard outside a sync closure. */
  method ReportLine(guards: seq<Guard>, lineno: nat, before: seq<Gap>) returns (gaps: seq<Gap>)
    ensures gaps == before + GapsOf(guards, lineno)
  {
    gaps := before;
    var k := 0;
    while k < |guards|
      invariant 0 <= k <= |guards|
      invariant gaps == before + GapsOf(guards[..k], lineno)
    {
      assert guards[..k + 1][..k] == guards[..k];
      if !guards[k].inSync {
        gaps := gaps + [Gap(lineno, guards[k].name, guards[k].line)];
      }
      k := k + 1;
    }
    assert guards[..k] == guards;
  }

  /** Step 4: attribute the lock call to the binding that is pending in source order. */
  method BindLocks(tokens: seq<Token>, lineno: nat, depth: int, inSync: bool, carried: Option<string>)
    returns (added: seq<Guard>, pending: Option<string>)
    ensures added == Added(tokens, lineno, depth, inSync, carried)
    ensures pending == Pending(tokens, |tokens|, carried)
  {
    added, pending := [], carried;
    var lock := FirstLock(tokens);
    var p := 0;
    while p < |tokens|
      invariant 0 <= p <= |tokens|
      invariant pending == Pending(tokens, p, carried)
      invariant added == if p <= lock then [] else Added(tokens, lineno, depth, inSync, carried)
    {
      match tokens[p] {
        case Let(name) => pending := Some(name);
        case Semicolon => pending := None;
        case LockCall =>
          if p == lock && pending.Some? {
            added := [Guard(pending.value, lineno, depth + Net(tokens[..p]), inSync)];
          }
        case _ =>
      }
      p := p + 1;
    }
  }

  function Pushed(l: Line, depth: int, sync0: seq<int>): seq<int> {
    if l.spawnBlocking then sync0 + [depth] else sync0
  }

  /** What steps 3 and 5 make of the sync stack. */
  predicate SyncAdvanced(l: Line, depth: int, sync0: seq<int>, sync: seq<int>) {
    sync == Below(Pushed(l, depth, sync0), depth + Net(l.tokens))
  }

  /** What steps 2, 4 and 5 make of the guards. */
  predicate GuardsAdvanced(l: Line, lineno: nat, depth: int, inSync: bool, guards0: seq<Guard>,
                           carried: Option<string>, guards: seq<Guard>)
  {
    guards == InScope(Undropped(guards0, Dropped(l.tokens)) + Added(l.tokens, lineno, depth, inSync, carried),
                      depth + Net(l.tokens))
  }

  /** Steps 1 to 5 on one line. */
  method Advance(l: Line, lineno: nat, depth: int, guards0: seq<Guard>, sync0: seq<int>, carried: Option<string>,
                  before: seq<Gap>)
    returns (guards: seq<Guard>, sync: seq<int>, pending: Option<string>, gaps: seq<Gap>)
    ensures gaps == if HoldingAwait(l.tokens) then before + GapsOf(guards0, lineno) else before
    ensures SyncAdvanced(l, depth, sync0, sync)
    ensures GuardsAdvanced(l, lineno, depth, Pushed(l, depth, sync0) != [], guards0, carried, guards)
    ensures pending == Pending(l.tokens, |l.tokens|, carried)
  {
    gaps, guards, sync := before, guards0, sync0;
    if HoldingAwait(l.tokens) {
      gaps := ReportLine(guards, lineno, gaps);
    }
    NothingDropped(guards, |guards|);
    assert guards[..|guards|] == guards;
    var dropped := Dropped(l.tokens);
    if dropped.Some? {
      guards := Undropped(guards, dropped);
    }
    if l.spawnBlocking {
      sync := sync + [depth];
    }
    var added;
    added, pending := BindLocks(l.tokens, lineno, depth, sync != [], carried);
    var end := depth + Net(l.tokens);
    guards, sync := InScope(guards + added, end), Below(sync, end);
  }

  lemma {:induction false} NothingDropped(guards: seq<Guard>, n: nat)
    requires n <= |guards|
    ensures UndroppedOf(guards, n, None) == guards[..n]
  {
    if n > 0 {
      NothingDropped(guards, n - 1);
    }
  }

  predicate GuardsAt(lines: seq<Line>, i: nat, guards: seq<Guard>)
    requires i <= |lines|
  {
    guards == Live(lines, i, i)
  }

  predicate SyncAt(lines: seq<Line>, i: nat, sync: seq<int>)
    requires i <= |lines|
  {
    sync == OpenRegions(Nets(lines), SyncMarks(lines), i, i)
  }

  /** The scanner's variables at the start of line i. */
  predicate AtLine(lines: seq<Line>, i: nat, guards: seq<Guard>, sync: seq<int>, pending: Option<string>)
    requires i <= |lines|
  {
    GuardsAt(lines, i, guards) && SyncAt(lines, i, sync) && pending == Carried(lines, i)
  }

  lemma {:induction false} SyncTransfer(lines: seq<Line>, i: nat, depth: int, sync0: seq<int>, sync: seq<int>)
    requires i < |lines| && depth == Depth(Nets(lines), i)
    requires SyncAt(lines, i, sync0) && SyncAdvanced(lines[i], depth, sync0, sync)
    ensures SyncAt(lines, i + 1, sync)
    ensures InSync(lines, i) <==> Pushed(lines[i], depth, sync0) != []
  {
    PushAndRelease(Nets(lines), SyncMarks(lines), i);
    PushedIffInside(Nets(lines), SyncMarks(lines), i);
    ConcatEmpty(sync0);
  }

  lemma {:induction false} GuardTransfer(lines: seq<Line>, i: nat, depth: int, inSync: bool, guards0: seq<Guard>,
                      carried: Option<string>, guards: seq<Guard>)
    requires i < |lines| && depth == Depth(Nets(lines), i) && inSync == InSync(lines, i)
    requires GuardsAt(lines, i, guards0) && carried == Carried(lines, i)
    requires GuardsAdvanced(lines[i], i + 1, depth, inSync, guards0, carried, guards)
    ensures GuardsAt(lines, i + 1, guards)
  {
    AcquireAndRelease(lines, i, guards0, depth, inSync);
  }

  lemma {:induction false} GapsTransfer(lines: seq<Line>, i: nat, guards: seq<Guard>, before: seq<Gap>, gaps: seq<Gap>)
    requires i < |lines| && guards == Live(lines, i, i) && before == Findings(lines, true, i)
    requires gaps == if HoldingAwait(lines[i].tokens) then before + GapsOf(guards, i + 1) else before
    ensures gaps == Findings(lines, true, i + 1)
  {
    GapsAreReported(lines, true, i);
  }

  /** Steps 1 to 5 on line i: from the scanner's state at its start to the state at its end. */
  method ScanLine(lines: seq<Line>, i: nat, depth: int, guards0: seq<Guard>, sync0: seq<int>, carried: Option<string>,
                  before: seq<Gap>)
    returns (guards: seq<Guard>, sync: seq<int>, pending: Option<string>, gaps: seq<Gap>)
    requires i < |lines| && depth == Depth(Nets(lines), i) && AtLine(lines, i, guards0, sync0, carried)
    requires before == Findings(lines, true, i)
    ensures AtLine(lines, i + 1, guards, sync, pending)
    ensures gaps == Findings(lines, true, i + 1)
  {
    guards, sync, pending, gaps := Advance(lines[i], i + 1, depth, guards0, sync0, carried, before);
    SyncTransfer(lines, i, depth, sync0, sync);
    GuardTransfer(lines, i, depth, Pushed(lines[i], depth, sync0) != [], guards0, carried, guards);
    GapsTransfer(lines, i, guards0, before, gaps);
  }

  /** Before the first test marker the two modes agree; after it the default mode adds nothing. */
  lemma {:induction false} ModesAgree(lines: seq<Line>, i: nat)
    requires i < |lines| && !SeenMarker(lines, i + 1)
    ensures LineGaps(lines, false, i) == LineGaps(lines, true, i)
  {
    assert GapsAt(lines, false, i) == GapsAt(lines, true, i);
  }

  lemma {:induction false} HiddenLineIsSilent(lines: seq<Line>, i: nat)
    requires i < |lines| && SeenMarker(lines, i + 1)
    ensures LineGaps(lines, false, i) == []
  {
    NothingAmong(GapsAt(lines, false, i), i);
  }

  lemma MarkerStep(lines: seq<Line>, i: nat)
    requires i < |lines|
    ensures SeenMarker(lines, i + 1) <==> SeenMarker(lines, i) || lines[i].testMarker
  {
  }

  lemma FindingsStep(lines: seq<Line>, includeTests: bool, i: nat)
    requires i < |lines|
    ensures if SeenMarker(lines, i + 1) && !includeTests then
              Findings(lines, includeTests, i + 1) == Findings(lines, includeTests, i)
            else
              Findings(lines, includeTests, i) == Findings(lines, true, i) ==>
                Findings(lines, includeTests, i + 1) == Findings(lines, true, i + 1)
  {
    if !includeTests {
      if SeenMarker(lines, i + 1) {
        HiddenLineIsSilent(lines, i);
      } else {
        ModesAgree(lines, i);
      }
    }
  }

  /** The one-pass scanner finds exactly the violations of the quadratic definition, in its order. */
  method ScanText(lines: seq<Line>, includeTests: bool) returns (gaps: seq<Gap>)
    ensures gaps == Findings(lines, includeTests, |lines|)
  {
    gaps := [];
    var depth, inTest := 0, false;
    var guards: seq<Guard> := [];
    var sync: seq<int> := [];
    var pending: Option<string> := None;
    var i := 0;
    while i < |lines|
      invariant 0 <= i <= |lines|
      invariant depth == Depth(Nets(lines), i)
      invariant inTest <==> SeenMarker(lines, i)
      invariant gaps == Findings(lines, includeTests, i)
      invariant !inTest || includeTests ==>
                  AtLine(lines, i, guards, sync, pending) && gaps == Findings(lines, true, i)
    {
      MarkerStep(lines, i);
      FindingsStep(lines, includeTests, i);
      if lines[i].testMarker {
        inTest := true;
      }
      if !inTest || includeTests {
        guards, sync, pending, gaps := ScanLine(lines, i, depth, guards, sync, pending, gaps);
      }
      depth := depth + Net(lines[i].tokens);
      i := i + 1;
    }
  }
}
