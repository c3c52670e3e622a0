/**
 What the await scanner's findings mean, token by token: which binding a lock belongs to, and when
 "alive at every line end" is the same as "its scope was never left".
 */
module AwaitGuardScopes {
  import opened Prelude
  import opened ScopeLines
  import opened Tokens
  import opened AwaitGuard

  // ----- Membership -------------------------------------------------------------------------------

  lemma {:induction false} AmongIff<T>(entries: seq<Option<T>>, n: nat, x: T)
    requires n <= |entries|
    ensures x in Somes(entries, n) <==> exists j :: 0 <= j < n && entries[j] == Some(x)
  {
    if n > 0 {
      AmongIff(entries, n - 1, x);
      if entries[n - 1] == Some(x) {
        assert x in Somes(entries, n);
      }
    }
  }

  lemma {:induction false} LineGapsIff(lines: seq<Line>, includeTests: bool, m: nat, i: nat, j: nat, name: string)
    requires m < |lines|
    ensures Gap(i + 1, name, j + 1) in LineGaps(lines, includeTests, m) <==>
            i == m && j < i && Reported(lines, includeTests, i, j) && Acquired(lines, j) == Some(name)
  {
    var gap, entries := Gap(i + 1, name, j + 1), GapsAt(lines, includeTests, m);
    AmongIff(entries, m, gap);
    forall k | 0 <= k < m && entries[k] == Some(gap) ensures k == j && i == m {
      assert entries[k] == GapAt(lines, includeTests, m, k);
    }
    assert i == m && j < i ==> entries[j] == GapAt(lines, includeTests, i, j);
  }

  lemma InConcat(a: seq<Gap>, b: seq<Gap>, g: Gap)
    ensures g in a + b <==> g in a || g in b
  {
  }

  /** Lines that differ in their test markers only. */
  predicate SameCode(a: seq<Line>, b: seq<Line>) {
    |a| == |b| && forall i :: 0 <= i < |a| ==> a[i].tokens == b[i].tokens && a[i].spawnBlocking == b[i].spawnBlocking
  }

  /** Line j opens no synchronous region and lies in none that an earlier line has opened. */
  predicate Asynchronous(lines: seq<Line>, j: nat)
    requires j < |lines|
  {
    !lines[j].spawnBlocking && forall k :: 0 <= k < j && lines[k].spawnBlocking ==> LeftBy(Nets(lines), k, j)
  }

  /** A line between k and j starts at the depth of line k or below. */
  predicate LeftBy(nets: seq<int>, k: nat, j: nat)
    requires k <= j <= |nets|
  {
    exists m :: k < m <= j && Depth(nets, m) <= Depth(nets, k)
  }

  lemma {:induction false} LeftOrInside(nets: seq<int>, k: nat, j: nat)
    requires k <= j <= |nets|
    ensures LeftBy(nets, k, j) <==> !StillInside(nets, k, j)
  {
    if !StillInside(nets, k, j) {
      var m :| k < m <= j && !(Depth(nets, m) > Depth(nets, k));
      assert Depth(nets, m) <= Depth(nets, k);
    }
  }

  lemma {:induction false} AsynchronousIff(lines: seq<Line>, j: nat)
    requires j < |lines|
    ensures Asynchronous(lines, j) <==> !InSync(lines, j)
  {
    var nets, marks := Nets(lines), SyncMarks(lines);
    forall k | 0 <= k < j ensures LeftBy(nets, k, j) <==> !StillInside(nets, k, j) {
      LeftOrInside(nets, k, j);
    }
    if Asynchronous(lines, j) {
      forall k | 0 <= k <= j && marks[k] ensures !StillInside(nets, k, j) {
        assert LeftBy(nets, k, j);
      }
    } else if !lines[j].spawnBlocking {
      var k :| 0 <= k < j && lines[k].spawnBlocking && !LeftBy(nets, k, j);
      assert marks[k] && StillInside(nets, k, j);
    } else {
      assert marks[j] && StillInside(nets, j, j);
    }
  }

  /**
   What the scanner finds, in terms of the lines: the guard of line j, taken outside every synchronous region,
   is reported at a later line i that awaits, nowhere only to acquire a lock, and that no test marker precedes
   unless tests are included; no line in between ends below the depth of the lock call or drops the guard first.
   */
  lemma {:induction false} FindingsIff(lines: seq<Line>, includeTests: bool, n: nat, i: nat, j: nat, name: string)
    requires n <= |lines|
    ensures Gap(i + 1, name, j + 1) in Findings(lines, includeTests, n) <==>
            && j < i < n
            && (includeTests || forall k :: 0 <= k <= i ==> !lines[k].testMarker)
            && Await(false) in lines[i].tokens && Await(true) !in lines[i].tokens
            && Acquired(lines, j) == Some(name) && Asynchronous(lines, j)
            && InScopeAtLineEnds(lines, j, i) && NeverDropped(lines, i, j, name)
  {
    FindingsAreReported(lines, includeTests, n, i, j, name);
    if j < i < n {
      AsynchronousIff(lines, j);
      VisibleIff(lines, includeTests, i);
      ReportedWhen(lines, includeTests, i, j, name);
    }
  }

  lemma {:induction false} VisibleIff(lines: seq<Line>, includeTests: bool, i: nat)
    requires i < |lines|
    ensures Visible(lines, includeTests, i) <==> includeTests || forall k :: 0 <= k <= i ==> !lines[k].testMarker
  {
  }

  lemma {:induction false} ReportedWhen(lines: seq<Line>, includeTests: bool, i: nat, j: nat, name: string)
    requires j < i < |lines|
    ensures Reported(lines, includeTests, i, j) && Acquired(lines, j) == Some(name) <==>
            && Visible(lines, includeTests, i)
            && Await(false) in lines[i].tokens && Await(true) !in lines[i].tokens
            && Acquired(lines, j) == Some(name) && !InSync(lines, j)
            && InScopeAtLineEnds(lines, j, i) && NeverDropped(lines, i, j, name)
  {
    if Acquired(lines, j) == Some(name) {
      AliveWhen(lines, i, j, name);
    }
  }

  /** The first drop of no line strictly in between names the guard. */
  predicate NeverDropped(lines: seq<Line>, i: nat, j: nat, name: string)
    requires j < i <= |lines|
  {
    forall k :: j < k < i ==> Dropped(lines[k].tokens) != Some(name)
  }

  lemma {:induction false} AliveWhen(lines: seq<Line>, i: nat, j: nat, name: string)
    requires j < i < |lines| && Acquired(lines, j) == Some(name)
    ensures Alive(lines, j, i) <==> InScopeAtLineEnds(lines, j, i) && NeverDropped(lines, i, j, name)
  {
    if InScopeAtLineEnds(lines, j, i) && !Alive(lines, j, i) {
      var k :| j < k < i && !(Dropped(lines[k].tokens).None? || Dropped(lines[k].tokens) != Acquired(lines, j));
      assert Dropped(lines[k].tokens) == Some(name);
    }
  }

  /** A pair of lines is reported exactly when the quadratic definition says so, under the guard's name. */
  lemma {:induction false} FindingsAreReported(lines: seq<Line>, includeTests: bool, n: nat, i: nat, j: nat,
                                               name: string)
    requires n <= |lines|
    ensures Gap(i + 1, name, j + 1) in Findings(lines, includeTests, n) <==>
            j < i < n && Reported(lines, includeTests, i, j) && Acquired(lines, j) == Some(name)
  {
    if n > 0 {
      FindingsAreReported(lines, includeTests, n - 1, i, j, name);
      LineGapsIff(lines, includeTests, n - 1, i, j, name);
      InConcat(Findings(lines, includeTests, n - 1), LineGaps(lines, includeTests, n - 1), Gap(i + 1, name, j + 1));
    }
  }

  // ----- Test code ------------------------------------------------------------------------------------

  /** By default the findings are those in front of the first test marker; m is its line, or the number of lines. */
  lemma {:induction false} DefaultStopsAtMarker(lines: seq<Line>, m: nat, n: nat)
    requires m <= n <= |lines| && (m < |lines| ==> lines[m].testMarker)
    requires forall k :: 0 <= k < m ==> !lines[k].testMarker
    requires m == |lines| ==> n == m
    ensures Findings(lines, false, n) == Findings(lines, true, m)
    decreases n
  {
    if n > m {
      DefaultStopsAtMarker(lines, m, n - 1);
      assert lines[m].testMarker;
      HiddenLineIsSilent(lines, n - 1);
      ConcatEmpty(Findings(lines, false, n - 1));
    } else {
      UnmarkedModesAgree(lines, m);
    }
  }

  lemma {:induction false} UnmarkedModesAgree(lines: seq<Line>, m: nat)
    requires m <= |lines| && forall k :: 0 <= k < m ==> !lines[k].testMarker
    ensures Findings(lines, false, m) == Findings(lines, true, m)
  {
    if m > 0 {
      UnmarkedModesAgree(lines, m - 1);
      ModesAgree(lines, m - 1);
    }
  }

  lemma {:induction false} CarriedIgnoresMarkers(a: seq<Line>, b: seq<Line>, i: nat)
    requires SameCode(a, b) && i <= |a|
    ensures Carried(a, i) == Carried(b, i)
  {
    if i > 0 {
      CarriedIgnoresMarkers(a, b, i - 1);
    }
  }

  /** With tests included the markers play no part. */
  lemma {:induction false} MarkersAreIgnored(a: seq<Line>, b: seq<Line>, n: nat)
    requires SameCode(a, b) && n <= |a|
    ensures Findings(a, true, n) == Findings(b, true, n)
  {
    if n > 0 {
      var last := n - 1;
      MarkersAreIgnored(a, b, last);
      assert Nets(a) == Nets(b) && SyncMarks(a) == SyncMarks(b);
      forall j | 0 <= j < last ensures GapAt(a, true, last, j) == GapAt(b, true, last, j) {
        CarriedIgnoresMarkers(a, b, j);
      }
      assert GapsAt(a, true, last) == GapsAt(b, true, last);
    }
  }

  // ----- Which binding owns a lock ------------------------------------------------------------------

  /** No binding starts or ends strictly between token q and token p; q may be -1. */
  predicate Quiet(tokens: seq<Token>, q: int, p: nat)
    requires p <= |tokens|
  {
    forall r :: 0 <= r < p && q < r ==> !tokens[r].Let? && !tokens[r].Semicolon?
  }

  predicate BindsHere(tokens: seq<Token>, q: nat, p: nat, name: string)
    requires p <= |tokens|
  {
    q < p && tokens[q] == Let(name) && Quiet(tokens, q, p)
  }

  lemma {:induction false} PendingIff(tokens: seq<Token>, p: nat, before: Option<string>, name: string)
    requires p <= |tokens|
    ensures Pending(tokens, p, before) == Some(name) <==>
            (Quiet(tokens, -1, p) && before == Some(name)) || (exists q: nat :: BindsHere(tokens, q, p, name))
  {
    if p > 0 {
      PendingIff(tokens, p - 1, before, name);
      if tokens[p - 1] == Let(name) {
        assert BindsHere(tokens, p - 1, p, name);
      } else if !tokens[p - 1].Let? && !tokens[p - 1].Semicolon? {
        assert Quiet(tokens, -1, p) <==> Quiet(tokens, -1, p - 1);
        forall q: nat ensures BindsHere(tokens, q, p, name) <==> BindsHere(tokens, q, p - 1, name) {
        }
        var prev := p - 1;
        if exists q: nat :: BindsHere(tokens, q, prev, name) {
          var q: nat :| BindsHere(tokens, q, prev, name);
          assert BindsHere(tokens, q, p, name);
        }
      }
    }
  }

  /** Token q of line k binds `name`, and no binding starts or ends until token p of line j. */
  predicate BindsUntil(lines: seq<Line>, k: nat, q: nat, j: nat, p: nat, name: string)
    requires j < |lines| && p <= |lines[j].tokens|
  {
    if k >= j then k == j && BindsHere(lines[j].tokens, q, p, name)
    else
      && BindsHere(lines[k].tokens, q, |lines[k].tokens|, name)
      && (forall m :: k < m < j ==> Quiet(lines[m].tokens, -1, |lines[m].tokens|))
      && Quiet(lines[j].tokens, -1, p)
  }

  /** The binding in force before token p of line j, across line ends. */
  lemma {:induction false} BindingIff(lines: seq<Line>, j: nat, p: nat, name: string)
    requires j < |lines| && p <= |lines[j].tokens|
    ensures Pending(lines[j].tokens, p, Carried(lines, j)) == Some(name) <==>
            exists k: nat, q: nat :: BindsUntil(lines, k, q, j, p, name)
    decreases j
  {
    var tokens := lines[j].tokens;
    PendingIff(tokens, p, Carried(lines, j), name);
    if j > 0 {
      var end := |lines[j - 1].tokens|;
      BindingIff(lines, j - 1, end, name);
      forall k: nat, q: nat | k < j
        ensures BindsUntil(lines, k, q, j, p, name) <==>
                BindsUntil(lines, k, q, j - 1, end, name) && Quiet(tokens, -1, p)
      {
      }
      if Quiet(tokens, -1, p) && Carried(lines, j) == Some(name) {
        var k: nat, q: nat :| BindsUntil(lines, k, q, j - 1, end, name);
        assert BindsUntil(lines, k, q, j, p, name);
      }
    }
    if exists q: nat :: BindsHere(tokens, q, p, name) {
      var q: nat :| BindsHere(tokens, q, p, name);
      assert BindsUntil(lines, j, q, j, p, name);
    }
    if exists k: nat, q: nat :: BindsUntil(lines, k, q, j, p, name) {
      var k: nat, q: nat :| BindsUntil(lines, k, q, j, p, name);
      if k < j {
        assert BindsUntil(lines, k, q, j - 1, |lines[j - 1].tokens|, name);
      }
    }
  }

  /** A lock call is charged to the latest `let` of the file that no semicolon or later `let` ended. */
  lemma AcquiredIff(lines: seq<Line>, j: nat, name: string)
    requires j < |lines|
    ensures Acquired(lines, j) == Some(name) <==>
            var lock := FirstLock(lines[j].tokens);
            lock < |lines[j].tokens| &&
            exists k: nat, q: nat :: BindsUntil(lines, k, q, j, lock, name)
  {
    BindingIff(lines, j, FirstLock(lines[j].tokens), name);
  }

  // ----- When line ends are enough to see a scope close ----------------------------------------------

  /** Alive's scope condition: the depth at every line end. */
  predicate InScopeAtLineEnds(lines: seq<Line>, j: nat, i: nat)
    requires j < |lines| && j <= i <= |lines|
  {
    forall m :: j < m <= i ==> Depth(Nets(lines), m) >= AcquiredDepth(lines, j)
  }

  /** The real condition: the depth after every token since the lock call. */
  predicate InScopeThroughout(lines: seq<Line>, j: nat, i: nat)
    requires j < i <= |lines|
  {
    && (forall p :: FirstLock(lines[j].tokens) <= p <= |lines[j].tokens| ==>
          Depth(Nets(lines), j) + Net(lines[j].tokens[..p]) >= AcquiredDepth(lines, j))
    && (forall m, p :: j < m < i && 0 <= p <= |lines[m].tokens| ==>
          Depth(Nets(lines), m) + Net(lines[m].tokens[..p]) >= AcquiredDepth(lines, j))
  }

  /** From token `from` on, the line never closes a scope and opens another one in its place. */
  predicate Tidy(tokens: seq<Token>, from: nat)
    requires from <= |tokens|
  {
    forall p :: from <= p <= |tokens| ==>
      Net(tokens[..p]) >= Net(tokens[..from]) || Net(tokens[..p]) >= Net(tokens)
  }

  lemma WholeLine(lines: seq<Line>, m: nat)
    requires m < |lines|
    ensures lines[m].tokens[..|lines[m].tokens|] == lines[m].tokens
    ensures Depth(Nets(lines), m + 1) == Depth(Nets(lines), m) + Net(lines[m].tokens)
  {
  }

  /** A guard whose scope is still open is never released: no violation is missed by closing scopes. */
  lemma ScopesAreNotMissed(lines: seq<Line>, j: nat, i: nat)
    requires j < i <= |lines| && InScopeThroughout(lines, j, i)
    ensures InScopeAtLineEnds(lines, j, i)
  {
    forall m | j < m <= i ensures Depth(Nets(lines), m) >= AcquiredDepth(lines, j) {
      WholeLine(lines, m - 1);
    }
  }

  /** On tidy lines the two conditions coincide, so a block scope really releases its guard. */
  lemma TidyScopesAreExact(lines: seq<Line>, j: nat, i: nat)
    requires j < i <= |lines|
    requires Tidy(lines[j].tokens, FirstLock(lines[j].tokens))
    requires forall m :: j < m < i ==> Tidy(lines[m].tokens, 0)
    ensures InScopeAtLineEnds(lines, j, i) <==> InScopeThroughout(lines, j, i)
  {
    if InScopeThroughout(lines, j, i) {
      ScopesAreNotMissed(lines, j, i);
    }
    if InScopeAtLineEnds(lines, j, i) {
      var a := AcquiredDepth(lines, j);
      WholeLine(lines, j);
      forall m, p | j < m < i && 0 <= p <= |lines[m].tokens|
        ensures Depth(Nets(lines), m) + Net(lines[m].tokens[..p]) >= a
      {
        WholeLine(lines, m);
        assert lines[m].tokens[..0] == [];
        assert Depth(Nets(lines), m) >= a && Depth(Nets(lines), m + 1) >= a;
      }
    }
  }

  /** Entered and left within the scope of a guard of depth a, the line never leaves it in between. */
  predicate JudgedRight(tokens: seq<Token>, depth: int, a: int) {
    depth >= a && depth + Net(tokens) >= a ==>
      forall p :: 0 <= p <= |tokens| ==> depth + Net(tokens[..p]) >= a
  }

  /** Judging a line by its end is right for every depth and every earlier guard exactly when the line is tidy. */
  lemma LineEndsSufficeIff(tokens: seq<Token>)
    ensures (forall depth, a :: JudgedRight(tokens, depth, a)) <==> Tidy(tokens, 0)
  {
    assert tokens[..0] == [];
    if !Tidy(tokens, 0) {
      var p :| 0 <= p <= |tokens| && Net(tokens[..p]) < 0 && Net(tokens[..p]) < Net(tokens);
      assert !JudgedRight(tokens, 0, if Net(tokens) < 0 then Net(tokens) else 0);
    }
  }

  /** If the line ends in the scope of its own lock, it has not left that scope since the lock. */
  predicate TidyAfterLock(tokens: seq<Token>) {
    Net(tokens) >= Net(tokens[..FirstLock(tokens)]) ==>
      forall p :: FirstLock(tokens) <= p <= |tokens| ==> Net(tokens[..p]) >= Net(tokens[..FirstLock(tokens)])
  }

  /** The guard of line j, judged at the end of its own line. */
  predicate OwnJudgedRight(lines: seq<Line>, j: nat)
    requires j < |lines|
  {
    InScopeAtLineEnds(lines, j, j + 1) <==> InScopeThroughout(lines, j, j + 1)
  }

  /** For the guard a line takes itself, its end is enough in every file exactly when it is tidy after the lock. */
  lemma OwnLineEndSufficesIff(l: Line)
    ensures (forall pre: seq<Line> :: OwnJudgedRight(pre + [l], |pre|)) <==> TidyAfterLock(l.tokens)
  {
    forall pre: seq<Line> ensures OwnJudgedRight(pre + [l], |pre|) <==> TidyAfterLock(l.tokens) {
      OwnEndIff(pre + [l], |pre|);
    }
    var none: seq<Line> := [];
    assert OwnJudgedRight(none + [l], |none|) <==> TidyAfterLock(l.tokens);
  }

  lemma OwnEndIff(lines: seq<Line>, j: nat)
    requires j < |lines|
    ensures OwnJudgedRight(lines, j) <==> TidyAfterLock(lines[j].tokens)
  {
    var tokens, lock := lines[j].tokens, FirstLock(lines[j].tokens);
    WholeLine(lines, j);
    if InScopeThroughout(lines, j, j + 1) {
      ScopesAreNotMissed(lines, j, j + 1);
      forall p | lock <= p <= |tokens| ensures Net(tokens[..p]) >= Net(tokens[..lock]) {
        assert Depth(Nets(lines), j) + Net(tokens[..p]) >= AcquiredDepth(lines, j);
      }
    }
  }

  // A guard of the first arm of an `if`, and an await in the second.
  const ELSE_ARM := [
    Line(false, [Open], false),                             // if c {
    Line(false, [Let("g"), LockCall, Semicolon], false),    //   let g = m.lock();
    Line(false, [Close, Open], false),                      // } else {
    Line(false, [Await(false), Semicolon], false)]          //   io().await;

  lemma ElseArmDepths()
    ensures Depth(Nets(ELSE_ARM), 1) == 1 && Depth(Nets(ELSE_ARM), 2) == 1 && Depth(Nets(ELSE_ARM), 3) == 1
    ensures Net([Close, Open][..1]) == -1 && Net([Close, Open]) == 0
  {
    var nets := Nets(ELSE_ARM);
    var guarded: seq<Token> := [Let("g"), LockCall, Semicolon];
    assert [Open][..0] == [] && [Close, Open][..1] == [Close];
    assert guarded[..2] == [Let("g"), LockCall] && guarded[..2][..1] == [Let("g")];
    assert Net([Let("g")]) == 0 && Net(guarded[..2]) == 0;
    assert nets[0] == 1 && nets[1] == 0 && nets[2] == 0;
  }

  lemma ElseArmGuard()
    ensures Acquired(ELSE_ARM, 1) == Some("g") && AcquiredDepth(ELSE_ARM, 1) == 1
  {
    var guarded: seq<Token> := [Let("g"), LockCall, Semicolon];
    ElseArmDepths();
    assert guarded[0] != LockCall && guarded[1] == LockCall && guarded[..1] == [Let("g")];
    assert FirstLock(guarded) == 1;
  }

  /**
   The documented release by block scope fails on `} else {`: a guard taken in the `if` arm is
   reported at an await of the `else` arm.
   */
  lemma ElseArmIsBlamed()
    ensures Reported(ELSE_ARM, false, 3, 1) && !InScopeThroughout(ELSE_ARM, 1, 3) && !Tidy(ELSE_ARM[2].tokens, 0)
  {
    ElseArmStaysCharged();
    ElseArmIsLeft();
  }

  lemma ElseArmStaysCharged()
    ensures Reported(ELSE_ARM, false, 3, 1)
  {
    ElseArmDepths();
    ElseArmGuard();
    assert !InSync(ELSE_ARM, 1);
    assert Alive(ELSE_ARM, 1, 3) by {
      assert Dropped(ELSE_ARM[2].tokens) != Some("g");
    }
    assert ELSE_ARM[3].tokens[0] == Await(false);
  }

  lemma ElseArmIsLeft()
    ensures !InScopeThroughout(ELSE_ARM, 1, 3) && !Tidy(ELSE_ARM[2].tokens, 0)
  {
    ElseArmDepths();
    ElseArmGuard();
    var crossing: seq<Token> := [Close, Open];
    assert ELSE_ARM[2].tokens == crossing && crossing[..0] == [] && crossing[..2] == crossing;
    assert Depth(Nets(ELSE_ARM), 2) + Net(crossing[..1]) == 0;
  }
}
