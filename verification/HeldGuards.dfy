/** Guards really held at an await, token by token, and when the await gate reports just these. */
module HeldGuards {
  import opened Prelude
  import opened ScopeLines
  import opened Tokens
  import opened AwaitGuard

  // A guard is held from its lock call on until a brace closes its scope or a `drop` names it, wherever on a
  // line that stands. An await that merely acquires a lock does not count, as in the gate.

  /** A guard of this name, `spare` scopes further out, survives the tokens. */
  predicate Keeps(tokens: seq<Token>, spare: int, name: string) {
    StaysAbove(tokens, -spare) && Drop(name) !in tokens
  }

  /** The gate takes it to survive them: it looks at the line's end and its first `drop`. */
  predicate SeemsToKeep(tokens: seq<Token>, spare: int, name: string) {
    Net(tokens) >= -spare && Dropped(tokens) != Some(name)
  }

  /** What follows the lock call on its line. */
  function Behind(tokens: seq<Token>): seq<Token> {
    var lock := FirstLock(tokens);
    if lock < |tokens| then tokens[lock + 1..] else []
  }

  /** How many scopes the guard of line j is further out than the start of line i. */
  function Spare(lines: seq<Line>, j: nat, i: nat): int
    requires j < |lines| && i <= |lines|
  {
    Depth(Nets(lines), i) - AcquiredDepth(lines, j)
  }

  /** The guard of line j is held in front of token p of line i. */
  predicate HeldTo(lines: seq<Line>, j: nat, i: nat, p: nat)
    requires j <= i < |lines| && p <= |lines[i].tokens| && Acquired(lines, j).Some?
  {
    var name, lock := Acquired(lines, j).value, FirstLock(lines[j].tokens);
    if i == j then lock < p && Keeps(Behind(lines[j].tokens)[..p - lock - 1], 0, name)
    else
      && Keeps(Behind(lines[j].tokens), 0, name)
      && (forall m :: j < m < i ==> Keeps(lines[m].tokens, Spare(lines, j, m), name))
      && Keeps(lines[i].tokens[..p], Spare(lines, j, i), name)
  }

  /** It is held across an await of line i. */
  predicate HeldAcross(lines: seq<Line>, j: nat, i: nat)
    requires j <= i < |lines| && Acquired(lines, j).Some?
  {
    exists p :: 0 <= p < |lines[i].tokens| && lines[i].tokens[p] == Await(false) && HeldTo(lines, j, i, p)
  }

  /** The gate's findings about the two lines. */
  predicate Charged(lines: seq<Line>, includeTests: bool, j: nat, i: nat)
    requires j <= i < |lines|
  {
    j < i && Reported(lines, includeTests, i, j)
  }

  // ----- Token facts --------------------------------------------------------------------------------

  lemma {:induction false} DroppedIsDrop(tokens: seq<Token>, name: string)
    ensures Dropped(tokens) == Some(name) ==> Drop(name) in tokens
    ensures Dropped(tokens).None? ==> Drop(name) !in tokens
  {
    if tokens != [] && !tokens[0].Drop? {
      DroppedIsDrop(tokens[1..], name);
      assert forall t :: t in tokens <==> t == tokens[0] || t in tokens[1..];
    }
  }

  /** The gate never takes a guard that survives for gone. */
  lemma {:induction false} KeepsIsSeen(tokens: seq<Token>, spare: int, name: string)
    ensures Keeps(tokens, spare, name) ==> SeemsToKeep(tokens, spare, name)
  {
    DroppedIsDrop(tokens, name);
    assert tokens[..|tokens|] == tokens;
  }

  lemma {:induction false} KeepsIff(tokens: seq<Token>, spare: int, name: string)
    ensures Keeps(tokens, spare, name) <==> Low(tokens) >= -spare && Drop(name) !in tokens
  {
    LowIsLeast(tokens, -spare);
  }

  lemma {:induction false} KeepsPrefix(tokens: seq<Token>, p: nat, spare: int, name: string)
    requires p <= |tokens| && Keeps(tokens, spare, name)
    ensures Keeps(tokens[..p], spare, name)
  {
    PrefixStaysAbove(tokens, p, -spare);
  }

  /** Up to the lock call the line is at the guard's depth. */
  lemma {:induction false} BehindLock(tokens: seq<Token>)
    requires FirstLock(tokens) < |tokens|
    ensures Net(tokens) == Net(tokens[..FirstLock(tokens)]) + Net(Behind(tokens))
  {
    var lock := FirstLock(tokens);
    NetStep(tokens, lock);
    NetConcat(tokens[..lock + 1], tokens[lock + 1..]);
    assert tokens == tokens[..lock + 1] + tokens[lock + 1..];
  }

  lemma {:induction false} AcquiredLocks(lines: seq<Line>, j: nat)
    requires j < |lines| && Acquired(lines, j).Some?
    ensures FirstLock(lines[j].tokens) < |lines[j].tokens|
    ensures Spare(lines, j, j + 1) == Net(Behind(lines[j].tokens))
  {
    BehindLock(lines[j].tokens);
  }

  predicate SeemsAlive(lines: seq<Line>, j: nat, i: nat)
    requires j < i <= |lines| && Acquired(lines, j).Some?
  {
    && Net(Behind(lines[j].tokens)) >= 0
    && forall m :: j < m < i ==> SeemsToKeep(lines[m].tokens, Spare(lines, j, m), Acquired(lines, j).value)
  }

  lemma {:induction false} SeemsAliveStep(lines: seq<Line>, j: nat, i: nat)
    requires j < i < |lines| && Acquired(lines, j).Some?
    ensures SeemsAlive(lines, j, i + 1) <==>
            SeemsAlive(lines, j, i) && SeemsToKeep(lines[i].tokens, Spare(lines, j, i), Acquired(lines, j).value)
  {
  }

  lemma {:induction false} SpareStep(lines: seq<Line>, j: nat, i: nat)
    requires j < |lines| && i < |lines|
    ensures Spare(lines, j, i + 1) == Spare(lines, j, i) + Net(lines[i].tokens)
  {
  }

  /** What the gate takes for alive, line by line. */
  lemma {:induction false} AliveIff(lines: seq<Line>, j: nat, i: nat)
    requires j < i <= |lines| && Acquired(lines, j).Some?
    ensures Alive(lines, j, i) <==> SeemsAlive(lines, j, i)
  {
    if i == j + 1 {
      AcquiredLocks(lines, j);
      AliveAtOwnLineEnd(lines, j);
    } else {
      AliveIff(lines, j, i - 1);
      AliveStep(lines, j, i - 1);
      SeemsAliveStep(lines, j, i - 1);
      SpareStep(lines, j, i - 1);
    }
  }

  lemma {:induction false} AliveSpares(lines: seq<Line>, j: nat, i: nat)
    requires j < i <= |lines| && Acquired(lines, j).Some? && Alive(lines, j, i)
    ensures forall m :: j < m <= i ==> Spare(lines, j, m) >= 0
  {
    forall m | j < m <= i ensures Spare(lines, j, m) >= 0 {
      assert Depth(Nets(lines), m) >= AcquiredDepth(lines, j);
    }
  }

  /** On a later line the first await decides. */
  lemma {:induction false} FirstAwaitDecides(lines: seq<Line>, j: nat, i: nat)
    requires j < i < |lines| && Acquired(lines, j).Some?
    ensures HeldAcross(lines, j, i) <==>
            Await(false) in lines[i].tokens && HeldTo(lines, j, i, First(lines[i].tokens, Await(false)))
  {
    var tokens := lines[i].tokens;
    var first := First(tokens, Await(false));
    if p :| 0 <= p < |tokens| && tokens[p] == Await(false) && HeldTo(lines, j, i, p) {
      KeepsPrefix(tokens[..p], first, Spare(lines, j, i), Acquired(lines, j).value);
      assert tokens[..p][..first] == tokens[..first];
    }
  }

  // ----- Two lines --------------------------------------------------------------------------------

  /** The tokens go below the guard's scope or drop its name somewhere. */
  predicate Releases(tokens: seq<Token>, spare: int, name: string) {
    Low(tokens) < -spare || Drop(name) in tokens
  }

  /** Some line from the lock call up to the first await of line i does. */
  predicate LetsGo(lines: seq<Line>, j: nat, i: nat)
    requires j < i < |lines| && Acquired(lines, j).Some?
  {
    var name := Acquired(lines, j).value;
    || Releases(Behind(lines[j].tokens), 0, name)
    || (exists m :: j < m < i && Releases(lines[m].tokens, Spare(lines, j, m), name))
    || Releases(lines[i].tokens[..First(lines[i].tokens, Await(false))], Spare(lines, j, i), name)
  }

  lemma {:induction false} KeptOrReleased(tokens: seq<Token>, spare: int, name: string)
    ensures Keeps(tokens, spare, name) <==> !Releases(tokens, spare, name)
    ensures Keeps(tokens, spare, name) ==> SeemsToKeep(tokens, spare, name)
  {
    KeepsIff(tokens, spare, name);
    KeepsIsSeen(tokens, spare, name);
  }

  /**
   Where a visible guard outside the synchronous regions is concerned, a report is false exactly when some line
   from the lock call up to the await goes below the guard's scope or drops its name, and a guard held across an
   await is missed exactly when the await is on the guard's own line or shares its line with an await that
   acquires a lock.
   */
  lemma {:induction false} ErrorsIff(lines: seq<Line>, includeTests: bool, j: nat, i: nat)
    requires j <= i < |lines| && Acquired(lines, j).Some?
    requires Visible(lines, includeTests, i) && !InSync(lines, j)
    ensures Charged(lines, includeTests, j, i) && !HeldAcross(lines, j, i) <==>
            Charged(lines, includeTests, j, i) && LetsGo(lines, j, i)
    ensures HeldAcross(lines, j, i) && !Charged(lines, includeTests, j, i) <==>
            HeldAcross(lines, j, i) && (j == i || Await(true) in lines[i].tokens)
  {
    if j < i {
      FirstAwaitDecides(lines, j, i);
      AliveIff(lines, j, i);
      var name := Acquired(lines, j).value;
      KeptOrReleased(Behind(lines[j].tokens), 0, name);
      KeptOrReleased(lines[i].tokens[..First(lines[i].tokens, Await(false))], Spare(lines, j, i), name);
      forall m | j < m < i
        ensures Keeps(lines[m].tokens, Spare(lines, j, m), name) <==>
                !Releases(lines[m].tokens, Spare(lines, j, m), name)
        ensures Keeps(lines[m].tokens, Spare(lines, j, m), name) ==>
                SeemsToKeep(lines[m].tokens, Spare(lines, j, m), name)
      {
        KeptOrReleased(lines[m].tokens, Spare(lines, j, m), name);
      }
    }
  }

  // ----- Lines the gate reads right -------------------------------------------------------------------

  /** Between lock and await: the line is deepest down at one of its ends, and all its drops name one guard. */
  predicate BetweenClean(tokens: seq<Token>) {
    && Low(tokens) == (if Net(tokens) < 0 then Net(tokens) else 0)
    && forall t :: t in tokens && t.Drop? ==> Dropped(tokens) == Some(t.dropped)
  }

  /** As the await's line: no brace closed and nothing dropped before its first await, and no other kind of await. */
  predicate AwaitClean(tokens: seq<Token>) {
    Await(false) in tokens ==>
      var before := tokens[..First(tokens, Await(false))];
      Await(true) !in tokens && Low(before) == 0 && forall t :: t in before ==> !t.Drop?
  }

  /** The tokens hold an await the guard is still held at. */
  predicate AwaitsHeld(tokens: seq<Token>, name: string) {
    exists p :: 0 <= p < |tokens| && tokens[p] == Await(false) && Keeps(tokens[..p], 0, name)
  }

  /** Behind its lock call: not held at an await, and gone at the line's end unless never let go. */
  predicate RestClean(rest: seq<Token>, name: string) {
    !AwaitsHeld(rest, name) && (Net(rest) >= 0 ==> Keeps(rest, 0, name))
  }

  /** The same for a guard whose name comes from an earlier line and can be any. */
  predicate RestCleanForAll(rest: seq<Token>) {
    && (forall p :: 0 <= p < |rest| && rest[p] == Await(false) ==> Low(rest[..p]) < 0)
    && (Net(rest) >= 0 ==> Low(rest) == 0 && forall t :: t in rest ==> !t.Drop?)
  }

  /** As the lock's line: for the binding on the line or, if none begins or ends there before the lock, for any. */
  predicate OwnClean(tokens: seq<Token>) {
    var lock := FirstLock(tokens);
    lock < |tokens| ==>
      match Pending(tokens, lock, None)
      case Some(name) => RestClean(Behind(tokens), name)
      case None => Pending(tokens, lock, Some("")).Some? ==> RestCleanForAll(Behind(tokens))
  }

  predicate Clean(l: Line) {
    BetweenClean(l.tokens) && AwaitClean(l.tokens) && (l.spawnBlocking || OwnClean(l.tokens))
  }

  /** The gate charges a pair of lines exactly when the guard of the first is held across an await of the second. */
  predicate PairRight(lines: seq<Line>, includeTests: bool, j: nat, i: nat)
    requires j <= i < |lines|
  {
    Visible(lines, includeTests, i) && Acquired(lines, j).Some? && !InSync(lines, j) ==>
      (Charged(lines, includeTests, j, i) <==> HeldAcross(lines, j, i))
  }

  predicate FileRight(lines: seq<Line>, includeTests: bool) {
    forall j, i :: 0 <= j <= i < |lines| ==> PairRight(lines, includeTests, j, i)
  }

  lemma {:induction false} CleanKeepsIff(tokens: seq<Token>, spare: int, name: string)
    requires BetweenClean(tokens) && spare >= 0
    ensures Keeps(tokens, spare, name) <==> SeemsToKeep(tokens, spare, name)
  {
    KeepsIsSeen(tokens, spare, name);
    KeepsIff(tokens, spare, name);
    if Drop(name) in tokens {
      assert Drop(name).dropped == name;
    }
  }

  /** The lock call of the line can be charged to a binding of this name. */
  predicate Binds(tokens: seq<Token>, name: string) {
    FirstLock(tokens) < |tokens| && Pending(tokens, FirstLock(tokens), Some(name)) == Some(name)
  }

  lemma {:induction false} PendingCases(tokens: seq<Token>, p: nat, name: string)
    requires p <= |tokens|
    ensures forall before :: Pending(tokens, p, before) == Some(name) ==> Pending(tokens, p, Some(name)) == Some(name)
    ensures Pending(tokens, p, None).Some? ==> Pending(tokens, p, Some(name)) == Pending(tokens, p, None)
    ensures Pending(tokens, p, None).None? ==>
              if Pending(tokens, p, Some("")).Some? then Pending(tokens, p, Some(name)) == Some(name)
              else Pending(tokens, p, Some(name)) == None
  {
    if p > 0 && !tokens[p - 1].Semicolon? && !tokens[p - 1].Let? {
      PendingCases(tokens, p - 1, name);
    }
  }

  /** A name longer than all that are dropped. */
  function NewName(tokens: seq<Token>): (name: string)
    ensures name != "" && forall t :: t in tokens && t.Drop? ==> |t.dropped| < |name|
  {
    if tokens == [] then "x"
    else
      var rest := NewName(tokens[1..]);
      assert tokens == [tokens[0]] + tokens[1..];
      if tokens[0].Drop? then rest + tokens[0].dropped else rest
  }

  lemma {:induction false} RestCleanIff(rest: seq<Token>)
    ensures RestCleanForAll(rest) <==> forall name :: RestClean(rest, name)
  {
    forall name, p | 0 <= p <= |rest|
      ensures Keeps(rest[..p], 0, name) <==> Low(rest[..p]) >= 0 && Drop(name) !in rest[..p]
    {
      KeepsIff(rest[..p], 0, name);
    }
    assert rest[..|rest|] == rest;
    if RestCleanForAll(rest) {
      forall name ensures RestClean(rest, name) {
        assert Drop(name).Drop?;
      }
    } else if p :| 0 <= p < |rest| && rest[p] == Await(false) && Low(rest[..p]) >= 0 {
      var name := NewName(rest);
      assert Drop(name).dropped == name;
      assert Keeps(rest[..p], 0, name);
      assert !RestClean(rest, name);
    } else {
      var name := if t :| t in rest && t.Drop? then t.dropped else "";
      assert forall t :: t in rest && t.Drop? && t.dropped == name ==> t == Drop(name);
      assert !RestClean(rest, name);
    }
  }

  lemma {:induction false} OwnCleanIff(tokens: seq<Token>)
    ensures OwnClean(tokens) <==> forall name :: Binds(tokens, name) ==> RestClean(Behind(tokens), name)
  {
    var lock := FirstLock(tokens);
    if lock < |tokens| {
      forall name
        ensures Binds(tokens, name) <==>
                if Pending(tokens, lock, None).Some? then Pending(tokens, lock, None) == Some(name)
                else Pending(tokens, lock, Some("")).Some?
      {
        PendingCases(tokens, lock, name);
      }
      RestCleanIff(Behind(tokens));
      if Pending(tokens, lock, None).Some? {
        assert Binds(tokens, Pending(tokens, lock, None).value);
      }
    }
  }

  lemma {:induction false} AcquiredBinds(lines: seq<Line>, j: nat)
    requires j < |lines| && Acquired(lines, j).Some?
    ensures Binds(lines[j].tokens, Acquired(lines, j).value)
  {
    PendingCases(lines[j].tokens, FirstLock(lines[j].tokens), Acquired(lines, j).value);
  }

  lemma {:induction false} OwnSync(lines: seq<Line>, j: nat)
    requires j < |lines| && lines[j].spawnBlocking
    ensures InSync(lines, j)
  {
    assert SyncMarks(lines)[j] && StillInside(Nets(lines), j, j);
  }

  lemma {:induction false} OwnAwait(lines: seq<Line>, j: nat, p: nat)
    requires j < |lines| && Acquired(lines, j).Some? && FirstLock(lines[j].tokens) < p < |lines[j].tokens|
    ensures var rest, q := Behind(lines[j].tokens), p - FirstLock(lines[j].tokens) - 1;
            q < |rest| && rest[q] == lines[j].tokens[p] &&
            (HeldTo(lines, j, j, p) <==> Keeps(rest[..q], 0, Acquired(lines, j).value))
  {
  }

  /** On the guard's own line. */
  lemma {:induction false} OwnLineIff(lines: seq<Line>, j: nat)
    requires j < |lines| && Acquired(lines, j).Some?
    ensures HeldAcross(lines, j, j) <==> AwaitsHeld(Behind(lines[j].tokens), Acquired(lines, j).value)
  {
    AcquiredLocks(lines, j);
    var tokens, lock := lines[j].tokens, FirstLock(lines[j].tokens);
    if p :| 0 <= p < |tokens| && tokens[p] == Await(false) && HeldTo(lines, j, j, p) {
      OwnAwait(lines, j, p);
    }
    if AwaitsHeld(Behind(tokens), Acquired(lines, j).value) {
      var q :| 0 <= q < |Behind(tokens)| && Behind(tokens)[q] == Await(false) &&
               Keeps(Behind(tokens)[..q], 0, Acquired(lines, j).value);
      OwnAwait(lines, j, q + lock + 1);
    }
  }

  /** The guard of line j is really held at the start of line i. */
  predicate HeldUntil(lines: seq<Line>, j: nat, i: nat)
    requires j < i <= |lines| && Acquired(lines, j).Some?
  {
    && Keeps(Behind(lines[j].tokens), 0, Acquired(lines, j).value)
    && forall m :: j < m < i ==> Keeps(lines[m].tokens, Spare(lines, j, m), Acquired(lines, j).value)
  }

  lemma {:induction false} CleanOwnLine(lines: seq<Line>, j: nat)
    requires j < |lines| && Acquired(lines, j).Some? && !InSync(lines, j) && Clean(lines[j])
    ensures RestClean(Behind(lines[j].tokens), Acquired(lines, j).value)
  {
    if lines[j].spawnBlocking {
      OwnSync(lines, j);
    }
    AcquiredBinds(lines, j);
    OwnCleanIff(lines[j].tokens);
  }

  lemma {:induction false} CleanAlive(lines: seq<Line>, j: nat, i: nat)
    requires j < i <= |lines| && Acquired(lines, j).Some?
    requires RestClean(Behind(lines[j].tokens), Acquired(lines, j).value)
    requires forall m :: j < m < i ==> BetweenClean(lines[m].tokens)
    ensures Alive(lines, j, i) <==> HeldUntil(lines, j, i)
  {
    var name := Acquired(lines, j).value;
    AliveIff(lines, j, i);
    KeepsIsSeen(Behind(lines[j].tokens), 0, name);
    if HeldUntil(lines, j, i) {
      forall m | j < m < i ensures SeemsToKeep(lines[m].tokens, Spare(lines, j, m), name) {
        KeepsIsSeen(lines[m].tokens, Spare(lines, j, m), name);
      }
    }
    if Alive(lines, j, i) {
      AliveSpares(lines, j, i);
      forall m | j < m < i ensures Keeps(lines[m].tokens, Spare(lines, j, m), name) {
        CleanKeepsIff(lines[m].tokens, Spare(lines, j, m), name);
      }
    }
  }

  /** A file of clean lines is read right. */
  lemma {:induction false} CleanFileIsRight(lines: seq<Line>, includeTests: bool)
    requires forall l :: l in lines ==> Clean(l)
    ensures FileRight(lines, includeTests)
  {
    forall j, i | 0 <= j <= i < |lines| ensures PairRight(lines, includeTests, j, i) {
      CleanPairIsRight(lines, includeTests, j, i);
    }
  }

  lemma {:induction false} CleanPairIsRight(lines: seq<Line>, includeTests: bool, j: nat, i: nat)
    requires j <= i < |lines| && forall l :: l in lines ==> Clean(l)
    ensures PairRight(lines, includeTests, j, i)
  {
    if Acquired(lines, j).Some? && !InSync(lines, j) {
      assert lines[j] in lines && lines[i] in lines;
      CleanOwnLine(lines, j);
      if j == i {
        OwnLineIff(lines, j);
      } else {
        forall m | j < m < i ensures BetweenClean(lines[m].tokens) {
          assert lines[m] in lines;
        }
        CleanAlive(lines, j, i);
        LaterPairIsRight(lines, includeTests, j, i);
      }
    }
  }

  lemma {:induction false} LaterPairIsRight(lines: seq<Line>, includeTests: bool, j: nat, i: nat)
    requires j < i < |lines| && Acquired(lines, j).Some? && AwaitClean(lines[i].tokens)
    requires Alive(lines, j, i) <==> HeldUntil(lines, j, i)
    ensures PairRight(lines, includeTests, j, i)
  {
    var tokens := lines[i].tokens;
    FirstAwaitDecides(lines, j, i);
    if Alive(lines, j, i) && Await(false) in tokens {
      AliveSpares(lines, j, i);
      KeepsIff(tokens[..First(tokens, Await(false))], Spare(lines, j, i), Acquired(lines, j).value);
    }
  }

  predicate AllClean(lines: seq<Line>) {
    forall l :: l in lines ==> Clean(l)
  }

  // ----- And no others --------------------------------------------------------------------------------

  function GuardLine(name: string): Line {
    Line(false, [Let(name), LockCall], false)
  }

  function LetLine(name: string): Line {
    Line(false, [Let(name)], false)
  }

  function OpenLine(n: nat): Line {
    Line(false, Braces(n), false)
  }

  const AWAIT := Line(false, [Await(false)], false)

  lemma {:induction false} OnlyOpened(tokens: seq<Token>)
    requires forall t :: t in tokens ==> t != Close
    ensures Low(tokens) == 0
  {
    if tokens != [] {
      var n := |tokens| - 1;
      assert tokens[n] in tokens && forall t :: t in tokens[..n] ==> t in tokens;
      OnlyOpened(tokens[..n]);
    }
  }

  /** A line that closes, drops and awaits nothing is clean. */
  lemma {:induction false} PlainIsClean(l: Line)
    requires forall t :: t in l.tokens ==> t != Close && !t.Drop? && !t.Await?
    ensures Clean(l)
  {
    var rest := Behind(l.tokens);
    assert forall t :: t in rest ==> t in l.tokens;
    OnlyOpened(l.tokens);
    OnlyOpened(rest);
    LowIsLeast(rest, 0);
    forall name ensures RestClean(rest, name) {
    }
    OwnCleanIff(l.tokens);
  }

  lemma {:induction false} AwaitLineIsClean()
    ensures Clean(AWAIT)
  {
    assert AWAIT.tokens[..0] == [];
  }

  lemma {:induction false} HelpersAreClean(name: string, n: nat)
    ensures AllClean([GuardLine(name), OpenLine(n)]) && AllClean([LetLine(name)]) && AllClean([AWAIT])
  {
    PlainIsClean(GuardLine(name));
    PlainIsClean(LetLine(name));
    PlainIsClean(OpenLine(n));
    AwaitLineIsClean();
  }

  /** The guard line's guard is at depth 0, free, and held at the line's end. */
  lemma {:induction false} GuardLineHolds(lines: seq<Line>, name: string)
    requires |lines| > 1 && lines[0] == GuardLine(name)
    ensures Acquired(lines, 0) == Some(name) && AcquiredDepth(lines, 0) == 0 && !InSync(lines, 0)
    ensures Behind(lines[0].tokens) == [] && Spare(lines, 0, 1) == 0
  {
    var tokens := lines[0].tokens;
    assert tokens[..1] == [Let(name)] && tokens[..1][..0] == [] && tokens[..0] == [];
    assert tokens[0] != LockCall && tokens[1] == LockCall;
    assert FirstLock(tokens) == 1;
    AcquiredLocks(lines, 0);
  }

  /** A name and a number of scopes for which the gate and the tokens differ. */
  lemma {:induction false} BetweenFails(tokens: seq<Token>) returns (spare: nat, name: string)
    requires !BetweenClean(tokens)
    ensures SeemsToKeep(tokens, spare, name) && !Keeps(tokens, spare, name)
  {
    if Low(tokens) != (if Net(tokens) < 0 then Net(tokens) else 0) {
      spare := if Net(tokens) < 0 then -Net(tokens) else 0;
      name := if Dropped(tokens) == Some("") then "x" else "";
    } else {
      var t :| t in tokens && t.Drop? && Dropped(tokens) != Some(t.dropped);
      assert t == Drop(t.dropped);
      spare, name := -Low(tokens), t.dropped;
    }
    KeepsIff(tokens, spare, name);
  }

  /** A guard far enough out, a line that lets it go unseen, and an await. */
  lemma {:induction false} BetweenMisread(l: Line, spare: nat, name: string)
    requires SeemsToKeep(l.tokens, spare, name) && !Keeps(l.tokens, spare, name)
    ensures !FileRight([GuardLine(name), OpenLine(spare), l, AWAIT], true)
  {
    var lines := [GuardLine(name), OpenLine(spare), l, AWAIT];
    GuardLineHolds(lines, name);
    BracesAre(spare);
    SpareStep(lines, 0, 1);
    assert lines[1] == OpenLine(spare) && lines[2] == l && lines[3] == AWAIT;
    NoDrops(Braces(spare));
    assert SeemsAlive(lines, 0, 3);
    AliveIff(lines, 0, 3);
    FirstAwaitDecides(lines, 0, 3);
    assert AWAIT.tokens[0] == Await(false);
    assert !PairRight(lines, true, 0, 3);
  }

  lemma {:induction false} NoDrops(tokens: seq<Token>)
    requires forall t :: t in tokens ==> !t.Drop?
    ensures Dropped(tokens).None?
  {
    if tokens != [] {
      assert tokens[0] in tokens && forall t :: t in tokens[1..] ==> t in tokens;
      NoDrops(tokens[1..]);
    }
  }

  /** A guard that the line lets go before its first await, or one held at an await that is not looked at. */
  lemma {:induction false} AwaitFails(tokens: seq<Token>) returns (spare: nat, name: string)
    requires !AwaitClean(tokens)
    ensures Await(false) in tokens
    ensures HoldingAwait(tokens) <==> !Keeps(tokens[..First(tokens, Await(false))], spare, name)
  {
    var before := tokens[..First(tokens, Await(false))];
    if Await(true) in tokens {
      spare, name := -Low(before), NewName(before);
      assert Drop(name).dropped == name;
    } else if Low(before) < 0 {
      spare, name := 0, "";
    } else {
      var t :| t in before && t.Drop?;
      assert t == Drop(t.dropped);
      spare, name := 0, t.dropped;
    }
    KeepsIff(before, spare, name);
  }

  lemma {:induction false} AwaitMisread(l: Line, spare: nat, name: string)
    requires Await(false) in l.tokens
    requires HoldingAwait(l.tokens) <==> !Keeps(l.tokens[..First(l.tokens, Await(false))], spare, name)
    ensures !FileRight([GuardLine(name), OpenLine(spare), l], true)
  {
    var lines := [GuardLine(name), OpenLine(spare), l];
    GuardLineHolds(lines, name);
    BracesAre(spare);
    SpareStep(lines, 0, 1);
    assert lines[1] == OpenLine(spare) && lines[2] == l;
    NoDrops(Braces(spare));
    assert SeemsAlive(lines, 0, 2);
    AliveIff(lines, 0, 2);
    FirstAwaitDecides(lines, 0, 2);
    LowIsLeast(Braces(spare), 0);
    LowIsLeast([], 0);
    assert Keeps(lines[1].tokens, 0, name);
    assert !PairRight(lines, true, 0, 2);
  }

  /** A binding from the line before, charged with the line's lock call. */
  lemma {:induction false} CarriedIn(lines: seq<Line>, name: string)
    requires |lines| > 1 && lines[0] == LetLine(name) && Binds(lines[1].tokens, name) && !lines[1].spawnBlocking
    ensures Acquired(lines, 1) == Some(name) && !InSync(lines, 1)
  {
    assert Carried(lines, 1) == Some(name);
    assert !SyncMarks(lines)[0] && !SyncMarks(lines)[1];
  }

  lemma {:induction false} OwnMisread(l: Line, name: string)
    requires Binds(l.tokens, name) && !l.spawnBlocking && !RestClean(Behind(l.tokens), name)
    ensures !FileRight([LetLine(name), l, AWAIT], true)
  {
    var lines := [LetLine(name), l, AWAIT];
    assert lines[1] == l && lines[2] == AWAIT;
    CarriedIn(lines, name);
    OwnLineIff(lines, 1);
    if AwaitsHeld(Behind(l.tokens), name) {
      assert !PairRight(lines, true, 1, 1);
    } else {
      assert SeemsAlive(lines, 1, 2);
      AliveIff(lines, 1, 2);
      FirstAwaitDecides(lines, 1, 2);
      assert AWAIT.tokens[0] == Await(false);
      assert !PairRight(lines, true, 1, 2);
    }
  }

  predicate Misread(pre: seq<Line>, l: Line, post: seq<Line>) {
    AllClean(pre) && AllClean(post) && !FileRight(pre + [l] + post, true)
  }

  lemma {:induction false} BetweenCase(l: Line) returns (pre: seq<Line>, post: seq<Line>)
    requires !BetweenClean(l.tokens)
    ensures Misread(pre, l, post)
  {
    var spare, name := BetweenFails(l.tokens);
    BetweenMisread(l, spare, name);
    HelpersAreClean(name, spare);
    pre, post := [GuardLine(name), OpenLine(spare)], [AWAIT];
    assert pre + [l] + post == [GuardLine(name), OpenLine(spare), l, AWAIT];
  }

  lemma {:induction false} AwaitCase(l: Line) returns (pre: seq<Line>, post: seq<Line>)
    requires !AwaitClean(l.tokens)
    ensures Misread(pre, l, post)
  {
    var spare, name := AwaitFails(l.tokens);
    AwaitMisread(l, spare, name);
    HelpersAreClean(name, spare);
    pre, post := [GuardLine(name), OpenLine(spare)], [];
    assert pre + [l] + post == [GuardLine(name), OpenLine(spare), l];
  }

  lemma {:induction false} OwnCase(l: Line) returns (pre: seq<Line>, post: seq<Line>)
    requires !OwnClean(l.tokens) && !l.spawnBlocking
    ensures Misread(pre, l, post)
  {
    OwnCleanIff(l.tokens);
    var name :| Binds(l.tokens, name) && !RestClean(Behind(l.tokens), name);
    OwnMisread(l, name);
    HelpersAreClean(name, 0);
    pre, post := [LetLine(name)], [AWAIT];
    assert pre + [l] + post == [LetLine(name), l, AWAIT];
  }

  /** Some clean lines around it with which the line is read wrong. */
  lemma {:induction false} UncleanIsMisread(l: Line) returns (pre: seq<Line>, post: seq<Line>)
    requires !Clean(l)
    ensures Misread(pre, l, post)
  {
    if !BetweenClean(l.tokens) {
      pre, post := BetweenCase(l);
    } else if !AwaitClean(l.tokens) {
      pre, post := AwaitCase(l);
    } else {
      pre, post := OwnCase(l);
    }
  }

  /**
   A line is read right among all clean lines exactly when it is clean itself: this is the weakest condition on
   single lines under which the gate reports just the guards held across an await.
   */
  lemma {:induction false} LineIsReadRightIff(l: Line)
    ensures (forall pre, post :: AllClean(pre) && AllClean(post) ==> FileRight(pre + [l] + post, true)) <==> Clean(l)
  {
    if Clean(l) {
      forall pre, post | AllClean(pre) && AllClean(post) ensures FileRight(pre + [l] + post, true) {
        CleanFileIsRight(pre + [l] + post, true);
      }
    } else {
      var pre, post := UncleanIsMisread(l);
    }
  }

  /** Lines that are not clean: releases by block scope and by drop that the gate overlooks. */
  lemma {:induction false} OverlookedReleases()
    ensures !BetweenClean([Close, Open])             // } else {
    ensures !BetweenClean([Drop("a"), Drop("b")])    // drop(a); drop(b);
    ensures !AwaitClean([Close, Await(false)])       // }.await;
    ensures !AwaitClean([Drop("g"), Await(false)])   // drop(g); io().await;
  {
    assert [Close, Open][..1] == [Close] && [Close][..0] == [];
    assert [Drop("a"), Drop("b")][1] == Drop("b");
    assert [Close, Await(false)][..1] == [Close] && [Close, Await(false)][1] == Await(false);
    assert [Drop("g"), Await(false)][..1] == [Drop("g")] && [Drop("g"), Await(false)][1] == Await(false);
  }

  /** And a drop or an await on the guard's own line. */
  lemma {:induction false} OverlookedOnOwnLine()
    ensures !OwnClean([Let("g"), LockCall, Semicolon, Drop("g")])      // let g = m.lock(); drop(g);
    ensures !OwnClean([Let("g"), LockCall, Semicolon, Await(false)])   // let g = m.lock(); io().await;
  {
    LockThen(Drop("g"));
    LockThen(Await(false));
    var dropped, awaited := [Semicolon, Drop("g")], [Semicolon, Await(false)];
    assert dropped[1] == Drop("g") && dropped[..1] == [Semicolon] && Net([Semicolon]) == 0;
    assert awaited[1] == Await(false) && awaited[..1] == [Semicolon];
    OnlyOpened([Semicolon]);
    KeepsIff([Semicolon], 0, "g");
  }

  lemma {:induction false} LockThen(t: Token)
    requires t != LockCall
    ensures var tokens := [Let("g"), LockCall, Semicolon, t];
            FirstLock(tokens) == 1 && Pending(tokens, 1, None) == Some("g") && Behind(tokens) == [Semicolon, t]
  {
    var tokens := [Let("g"), LockCall, Semicolon, t];
    assert tokens[1..][0] == LockCall;
  }
}
