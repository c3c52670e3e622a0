/** Brace depth over source lines, and the depth stack the streaming scanners keep. */
module ScopeLines {

  // `nets[i]` is the number of braces line i opens minus the number it closes. A line is attributed the depth
  // at its start; the depth advances at its end. A marked line opens a region that lasts while every
  // end-of-line depth stays strictly above the marked line's own depth.

  /** Depth at the start of line i. */
  function Depth(nets: seq<int>, i: nat): int
    requires i <= |nets|
  {
    if i == 0 then 0 else Depth(nets, i - 1) + nets[i - 1]
  }

  /** At the start of line i, the region opened by line k has not been left. */
  predicate StillInside(nets: seq<int>, k: nat, i: nat)
    requires k <= i <= |nets|
  {
    forall m :: k < m <= i ==> Depth(nets, m) > Depth(nets, k)
  }

  /** The depths pushed by the marked lines among the first n and still open at the start of line i. */
  function OpenRegions(nets: seq<int>, marks: seq<bool>, n: nat, i: nat): seq<int>
    requires n <= i <= |nets| && n <= |marks|
  {
    if n == 0 then []
    else if marks[n - 1] && StillInside(nets, n - 1, i) then
      OpenRegions(nets, marks, n - 1, i) + [Depth(nets, n - 1)]
    else OpenRegions(nets, marks, n - 1, i)
  }

  /** The entries of the stack a scanner keeps when a line ends at depth `depth`. */
  function Below(stack: seq<int>, depth: int): seq<int> {
    BelowOf(stack, |stack|, depth)
  }

  function BelowOf(stack: seq<int>, n: nat, depth: int): seq<int>
    requires n <= |stack|
  {
    if n == 0 then []
    else if depth > stack[n - 1] then BelowOf(stack, n - 1, depth) + [stack[n - 1]]
    else BelowOf(stack, n - 1, depth)
  }

  lemma {:induction false} BelowIgnoresTheRest(stack: seq<int>, d: int, n: nat, depth: int)
    requires n <= |stack|
    ensures BelowOf(stack + [d], n, depth) == BelowOf(stack, n, depth)
  {
    if n > 0 {
      BelowIgnoresTheRest(stack, d, n - 1, depth);
    }
  }

  lemma BelowAppend(stack: seq<int>, d: int, depth: int)
    ensures Below(stack + [d], depth) == if depth > d then Below(stack, depth) + [d] else Below(stack, depth)
  {
    BelowIgnoresTheRest(stack, d, |stack|, depth);
  }

  /** Ending a line turns the regions open before it into the regions open after it. */
  lemma {:induction false} LineEndReleases(nets: seq<int>, marks: seq<bool>, n: nat, i: nat)
    requires n <= i < |nets| && n <= |marks|
    ensures OpenRegions(nets, marks, n, i + 1) == Below(OpenRegions(nets, marks, n, i), Depth(nets, i + 1))
  {
    if n > 0 {
      LineEndReleases(nets, marks, n - 1, i);
      assert StillInside(nets, n - 1, i + 1) <==>
             StillInside(nets, n - 1, i) && Depth(nets, i + 1) > Depth(nets, n - 1);
      if marks[n - 1] && StillInside(nets, n - 1, i) {
        BelowAppend(OpenRegions(nets, marks, n - 1, i), Depth(nets, n - 1), Depth(nets, i + 1));
      }
    }
  }

  /** Filtering the stack after pushing line i's mark: the whole end-of-line update. */
  lemma PushAndRelease(nets: seq<int>, marks: seq<bool>, i: nat)
    requires i < |nets| && i < |marks|
    ensures var pushed := OpenRegions(nets, marks, i, i) + if marks[i] then [Depth(nets, i)] else [];
            OpenRegions(nets, marks, i + 1, i + 1) == Below(pushed, Depth(nets, i + 1))
  {
    LineEndReleases(nets, marks, i, i);
    assert StillInside(nets, i, i + 1) <==> Depth(nets, i + 1) > Depth(nets, i);
    assert OpenRegions(nets, marks, i, i) + [] == OpenRegions(nets, marks, i, i);
    BelowAppend(OpenRegions(nets, marks, i, i), Depth(nets, i), Depth(nets, i + 1));
  }

  predicate Increasing(stack: seq<int>) {
    forall a, b :: 0 <= a < b < |stack| ==> stack[a] < stack[b]
  }

  /** Every open region was opened by a marked line that all later depths exceed. */
  lemma {:induction false} RegionsAreInside(nets: seq<int>, marks: seq<bool>, n: nat, i: nat, d: int, m: nat)
    requires n <= m <= i <= |nets| && n <= |marks| && d in OpenRegions(nets, marks, n, i)
    ensures d < Depth(nets, m)
  {
    if !(marks[n - 1] && StillInside(nets, n - 1, i) && d == Depth(nets, n - 1)) {
      RegionsAreInside(nets, marks, n - 1, i, d, m);
    }
  }

  /** The stack is strictly increasing and lies strictly below the current depth. */
  lemma {:induction false} StackIsSorted(nets: seq<int>, marks: seq<bool>, n: nat, i: nat)
    requires n <= i <= |nets| && n <= |marks|
    ensures Increasing(OpenRegions(nets, marks, n, i))
    ensures forall d :: d in OpenRegions(nets, marks, n, i) ==> d < Depth(nets, i)
  {
    if n > 0 {
      StackIsSorted(nets, marks, n - 1, i);
      var rest := OpenRegions(nets, marks, n - 1, i);
      forall a | 0 <= a < |rest| ensures rest[a] < Depth(nets, n - 1) {
        RegionsAreInside(nets, marks, n - 1, i, rest[a], n - 1);
      }
      forall d | d in OpenRegions(nets, marks, n, i) ensures d < Depth(nets, i) {
        RegionsAreInside(nets, marks, n, i, d, i);
      }
    }
  }

  /** On such a stack the end-of-line filter only ever pops. */
  lemma FilterIsPop(stack: seq<int>, depth: int)
    requires Increasing(stack)
    ensures Below(stack, depth) <= stack
  {
    FilterIsPrefix(stack, |stack|, depth);
  }

  lemma {:induction false} FilterIsPrefix(stack: seq<int>, n: nat, depth: int)
    requires Increasing(stack) && n <= |stack|
    ensures BelowOf(stack, n, depth) <= stack[..n]
  {
    if n > 0 {
      FilterIsPrefix(stack, n - 1, depth);
      if depth > stack[n - 1] {
        KeepsAll(stack, n - 1, depth);
      }
    }
  }

  lemma {:induction false} KeepsAll(stack: seq<int>, n: nat, depth: int)
    requires n <= |stack| && forall a :: 0 <= a < n ==> stack[a] < depth
    ensures BelowOf(stack, n, depth) == stack[..n]
  {
    if n > 0 {
      KeepsAll(stack, n - 1, depth);
    }
  }

  /** The stack is non-empty exactly when some marked line's region is still open. */
  lemma {:induction false} SomethingOpenIff(nets: seq<int>, marks: seq<bool>, n: nat, i: nat)
    requires n <= i <= |nets| && n <= |marks|
    ensures OpenRegions(nets, marks, n, i) != [] <==>
            exists k :: 0 <= k < n && marks[k] && StillInside(nets, k, i)
  {
    if n > 0 {
      SomethingOpenIff(nets, marks, n - 1, i);
      if OpenRegions(nets, marks, n, i) != [] {
        if !(marks[n - 1] && StillInside(nets, n - 1, i)) {
          assert OpenRegions(nets, marks, n - 1, i) != [];
        }
      }
    }
  }

  /** Line i lies in the region of some marked line, or is marked itself. */
  predicate InsideRegion(nets: seq<int>, marks: seq<bool>, i: nat)
    requires i < |nets| && i < |marks|
  {
    exists k :: 0 <= k <= i && marks[k] && StillInside(nets, k, i)
  }

  /** A scanner that has pushed line i's mark tests "inside a region" by its stack being non-empty. */
  lemma PushedIffInside(nets: seq<int>, marks: seq<bool>, i: nat)
    requires i < |nets| && i < |marks|
    ensures InsideRegion(nets, marks, i) <==> OpenRegions(nets, marks, i, i) != [] || marks[i]
  {
    SomethingOpenIff(nets, marks, i, i);
    if marks[i] {
      assert StillInside(nets, i, i);
    }
  }

  /** A marked line has a region at all exactly when it leaves more braces open than it closes. */
  lemma RegionExistsIff(nets: seq<int>, k: nat)
    requires k < |nets|
    ensures (exists i :: k < i <= |nets| && StillInside(nets, k, i)) <==> nets[k] > 0
  {
    if nets[k] > 0 {
      assert StillInside(nets, k, k + 1);
    }
    forall i | k < i <= |nets| && StillInside(nets, k, i) ensures nets[k] > 0 {
      assert Depth(nets, k + 1) > Depth(nets, k);
    }
  }
}
