/** When the lines a depth stack covers are the lines of a block. */
module BlockScopes {
  import opened ScopeLines

  // A depth stack counts braces by whole lines. A marked line opens a region that lasts while every end-of-line
  // depth stays above its own; the block it stands for opens at one brace and lasts until the matching one.

  /** Braces opened minus braces closed on a line, and the least of these differences over its prefixes. */
  datatype Row = Row(net: int, low: int)

  function Nets(rows: seq<Row>): seq<int> {
    seq(|rows|, i requires 0 <= i < |rows| => rows[i].net)
  }

  /**
   Where a block really opens: its line, the braces in front of its own `{` there, and the least
   difference of braces over the prefixes of what follows that `{` on the line.
   */
  datatype Block = Block(line: nat, before: int, low: int)

  /** The depth inside the block. */
  function Inner(rows: seq<Row>, c: Block): int
    requires c.line < |rows|
  {
    Depth(Nets(rows), c.line) + c.before + 1
  }

  /** After every brace up to the start of line i the block is still open. */
  predicate InBlock(rows: seq<Row>, c: Block, i: nat)
    requires c.line < i <= |rows|
  {
    && c.low >= 0
    && (forall m :: c.line < m <= i ==> Depth(Nets(rows), m) >= Inner(rows, c))
    && (forall m :: c.line < m < i ==> Depth(Nets(rows), m) + rows[m].low >= Inner(rows, c))
  }

  /** The line is deepest down at one of its ends. */
  predicate Tidy(l: Row) {
    l.low == if l.net < 0 then l.net else 0
  }

  /** At the end of the block's line: the block is open; the region of line j is open. */
  predicate BlockOpen(pre: seq<Row>, c: Block)
    requires |pre| == c.line + 1
  {
    InBlock(pre, c, |pre|)
  }

  predicate RegionOpen(pre: seq<Row>, j: nat)
    requires j < |pre|
  {
    StillInside(Nets(pre), j, |pre|)
  }

  /** Line i is in the block and not in the region. */
  predicate Misses(rows: seq<Row>, j: nat, c: Block, i: nat)
    requires j <= c.line < i <= |rows|
  {
    InBlock(rows, c, i) && !StillInside(Nets(rows), j, i)
  }

  /** Line i is past the block and still in the region. */
  predicate Blames(rows: seq<Row>, j: nat, c: Block, i: nat)
    requires j <= c.line < i <= |rows|
  {
    StillInside(Nets(rows), j, i) && !InBlock(rows, c, i)
  }

  lemma {:induction false} SamePrefixDepth(pre: seq<Row>, rest: seq<Row>, m: nat)
    requires m <= |pre|
    ensures Depth(Nets(pre + rest), m) == Depth(Nets(pre), m)
  {
    if m > 0 {
      SamePrefixDepth(pre, rest, m - 1);
    }
  }

  function Closing(n: nat): (rows: seq<Row>)
    ensures |rows| == n && forall k :: 0 <= k < n ==> rows[k].net == -1 && Tidy(rows[k])
  {
    if n == 0 then [] else Closing(n - 1) + [Row(-1, -1)]
  }

  /** After `n` lines that close one brace each. */
  lemma {:induction false} ClosingDepth(pre: seq<Row>, n: nat, m: nat)
    requires m <= n
    ensures Depth(Nets(pre + Closing(n)), |pre| + m) == Depth(Nets(pre), |pre|) - m
  {
    if m == 0 {
      SamePrefixDepth(pre, Closing(n), |pre|);
    } else {
      ClosingDepth(pre, n, m - 1);
      assert (pre + Closing(n))[|pre| + m - 1] == Closing(n)[m - 1];
    }
  }

  /** All depths from the end of the prefix to line i lie at or above d. */
  predicate StaysAt(pre: seq<Row>, rest: seq<Row>, i: nat, d: int)
    requires |pre| <= i <= |pre| + |rest|
  {
    forall m :: |pre| <= m <= i ==> Depth(Nets(pre + rest), m) >= d
  }

  /** The block goes on while all depths stay at or above its own, the region while they stay above line j's. */
  lemma OpenAtEnd(pre: seq<Row>, rest: seq<Row>, j: nat, c: Block, i: nat)
    requires j <= c.line && |pre| == c.line + 1 && |pre| <= i <= |pre| + |rest|
    ensures Inner(pre + rest, c) == Inner(pre, c) && Depth(Nets(pre + rest), j) == Depth(Nets(pre), j)
    ensures StillInside(Nets(pre + rest), j, i) <==>
            RegionOpen(pre, j) && StaysAt(pre, rest, i, Depth(Nets(pre), j) + 1)
    ensures InBlock(pre + rest, c, i) ==> BlockOpen(pre, c) && StaysAt(pre, rest, i, Inner(pre, c))
  {
    forall m: nat | m <= |pre| ensures Depth(Nets(pre + rest), m) == Depth(Nets(pre), m) {
      SamePrefixDepth(pre, rest, m);
    }
    var nets := Nets(pre + rest);
    if StillInside(nets, j, i) {
      forall m: nat | j < m <= |pre| ensures Depth(Nets(pre), m) > Depth(Nets(pre), j) {
        assert Depth(nets, m) > Depth(nets, j);
      }
    }
    if RegionOpen(pre, j) && StaysAt(pre, rest, i, Depth(Nets(pre), j) + 1) {
      forall m: nat | j < m <= i ensures Depth(nets, m) > Depth(nets, j) {
        assert m <= |pre| ==> Depth(Nets(pre), m) > Depth(Nets(pre), j);
      }
    }
  }

  /** Over tidy lines, line ends are enough to see that the block is open. */
  lemma TidyBlockStays(pre: seq<Row>, rest: seq<Row>, c: Block, i: nat)
    requires |pre| == c.line + 1 && |pre| <= i <= |pre| + |rest| && BlockOpen(pre, c)
    requires (forall l :: l in rest ==> Tidy(l)) && StaysAt(pre, rest, i, Inner(pre, c))
    ensures InBlock(pre + rest, c, i)
  {
    var rows := pre + rest;
    OpenAtEnd(pre, rest, c.line, c, i);
    forall m | c.line < m < i ensures Depth(Nets(rows), m) + rows[m].low >= Inner(rows, c) {
      assert rows[m] == rest[m - |pre|] && rows[m] in rest;
      assert Depth(Nets(rows), m + 1) == Depth(Nets(rows), m) + rows[m].net;
      assert Depth(Nets(rows), m) >= Inner(pre, c) && Depth(Nets(rows), m + 1) >= Inner(pre, c);
    }
  }

  /** Region and block after the prefix and n closing lines. */
  lemma AfterClosing(pre: seq<Row>, n: nat, j: nat, c: Block)
    requires j <= c.line && |pre| == c.line + 1
    ensures var rows, end := pre + Closing(n), Depth(Nets(pre), |pre|);
            (StillInside(Nets(rows), j, |pre| + n) <==> RegionOpen(pre, j) && end - n > Depth(Nets(pre), j)) &&
            (InBlock(rows, c, |pre| + n) <==> BlockOpen(pre, c) && end - n >= Inner(pre, c))
  {
    var end := Depth(Nets(pre), |pre|);
    OpenAtEnd(pre, Closing(n), j, c, |pre| + n);
    StaysWhileClosing(pre, n, Depth(Nets(pre), j) + 1);
    StaysWhileClosing(pre, n, Inner(pre, c));
    if BlockOpen(pre, c) && end - n >= Inner(pre, c) {
      TidyBlockStays(pre, Closing(n), c, |pre| + n);
    }
  }

  lemma StaysWhileClosing(pre: seq<Row>, n: nat, d: int)
    ensures StaysAt(pre, Closing(n), |pre| + n, d) <==> Depth(Nets(pre), |pre|) - n >= d
  {
    forall m | |pre| <= m <= |pre| + n
      ensures Depth(Nets(pre + Closing(n)), m) == Depth(Nets(pre), |pre|) - (m - |pre|)
    {
      ClosingDepth(pre, n, m - |pre|);
    }
    assert Depth(Nets(pre + Closing(n)), |pre| + n) == Depth(Nets(pre), |pre|) - n;
  }

  /**
   The region of line j fails to cover the block, for some lines that follow, exactly when the block outlives
   its line and either the region is already shut there or the block lies no deeper than line j: it opens on
   a later line, or behind a closing brace.
   */
  lemma MissesIff(pre: seq<Row>, j: nat, c: Block)
    requires j <= c.line && |pre| == c.line + 1
    ensures (exists rest, i :: |pre| <= i <= |pre| + |rest| && Misses(pre + rest, j, c, i)) <==>
            BlockOpen(pre, c) && (!RegionOpen(pre, j) || Inner(pre, c) <= Depth(Nets(pre), j))
  {
    forall rest, i | |pre| <= i <= |pre| + |rest| && Misses(pre + rest, j, c, i)
      ensures BlockOpen(pre, c) && (!RegionOpen(pre, j) || Inner(pre, c) <= Depth(Nets(pre), j))
    {
      OpenAtEnd(pre, rest, j, c, i);
    }
    if BlockOpen(pre, c) && (!RegionOpen(pre, j) || Inner(pre, c) <= Depth(Nets(pre), j)) {
      var n := if RegionOpen(pre, j) then Depth(Nets(pre), |pre|) - Depth(Nets(pre), j) else 0;
      AfterClosing(pre, n, j, c);
      assert Misses(pre + Closing(n), j, c, |pre| + n);
    }
  }

  /**
   It covers lines past its block, for some tidy lines that follow, exactly when the region is open at the
   end of the block's line and the block has ended there or lies more than one brace deeper than line j.
   */
  lemma BlamesIff(pre: seq<Row>, j: nat, c: Block)
    requires j <= c.line && |pre| == c.line + 1
    ensures (exists rest, i :: (forall l :: l in rest ==> Tidy(l)) && |pre| <= i <= |pre| + |rest| &&
                               Blames(pre + rest, j, c, i)) <==>
            RegionOpen(pre, j) && (!BlockOpen(pre, c) || Inner(pre, c) > Depth(Nets(pre), j) + 1)
  {
    forall rest, i | (forall l :: l in rest ==> Tidy(l)) && |pre| <= i <= |pre| + |rest| && Blames(pre + rest, j, c, i)
      ensures RegionOpen(pre, j) && (!BlockOpen(pre, c) || Inner(pre, c) > Depth(Nets(pre), j) + 1)
    {
      OpenAtEnd(pre, rest, j, c, i);
      if BlockOpen(pre, c) && Inner(pre, c) <= Depth(Nets(pre), j) + 1 {
        TidyBlockStays(pre, rest, c, i);
      }
    }
    if RegionOpen(pre, j) && (!BlockOpen(pre, c) || Inner(pre, c) > Depth(Nets(pre), j) + 1) {
      var end, base := Depth(Nets(pre), |pre|), Depth(Nets(pre), j);
      var n := if BlockOpen(pre, c) then end - base - 1 else 0;
      AfterClosing(pre, n, j, c);
      assert Blames(pre + Closing(n), j, c, |pre| + n);
    }
  }

  /**
   A line that opens its block itself: the region and the block are the same lines, whatever tidy lines
   follow, exactly when no brace stands open or closed in front of the block, or the line holds all of the
   block and leaves no brace open.
   */
  lemma RegionIsBlockIff(pre: seq<Row>, c: Block)
    requires |pre| == c.line + 1
    ensures (forall rest, i :: (forall l :: l in rest ==> Tidy(l)) && |pre| <= i <= |pre| + |rest| ==>
               (StillInside(Nets(pre + rest), c.line, i) <==> InBlock(pre + rest, c, i))) <==>
            if BlockOpen(pre, c) then c.before == 0 else pre[c.line].net <= 0
  {
    MissesIff(pre, c.line, c);
    BlamesIff(pre, c.line, c);
    assert Depth(Nets(pre), |pre|) == Depth(Nets(pre), c.line) + pre[c.line].net;
    assert RegionOpen(pre, c.line) <==> pre[c.line].net > 0;
    if BlockOpen(pre, c) && c.before < 0 {
      var n := if RegionOpen(pre, c.line) then Depth(Nets(pre), |pre|) - Depth(Nets(pre), c.line) else 0;
      AfterClosing(pre, n, c.line, c);
      assert Misses(pre + Closing(n), c.line, c, |pre| + n);
    }
    forall rest, i | (forall l :: l in rest ==> Tidy(l)) && |pre| <= i <= |pre| + |rest|
      ensures (StillInside(Nets(pre + rest), c.line, i) <==> InBlock(pre + rest, c, i)) <==>
              !Misses(pre + rest, c.line, c, i) && !Blames(pre + rest, c.line, c, i)
    {
    }
  }

  /**
   Whatever lines follow, tidy or not: such a region never misses its block, and blames line i exactly when
   the region goes on though some line in between went below the block's depth and came back.
   */
  lemma OnlyDipsAreBlamedIff(rows: seq<Row>, c: Block, i: nat)
    requires c.line < i <= |rows| && c.before == 0
    requires InBlock(rows, c, c.line + 1)
    ensures !Misses(rows, c.line, c, i)
    ensures Blames(rows, c.line, c, i) <==>
            StillInside(Nets(rows), c.line, i) &&
            exists m :: c.line < m < i && Depth(Nets(rows), m) + rows[m].low < Inner(rows, c)
  {
  }

  /** What holds at line i does not depend on the lines from i on. */
  lemma OneMoreRow(rows: seq<Row>, r: Row, j: nat, c: Block, i: nat)
    requires j <= c.line < i <= |rows|
    ensures StillInside(Nets(rows + [r]), j, i) <==> StillInside(Nets(rows), j, i)
    ensures InBlock(rows + [r], c, i) <==> InBlock(rows, c, i)
  {
    forall m: nat | m <= |rows| ensures Depth(Nets(rows + [r]), m) == Depth(Nets(rows), m) {
      SamePrefixDepth(rows, [r], m);
    }
  }
}
