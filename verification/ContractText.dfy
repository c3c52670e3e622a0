/**
 A contract file in text mode: what an installed file reads as, and when a refresh keeps its lines.

 The installer cuts a file at the file's own line ending only, while harvester and parser read it with every
 line ending accepted. The pieces of the one reading are cut further by the other, and a marker can stand
 anywhere in its piece.
 */
module ContractText {
  import opened Prelude
  import opened TextLines
  import opened CrateContract

  predicate HasBegin(l: string) {
    Contains(l, BEGIN)
  }

  predicate HasEnd(l: string) {
    Contains(l, END)
  }

  /** The file in text mode, its byte order mark stripped. */
  function FileLines(file: string): seq<string> {
    UniversalLines(TextOf(file))
  }

  /** The file's own lines in text mode: what an installation writes below the block. */
  function OwnTextLines(d: Doc): seq<string>
    requires Own(d.lines).Ok?
  {
    if Own(d.lines).value == [] then [] else UniversalLines(Join(Own(d.lines).value, d.eol))
  }

  lemma {:induction false} TextOfRead(file: string)
    ensures TextOf(file) == Join(Read(file).lines, Read(file).eol)
  {
    JoinSplit(TextOf(file), EolOf(TextOf(file)));
  }

  /** In text mode an installed file is the rendered block followed by the file's own lines. */
  lemma {:induction false} InstalledLines(file: string, f: Fields)
    requires PlainFields(f) && Install(file, f).Ok?
    ensures Own(Read(file).lines).Ok?
    ensures FileLines(Install(file, f).value) == Render(f) + OwnTextLines(Read(file))
  {
    InstalledFile(file, f);
    TextOfRead(Install(file, f).value);
    RenderedIndices(f);
    var d := Read(file);
    var own := Own(d.lines).value;
    if own == [] {
      assert Render(f) + own == Render(f);
      UniversalJoin(Render(f), d.eol);
    } else {
      UniversalPrefix(Render(f), d.eol, own);
    }
  }

  // ----- Marked lines -------------------------------------------------------------------------------

  predicate AnyHas(lines: seq<string>, has: string -> bool) {
    exists i :: 0 <= i < |lines| && has(lines[i])
  }

  /** The first line with the mark, or the number of lines. */
  function FirstWith(lines: seq<string>, has: string -> bool): (i: nat)
    ensures i <= |lines| && (i < |lines| ==> has(lines[i]))
    ensures forall k :: 0 <= k < i ==> !has(lines[k])
  {
    if lines == [] || has(lines[0]) then 0 else FirstWith(lines[1..], has) + 1
  }

  /** One past the last line with the mark, or 0. */
  function LastWith(lines: seq<string>, has: string -> bool): (i: nat)
    ensures i <= |lines| && (i > 0 ==> has(lines[i - 1]))
    ensures forall k :: i <= k < |lines| ==> !has(lines[k])
  {
    var n := |lines|;
    if n == 0 || has(lines[n - 1]) then n else LastWith(lines[..n - 1], has)
  }

  /** All lines but those from the first opening line to the last closing line. */
  function OutsideMarks(lines: seq<string>, opens: string -> bool, closes: string -> bool): seq<string> {
    var b, e := FirstWith(lines, opens), LastWith(lines, closes);
    if b < e then lines[..b] + lines[e..] else lines
  }

  lemma {:induction false} FirstAfter(a: seq<string>, rest: seq<string>, has: string -> bool)
    requires !AnyHas(a, has)
    ensures FirstWith(a + rest, has) == |a| + FirstWith(rest, has)
  {
    if a == [] {
      ConcatEmpty(rest);
    } else {
      assert (a + rest)[1..] == a[1..] + rest;
      FirstAfter(a[1..], rest, has);
    }
  }

  lemma {:induction false} LastBefore(a: seq<string>, c: seq<string>, has: string -> bool)
    requires !AnyHas(c, has)
    ensures LastWith(a + c, has) == LastWith(a, has)
    decreases |c|
  {
    if c == [] {
      ConcatEmpty(a);
    } else {
      var n := |c| - 1;
      assert (a + c)[..|a| + n] == a + c[..n];
      LastBefore(a, c[..n], has);
    }
  }

  lemma {:induction false} FirstOf(m: seq<string>, c: seq<string>, has: string -> bool)
    requires AnyHas(m, has)
    ensures m != [] && FirstWith(m + c, has) < |m| && (FirstWith(m + c, has) == 0 <==> has(m[0]))
  {
    var x :| 0 <= x < |m| && has(m[x]);
    assert (m + c)[x] == m[x] && (m + c)[0] == m[0];
  }

  lemma {:induction false} LastOf(a: seq<string>, m: seq<string>, has: string -> bool)
    requires AnyHas(m, has)
    ensures m != [] && LastWith(a + m, has) > |a|
    ensures LastWith(a + m, has) == |a| + |m| <==> has(m[|m| - 1])
  {
    var y :| 0 <= y < |m| && has(m[y]);
    assert (a + m)[|a| + y] == m[y] && (a + m)[|a| + |m| - 1] == m[|m| - 1];
  }

  lemma {:induction false} OutsideOf(a: seq<string>, m: seq<string>, c: seq<string>, b: nat, e: nat)
    requires |a| <= b < |a| + |m| && |a| < e <= |a| + |m|
    ensures var all := a + m + c;
            a + c == (if b < e then all[..b] + all[e..] else all) <==> b == |a| && e == |a| + |m|
  {
    var all := a + m + c;
    if b == |a| && e == |a| + |m| {
      assert all[..b] == a && all[e..] == c;
    }
  }

  /** Cutting m out of a + m + c removes exactly the marked lines iff m begins and ends with one. */
  lemma {:induction false} CutIsOutsideIff(a: seq<string>, m: seq<string>, c: seq<string>,
                                           opens: string -> bool, closes: string -> bool)
    requires !AnyHas(a, opens) && !AnyHas(c, closes) && AnyHas(m, opens) && AnyHas(m, closes)
    ensures m != []
    ensures a + c == OutsideMarks(a + m + c, opens, closes) <==> opens(m[0]) && closes(m[|m| - 1])
  {
    ConcatAssoc(a, m, c);
    FirstAfter(a, m + c, opens);
    FirstOf(m, c, opens);
    LastBefore(a + m, c, closes);
    LastOf(a, m, closes);
    OutsideOf(a, m, c, FirstWith(a + m + c, opens), LastWith(a + m + c, closes));
  }

  lemma {:induction false} NothingToCut(a: seq<string>, c: seq<string>, opens: string -> bool, closes: string -> bool)
    requires !AnyHas(a, opens) && !AnyHas(c, closes)
    ensures OutsideMarks(a + c, opens, closes) == a + c
  {
    FirstAfter(a, c, opens);
    LastBefore(a, c, closes);
  }

  // ----- Marked pieces ------------------------------------------------------------------------------

  function FirstLine(piece: string): string {
    UniversalLines(piece)[0]
  }

  function LastLine(piece: string): string {
    UniversalLines(piece)[|UniversalLines(piece)| - 1]
  }

  /** A mark that never spans a line break: a piece has it just when one of its lines does. */
  predicate Legible(pieces: seq<string>, has: string -> bool) {
    forall i :: 0 <= i < |pieces| ==> (has(pieces[i]) <==> AnyHas(UniversalLines(pieces[i]), has))
  }

  lemma {:induction false} SomeConcat(a: seq<string>, b: seq<string>, has: string -> bool)
    ensures AnyHas(a + b, has) <==> AnyHas(a, has) || AnyHas(b, has)
  {
    forall i | 0 <= i < |a| ensures (a + b)[i] == a[i] {
    }
    forall i | 0 <= i < |b| ensures (a + b)[|a| + i] == b[i] {
    }
  }

  lemma {:induction false} SomePiece(pieces: seq<string>, has: string -> bool)
    requires Legible(pieces, has)
    ensures AnyHas(AllLines(pieces), has) <==> AnyHas(pieces, has)
  {
    if pieces != [] {
      assert pieces == [pieces[0]] + pieces[1..];
      SomePiece(pieces[1..], has);
      SomeConcat(UniversalLines(pieces[0]), AllLines(pieces[1..]), has);
      SomeConcat([pieces[0]], pieces[1..], has);
      assert [pieces[0]][0] == pieces[0];
    }
  }

  lemma {:induction false} EndLines(pieces: seq<string>)
    requires pieces != []
    ensures var all := AllLines(pieces);
            all != [] && all[0] == FirstLine(pieces[0]) && all[|all| - 1] == LastLine(pieces[|pieces| - 1])
  {
    var n := |pieces| - 1;
    var last := UniversalLines(pieces[n]);
    assert pieces == pieces[..n] + [pieces[n]];
    AllLinesConcat(pieces[..n], [pieces[n]]);
    ConcatEmpty(last);
    assert AllLines([pieces[n]]) == last;
  }

  lemma {:induction false} ThreeParts(p: seq<string>, q: seq<string>, r: seq<string>)
    ensures AllLines(p + q + r) == AllLines(p) + AllLines(q) + AllLines(r)
    ensures AllLines(p + r) == AllLines(p) + AllLines(r)
  {
    AllLinesConcat(p + q, r);
    AllLinesConcat(p, q);
    AllLinesConcat(p, r);
  }

  /** What remains of the pieces without q reads as the lines outside the marks. */
  lemma {:induction false} CutPiecesIff(p: seq<string>, q: seq<string>, r: seq<string>, lines: seq<string>,
                                        first: string, last: string, opens: string -> bool, closes: string -> bool)
    requires lines == AllLines(q) && lines != [] && lines[0] == first && lines[|lines| - 1] == last
    requires !AnyHas(AllLines(p), opens) && !AnyHas(AllLines(r), closes)
    requires AnyHas(lines, opens) && AnyHas(lines, closes)
    ensures AllLines(p + r) == OutsideMarks(AllLines(p + q + r), opens, closes) <==> opens(first) && closes(last)
  {
    ThreeParts(p, q, r);
    CutIsOutsideIff(AllLines(p), lines, AllLines(r), opens, closes);
  }

  lemma {:induction false} CutSlicesIff(p: seq<string>, q: seq<string>, r: seq<string>,
                                        opens: string -> bool, closes: string -> bool)
    requires !AnyHas(AllLines(p), opens) && !AnyHas(AllLines(r), closes)
    requires q != [] && AnyHas(AllLines(q), opens) && AnyHas(AllLines(q), closes)
    ensures AllLines(p + r) == OutsideMarks(AllLines(p + q + r), opens, closes) <==>
            opens(FirstLine(q[0])) && closes(LastLine(q[|q| - 1]))
  {
    EndLines(q);
    CutPiecesIff(p, q, r, AllLines(q), FirstLine(q[0]), LastLine(q[|q| - 1]), opens, closes);
  }

  /** The first line of the opening piece opens, and the last line of the closing piece closes. */
  predicate EndsMarked(pieces: seq<string>, opens: string -> bool, closes: string -> bool) {
    forall i, j :: 0 <= i <= j < |pieces| && opens(pieces[i]) && closes(pieces[j]) ==>
      opens(FirstLine(pieces[i])) && closes(LastLine(pieces[j]))
  }

  predicate OnlyAt(pieces: seq<string>, has: string -> bool, x: nat) {
    forall i :: 0 <= i < |pieces| ==> (has(pieces[i]) <==> i == x)
  }

  lemma {:induction false} Slices(pieces: seq<string>, x: nat, y: nat)
    requires x < y <= |pieces|
    ensures pieces == pieces[..x] + pieces[x..y] + pieces[y..]
    ensures pieces[x..y][0] == pieces[x] && pieces[x..y][y - x - 1] == pieces[y - 1]
  {
  }

  lemma {:induction false} MarkedSlices(pieces: seq<string>, x: nat, y: nat,
                                        opens: string -> bool, closes: string -> bool)
    requires x <= y < |pieces| && OnlyAt(pieces, opens, x) && OnlyAt(pieces, closes, y)
    requires Legible(pieces, opens) && Legible(pieces, closes)
    ensures !AnyHas(AllLines(pieces[..x]), opens) && !AnyHas(AllLines(pieces[y + 1..]), closes)
    ensures AnyHas(AllLines(pieces[x..y + 1]), opens) && AnyHas(AllLines(pieces[x..y + 1]), closes)
  {
    var q := pieces[x..y + 1];
    assert q[0] == pieces[x] && q[y - x] == pieces[y];
    SomePiece(pieces[..x], opens);
    SomePiece(pieces[y + 1..], closes);
    SomePiece(q, opens);
    SomePiece(q, closes);
  }

  lemma {:induction false} EndsMarkedAt(pieces: seq<string>, x: nat, y: nat,
                                        opens: string -> bool, closes: string -> bool)
    requires x <= y < |pieces| && OnlyAt(pieces, opens, x) && OnlyAt(pieces, closes, y)
    ensures EndsMarked(pieces, opens, closes) <==> opens(FirstLine(pieces[x])) && closes(LastLine(pieces[y]))
  {
    assert opens(pieces[x]) && closes(pieces[y]);
  }

  lemma {:induction false} BlockPieces(pieces: seq<string>, x: nat, y: nat,
                                       opens: string -> bool, closes: string -> bool)
    requires x <= y < |pieces| && OnlyAt(pieces, opens, x) && OnlyAt(pieces, closes, y)
    requires Legible(pieces, opens) && Legible(pieces, closes)
    ensures AllLines(pieces[..x] + pieces[y + 1..]) == OutsideMarks(AllLines(pieces), opens, closes) <==>
            EndsMarked(pieces, opens, closes)
  {
    Slices(pieces, x, y + 1);
    MarkedSlices(pieces, x, y, opens, closes);
    CutSlicesIff(pieces[..x], pieces[x..y + 1], pieces[y + 1..], opens, closes);
    EndsMarkedAt(pieces, x, y, opens, closes);
  }

  lemma {:induction false} MisorderedPieces(pieces: seq<string>, x: nat, opens: string -> bool, closes: string -> bool)
    requires x <= |pieces| && !AnyHas(pieces[..x], opens) && !AnyHas(pieces[x..], closes)
    requires Legible(pieces, opens) && Legible(pieces, closes)
    ensures OutsideMarks(AllLines(pieces), opens, closes) == AllLines(pieces)
  {
    var a, c := pieces[..x], pieces[x..];
    assert pieces == a + c;
    SomePiece(a, opens);
    SomePiece(c, closes);
    AllLinesConcat(a, c);
    NothingToCut(AllLines(a), AllLines(c), opens, closes);
  }

  // ----- When a refresh loses nothing ---------------------------------------------------------------

  /** All lines but those from the first begin marker to the last end marker. */
  function OutsideBlock(lines: seq<string>): seq<string> {
    OutsideMarks(lines, HasBegin, HasEnd)
  }

  /** The begin marker stands in the first line of its piece, the end marker in the last line of its own. */
  predicate Aligned(pieces: seq<string>) {
    EndsMarked(pieces, HasBegin, HasEnd)
  }

  lemma {:induction false} MarkersHaveNoBreaks()
    ensures NoBreaks(BEGIN) && NoBreaks(END)
  {
  }

  lemma {:induction false} MarkersAreLegible(pieces: seq<string>)
    ensures Legible(pieces, HasBegin) && Legible(pieces, HasEnd)
  {
    MarkersHaveNoBreaks();
    forall i | 0 <= i < |pieces|
      ensures HasBegin(pieces[i]) <==> AnyHas(UniversalLines(pieces[i]), HasBegin)
      ensures HasEnd(pieces[i]) <==> AnyHas(UniversalLines(pieces[i]), HasEnd)
    {
      WordInLines(pieces[i], BEGIN);
      WordInLines(pieces[i], END);
    }
  }

  /** Both readings of an accepted file are the lines of its pieces. */
  lemma {:induction false} LinesOfPieces(file: string)
    requires Own(Read(file).lines).Ok?
    ensures FileLines(file) == AllLines(Read(file).lines)
    ensures OwnTextLines(Read(file)) == AllLines(Own(Read(file).lines).value)
  {
    var d := Read(file);
    ReadIsWellFormed(file);
    TextOfRead(file);
    JoinedLines(d.lines, d.eol);
    OwnLines(d.lines);
    if Own(d.lines).value != [] {
      JoinedLines(Own(d.lines).value, d.eol);
    }
  }

  lemma {:induction false} SingleIndex(lines: seq<string>, marker: string, b: nat)
    requires IndicesOf(lines, marker) == [b]
    ensures b < |lines| && forall i :: 0 <= i < |lines| ==> (Contains(lines[i], marker) <==> i == b)
  {
    IndicesInRange(lines, marker);
    assert b in IndicesOf(lines, marker);
  }

  /**
   A refresh keeps every line outside the block, and only those, exactly when the installer's pieces
   and the text lines agree at both ends of the block. Without a block, and with the markers in the
   wrong order, there is nothing to lose.
   */
  lemma {:induction false} RefreshIsLosslessIff(file: string)
    requires Own(Read(file).lines).Ok?
    ensures OwnTextLines(Read(file)) == OutsideBlock(FileLines(file)) <==> Aligned(Read(file).lines)
  {
    LinesOfPieces(file);
    OwnPiecesIff(Read(file).lines);
  }

  lemma {:induction false} OwnPiecesIff(lines: seq<string>)
    requires Own(lines).Ok?
    ensures AllLines(Own(lines).value) == OutsideBlock(AllLines(lines)) <==> Aligned(lines)
  {
    var b, e := IndicesOf(lines, BEGIN), IndicesOf(lines, END);
    if b == [] {
      NoBlockPieces(lines);
    } else {
      assert b == [b[0]] && e == [e[0]];
      OneBlockPieces(lines, b[0], e[0]);
    }
  }

  lemma {:induction false} NoBlockPieces(lines: seq<string>)
    requires IndicesOf(lines, BEGIN) == [] && IndicesOf(lines, END) == []
    ensures OutsideBlock(AllLines(lines)) == AllLines(lines) && Aligned(lines)
  {
    IndicesInRange(lines, BEGIN);
    IndicesInRange(lines, END);
    MarkersAreLegible(lines);
    MisorderedPieces(lines, |lines|, HasBegin, HasEnd);
  }

  lemma {:induction false} MarkersOnlyAt(lines: seq<string>, b: nat, e: nat)
    requires IndicesOf(lines, BEGIN) == [b] && IndicesOf(lines, END) == [e]
    ensures b < |lines| && e < |lines| && OnlyAt(lines, HasBegin, b) && OnlyAt(lines, HasEnd, e)
  {
    SingleIndex(lines, BEGIN, b);
    SingleIndex(lines, END, e);
  }

  lemma {:induction false} OneBlockPieces(lines: seq<string>, b: nat, e: nat)
    requires IndicesOf(lines, BEGIN) == [b] && IndicesOf(lines, END) == [e]
    ensures Own(lines).Ok? && (AllLines(Own(lines).value) == OutsideBlock(AllLines(lines)) <==> Aligned(lines))
  {
    MarkersOnlyAt(lines, b, e);
    MarkersAreLegible(lines);
    if b <= e {
      OwnOfBlock(lines, b, e);
      BlockPieces(lines, b, e, HasBegin, HasEnd);
    } else {
      MisorderedPieces(lines, b, HasBegin, HasEnd);
    }
  }

  // ----- Mixed line endings ------------------------------------------------------------------------------

  lemma {:induction false} ThreeLineIndices(a: string, b: string, c: string)
    requires HasBegin(a) && !HasEnd(a) && HasEnd(b) && !HasBegin(b) && !HasBegin(c) && !HasEnd(c)
    ensures IndicesOf([a, b, c], BEGIN) == [0] && IndicesOf([a, b, c], END) == [1]
  {
    NoIndices([c], BEGIN);
    NoIndices([c], END);
    NoIndices([b], BEGIN);
    NoIndices([a], END);
    assert [b][..0] == [] && [a][..0] == [];
    IndicesConcat([a], [b], BEGIN);
    IndicesConcat([a], [b], END);
    assert [a] + [b] == [a, b] && [a, b] + [c] == [a, b, c];
    IndicesConcat([a, b], [c], BEGIN);
    IndicesConcat([a, b], [c], END);
  }

  lemma {:induction false} ThreeLineDoc(a: string, b: string, c: string)
    requires Unbroken(a, "\r\n") && NoBreaks(b) && NoBreaks(c) && a != "" && a[0] != BOM
    ensures WellFormed(Doc(false, "\r\n", [a, b, c]))
    ensures Join([a, b, c], "\r\n") == a + "\r\n" + (b + "\r\n" + c)
  {
    assert [a, b, c][1..] == [b, c] && [b, c][1..] == [c];
    assert Join([b, c], "\r\n") == b + "\r\n" + c;
    PlainLineUnbroken(b, "\r\n");
    PlainLineUnbroken(c, "\r\n");
  }

  lemma {:induction false} NoReturnIsUnbroken(l: string)
    requires '\r' !in l
    ensures Unbroken(l, "\r\n")
  {
    forall k | 0 <= k < |l| ensures !("\r\n" <= l[k..]) {
      assert l[k..][0] == l[k];
    }
  }

  /** A text of two lines has a word when one of the lines has it. */
  lemma {:induction false} WordInTwoLines(l: string, x: string, b: string, word: string)
    requires UniversalLines(l) == [x, b] && NoBreaks(word) && word != ""
    ensures Contains(l, word) <==> Contains(x, word) || Contains(b, word)
  {
    WordInLines(l, word);
    assert x in [x, b] && b in [x, b];
  }

  /** A line and a begin marker with a lone "\n" between them make one piece of a file that uses "\r\n". */
  lemma {:induction false} LeaderLine(x: string, b: string)
    requires Plain(x) && NoBreaks(b) && HasBegin(b) && !HasEnd(b)
    ensures Unbroken(x + "\n" + b, "\r\n") && HasBegin(x + "\n" + b) && !HasEnd(x + "\n" + b)
  {
    var l := x + "\n" + b;
    NoReturnIsUnbroken(l);
    UniversalLine(x, "\n", b);
    UniversalLast(b);
    MarkersHaveNoBreaks();
    WordInTwoLines(l, x, b, BEGIN);
    WordInTwoLines(l, x, b, END);
  }

  lemma {:induction false} ThreeLineOwn(a: string, b: string, c: string)
    requires HasBegin(a) && !HasEnd(a) && HasEnd(b) && !HasBegin(b) && !HasBegin(c) && !HasEnd(c)
    ensures Own([a, b, c]) == Ok([c])
  {
    ThreeLineIndices(a, b, c);
    OwnOfBlock([a, b, c], 0, 1);
    assert [a, b, c][..0] + [a, b, c][2..] == [c];
  }

  lemma {:induction false} ThreeLineRead(a: string, b: string, c: string)
    requires Unbroken(a, "\r\n") && NoBreaks(b) && NoBreaks(c) && a != "" && a[0] != BOM
    ensures Read(a + "\r\n" + (b + "\r\n" + c)) == Doc(false, "\r\n", [a, b, c])
  {
    var d := Doc(false, "\r\n", [a, b, c]);
    ThreeLineDoc(a, b, c);
    ReadWrite(d);
    ConcatEmpty(a + "\r\n" + (b + "\r\n" + c));
    assert Write(d) == a + "\r\n" + (b + "\r\n" + c);
  }

  lemma {:induction false} InstallOverThreeLines(a: string, e: string, rest: string, f: Fields)
    requires Unbroken(a, "\r\n") && a != "" && a[0] != BOM && HasBegin(a) && !HasEnd(a)
    requires NoBreaks(e) && HasEnd(e) && !HasBegin(e) && Plain(rest)
    ensures Install(a + "\r\n" + (e + "\r\n" + rest), f) == Ok(Join(Render(f) + [rest], "\r\n"))
  {
    ThreeLineRead(a, e, rest);
    ThreeLineOwn(a, e, rest);
    ConcatEmpty(Join(Render(f) + [rest], "\r\n"));
  }

  /**
   In a file that mixes line endings, installing over a block also deletes what stands before the begin
   marker up to the previous "\r\n": x is the first line of the file in text mode, and it is gone.
   */
  lemma {:induction false} MixedEndingsLoseText(x: string, b: string, e: string, rest: string, f: Fields)
    requires Plain(x) && Plain(rest) && x != "" && x[0] != BOM
    requires NoBreaks(b) && HasBegin(b) && !HasEnd(b) && NoBreaks(e) && HasEnd(e) && !HasBegin(e)
    ensures var file := (x + "\n" + b) + "\r\n" + (e + "\r\n" + rest);
            FileLines(file)[0] == x && Install(file, f) == Ok(Join(Render(f) + [rest], "\r\n"))
  {
    var first, tail := x + "\n" + b, b + "\r\n" + (e + "\r\n" + rest);
    assert first + "\r\n" + (e + "\r\n" + rest) == x + "\n" + tail;
    UniversalLine(x, "\n", tail);
    LeaderLine(x, b);
    InstallOverThreeLines(first, e, rest, f);
  }
}
