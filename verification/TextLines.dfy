/**
 Text files as their tools see them.

 The installer splits a file on the file's own line ending and joins it again, and nothing may change on the
 way. Everybody else opens the same file in text mode, where "\r\n", "\r" and "\n" all end a line; the contract
 parser then splits once more, at the further separators of splitlines. The readings agree on a text whose
 lines hold no stray break. In general text mode breaks a text at its own ending and inside the pieces.
 */
module TextLines {
  import opened Prelude

  predicate Contains(s: string, sub: string) {
    exists k :: 0 <= k <= |s| && sub <= s[k..]
  }

  predicate IsEol(eol: string) {
    eol == "\n" || eol == "\r\n"
  }

  predicate NoBreaks(s: string) {
    '\n' !in s && '\r' !in s
  }

  /** Splitting on every occurrence of a line ending, leftmost first. */
  function SplitOn(t: string, eol: string): (lines: seq<string>)
    requires eol != ""
    ensures lines != []
    decreases |t|
  {
    if t == "" then [""]
    else if eol <= t then [""] + SplitOn(t[|eol|..], eol)
    else Glued(t[0], SplitOn(t[1..], eol))
  }

  function Join(lines: seq<string>, eol: string): string {
    if lines == [] then ""
    else if |lines| == 1 then lines[0]
    else lines[0] + eol + Join(lines[1..], eol)
  }

  /** A character in front of the first line. */
  function Glued(c: char, lines: seq<string>): seq<string>
    requires lines != []
  {
    [[c] + lines[0]] + lines[1..]
  }

  lemma JoinCons(l: string, rest: seq<string>, eol: string)
    requires rest != []
    ensures Join([l] + rest, eol) == l + eol + Join(rest, eol)
  {
    assert ([l] + rest)[1..] == rest;
  }

  lemma JoinGlued(c: char, lines: seq<string>, eol: string)
    requires lines != []
    ensures Join(Glued(c, lines), eol) == [c] + Join(lines, eol)
  {
    if |lines| > 1 {
      var more := Join(lines[1..], eol);
      assert Glued(c, lines)[1..] == lines[1..];
      ConcatAssoc([c], lines[0], eol);
      ConcatAssoc([c], lines[0] + eol, more);
    }
  }

  lemma TakeDrop(t: string, n: nat)
    requires n <= |t|
    ensures t[..n] + t[n..] == t
  {
  }

  lemma {:induction false} JoinSplit(t: string, eol: string)
    requires eol != ""
    ensures Join(SplitOn(t, eol), eol) == t
    decreases |t|
  {
    if t != "" {
      var n := if eol <= t then |eol| else 1;
      var rest := SplitOn(t[n..], eol);
      JoinSplit(t[n..], eol);
      TakeDrop(t, n);
      JoinCons("", rest, eol);
      ConcatEmpty(eol);
      JoinGlued(t[0], rest, eol);
      assert SplitOn(t, eol) == if eol <= t then [""] + rest else Glued(t[0], rest);
      assert t[..n] == if eol <= t then eol else [t[0]];
    }
  }

  /** No line ending begins inside the line, even when one follows it. */
  predicate Unbroken(l: string, eol: string) {
    forall k :: 0 <= k < |l| ==> !(eol <= l[k..])
  }

  lemma {:induction false} SplitPiecesUnbroken(t: string, eol: string)
    requires IsEol(eol)
    ensures forall i :: 0 <= i < |SplitOn(t, eol)| ==> Unbroken(SplitOn(t, eol)[i], eol)
    decreases |t|
  {
    if t != "" {
      if eol <= t {
        SplitPiecesUnbroken(t[|eol|..], eol);
      } else {
        SplitPiecesUnbroken(t[1..], eol);
        SplitHead(t[1..], eol);
        var rest := SplitOn(t[1..], eol);
        var first := [t[0]] + rest[0];
        forall k | 0 <= k < |first| ensures !(eol <= first[k..]) {
          if k > 0 {
            assert first[k..] == rest[0][k - 1..];
          } else {
            assert first <= t;
          }
        }
      }
    }
  }

  /** The first piece is a prefix of the text. */
  lemma {:induction false} SplitHead(t: string, eol: string)
    requires eol != ""
    ensures SplitOn(t, eol)[0] <= t
    decreases |t|
  {
    if t != "" && !(eol <= t) {
      SplitHead(t[1..], eol);
    }
  }

  lemma UnbrokenTail(l: string, eol: string)
    requires Unbroken(l, eol) && l != ""
    ensures !(eol <= l) && Unbroken(l[1..], eol)
  {
    assert l[0..] == l;
    forall k | 0 <= k < |l[1..]| ensures !(eol <= l[1..][k..]) {
      assert l[1..][k..] == l[k + 1..];
    }
  }

  /** What follows an unbroken line does not make an ending begin at its first character. */
  lemma LineHead(l: string, eol: string, t: string)
    requires IsEol(eol) && l != "" && !(eol <= l)
    ensures !(eol <= l + eol + t) && (l + eol + t)[0] == l[0]
  {
    var text := l + eol + t;
    assert |l| > 1 ==> text[1] == l[1];
    assert |l| == 1 ==> text[1] == eol[0];
  }

  lemma {:induction false} SplitLine(l: string, eol: string, t: string)
    requires IsEol(eol) && Unbroken(l, eol)
    ensures SplitOn(l + eol + t, eol) == [l] + SplitOn(t, eol)
    decreases |l|
  {
    if l == "" {
      assert (l + eol + t)[|eol|..] == t;
    } else {
      UnbrokenTail(l, eol);
      LineHead(l, eol, t);
      PieceTail(l, eol, t, 1);
      SplitLine(l[1..], eol, t);
      GluedConcat(l[0], [l[1..]], SplitOn(t, eol));
      assert [l[0]] + l[1..] == l;
    }
  }

  lemma {:induction false} SplitLast(l: string, eol: string)
    requires IsEol(eol) && Unbroken(l, eol)
    ensures SplitOn(l, eol) == [l]
    decreases |l|
  {
    if l != "" {
      UnbrokenTail(l, eol);
      SplitLast(l[1..], eol);
      assert [l[0]] + l[1..] == l;
    }
  }

  /** Joining unbroken lines and splitting again gives the lines back. */
  lemma {:induction false} SplitJoin(lines: seq<string>, eol: string)
    requires IsEol(eol) && lines != [] && forall l :: l in lines ==> Unbroken(l, eol)
    ensures SplitOn(Join(lines, eol), eol) == lines
    decreases |lines|
  {
    assert lines[0] in lines;
    if |lines| == 1 {
      SplitLast(lines[0], eol);
    } else {
      SplitJoin(lines[1..], eol);
      SplitLine(lines[0], eol, Join(lines[1..], eol));
    }
  }

  // ----- Which line ending a file uses ------------------------------------------------------------

  /** "\r\n" as soon as the file has one, else "\n". */
  function EolOf(text: string): (eol: string)
    ensures IsEol(eol)
  {
    if Contains(text, "\r\n") then "\r\n" else "\n"
  }

  lemma TailContains(t: string, n: nat, sub: string)
    requires n <= |t|
    ensures Contains(t[n..], sub) ==> Contains(t, sub)
  {
    if Contains(t[n..], sub) {
      var k :| 0 <= k <= |t[n..]| && sub <= t[n..][k..];
      assert t[n + k..] == t[n..][k..];
    }
  }

  /** Lines that "\n" joins without creating a "\r\n". */
  predicate NewlineLines(lines: seq<string>) {
    && (forall i :: 0 <= i < |lines| ==> '\n' !in lines[i])
    && (forall i :: 0 <= i < |lines| - 1 ==> lines[i] == "" || lines[i][|lines[i]| - 1] != '\r')
  }

  lemma {:induction false} JoinHasNoCrLf(lines: seq<string>)
    requires NewlineLines(lines)
    ensures !Contains(Join(lines, "\n"), "\r\n")
  {
    var text := Join(lines, "\n");
    if |lines| > 1 {
      var l, rest := lines[0], Join(lines[1..], "\n");
      JoinHasNoCrLf(lines[1..]);
      forall k | 0 <= k <= |text| ensures !("\r\n" <= text[k..]) {
        if k > |l| {
          assert text[k..] == rest[k - |l| - 1..];
        } else if k < |l| - 1 {
          assert l[k + 1] != '\n' && text[k..][1] == l[k + 1];
        } else if k == |l| - 1 {
          assert text[k..][0] == l[k];
        } else {
          assert text[k..][0] == '\n';
        }
      }
    } else if |lines| == 1 {
      forall k | 0 <= k <= |text| ensures !("\r\n" <= text[k..]) {
        if k + 1 < |text| {
          assert text[k..][1] == text[k + 1];
        }
      }
    }
  }

  lemma {:induction false} SplitOfNoCrLf(t: string)
    requires !Contains(t, "\r\n")
    ensures NewlineLines(SplitOn(t, "\n"))
    decreases |t|
  {
    if t != "" {
      TailContains(t, 1, "\r\n");
      SplitOfNoCrLf(t[1..]);
      EmptyFirstPiece(t[1..]);
      assert t[0..] == t && !("\r\n" <= t[0..]);
    }
  }

  lemma EmptyFirstPiece(t: string)
    ensures |SplitOn(t, "\n")| > 1 && SplitOn(t, "\n")[0] == "" ==> "\n" <= t
  {
  }

  // ----- Reading with universal newlines -----------------------------------------------------------

  /** Lines as text mode yields them: "\r\n", "\r" and "\n" all end a line. */
  function UniversalLines(t: string): (lines: seq<string>)
    ensures lines != []
    decreases |t|
  {
    if t == "" then [""]
    else if "\r\n" <= t then [""] + UniversalLines(t[2..])
    else if t[0] == '\n' || t[0] == '\r' then [""] + UniversalLines(t[1..])
    else Glued(t[0], UniversalLines(t[1..]))
  }

  /** How text mode reads on, by what the text begins with. */
  lemma UniversalHead(t: string)
    requires t != ""
    ensures "\r\n" <= t ==> UniversalLines(t) == [""] + UniversalLines(t[2..])
    ensures !("\r\n" <= t) && t[0] in {'\n', '\r'} ==> UniversalLines(t) == [""] + UniversalLines(t[1..])
    ensures t[0] !in {'\n', '\r'} ==> UniversalLines(t) == Glued(t[0], UniversalLines(t[1..]))
  {
  }

  lemma GluedConcat(c: char, a: seq<string>, b: seq<string>)
    requires a != []
    ensures Glued(c, a + b) == Glued(c, a) + b
  {
    assert (a + b)[1..] == a[1..] + b;
  }

  lemma PieceTail(l: string, eol: string, t: string, n: nat)
    requires n <= |l|
    ensures (l + eol + t)[n..] == l[n..] + eol + t
  {
  }

  /** The first ending of the text is the piece's own, unless the piece is empty. */
  lemma PieceHead(l: string, eol: string, t: string)
    requires IsEol(eol) && l != "" && (eol == "\n" ==> l[|l| - 1] != '\r')
    ensures (l + eol + t)[0] == l[0] && ("\r\n" <= l + eol + t <==> "\r\n" <= l)
  {
    var text := l + eol + t;
    assert |text| > 1 ==> text[1] == if |l| > 1 then l[1] else eol[0] by {
      if |l| == 1 {
        assert text == l + (eol + t);
      }
    }
    assert "\r\n" <= text <==> |text| > 1 && text[0] == '\r' && text[1] == '\n';
    assert "\r\n" <= l <==> |l| > 1 && l[0] == '\r' && l[1] == '\n';
  }

  lemma EolHead(eol: string, t: string)
    requires IsEol(eol)
    ensures UniversalLines(eol + t) == [""] + UniversalLines(t)
  {
    assert (eol + t)[|eol|..] == t;
  }

  /** Two texts that begin alike, and whose rests differ by the lines `more`, differ by `more`. */
  lemma AlikeHeads(l: string, text: string, n: nat, more: seq<string>)
    requires l != "" && text != "" && text[0] == l[0] && ("\r\n" <= text <==> "\r\n" <= l)
    requires n == (if "\r\n" <= l then 2 else 1) && n <= |text|
    requires UniversalLines(text[n..]) == UniversalLines(l[n..]) + more
    ensures UniversalLines(text) == UniversalLines(l) + more
  {
    UniversalHead(l);
    UniversalHead(text);
    ConcatAssoc([""], UniversalLines(l[n..]), more);
    GluedConcat(l[0], UniversalLines(l[n..]), more);
  }

  /** An ending that the piece before it cannot merge with breaks the text in two. */
  lemma {:induction false} UniversalPiece(l: string, eol: string, t: string)
    requires IsEol(eol) && (eol == "\n" ==> l == "" || l[|l| - 1] != '\r')
    ensures UniversalLines(l + eol + t) == UniversalLines(l) + UniversalLines(t)
    decreases |l|
  {
    if l == "" {
      EolHead(eol, t);
      assert l + eol + t == eol + t;
    } else {
      var n := if "\r\n" <= l then 2 else 1;
      PieceHead(l, eol, t);
      PieceTail(l, eol, t, n);
      UniversalPiece(l[n..], eol, t);
      AlikeHeads(l, l + eol + t, n, UniversalLines(t));
    }
  }

  lemma {:induction false} UniversalLast(l: string)
    requires NoBreaks(l)
    ensures UniversalLines(l) == [l]
    decreases |l|
  {
    if l != "" {
      assert l[0] in l;
      UniversalLast(l[1..]);
      assert [l[0]] + l[1..] == l;
    }
  }

  lemma UniversalLine(l: string, eol: string, t: string)
    requires IsEol(eol) && NoBreaks(l)
    ensures UniversalLines(l + eol + t) == [l] + UniversalLines(t)
  {
    assert l != "" ==> l[|l| - 1] in l;
    UniversalPiece(l, eol, t);
    UniversalLast(l);
  }

  /** Text mode sees the lines of a block that precedes any text, whatever that text's line endings. */
  lemma {:induction false} UniversalPrefix(lines: seq<string>, eol: string, rest: seq<string>)
    requires IsEol(eol) && forall l :: l in lines ==> NoBreaks(l)
    requires rest != []
    ensures UniversalLines(Join(lines + rest, eol)) == lines + UniversalLines(Join(rest, eol))
    decreases |lines|
  {
    if lines == [] {
      ConcatEmpty(rest);
      ConcatEmpty(UniversalLines(Join(rest, eol)));
    } else {
      UniversalPrefix(lines[1..], eol, rest);
      JoinCons(lines[0], lines[1..] + rest, eol);
      ConcatAssoc([lines[0]], lines[1..], rest);
      assert lines == [lines[0]] + lines[1..];
      UniversalLine(lines[0], eol, Join(lines[1..] + rest, eol));
      ConcatAssoc([lines[0]], lines[1..], UniversalLines(Join(rest, eol)));
    }
  }

  /** On lines without stray breaks, splitting on the file's ending and text mode agree. */
  lemma UniversalJoin(lines: seq<string>, eol: string)
    requires IsEol(eol) && lines != [] && forall l :: l in lines ==> NoBreaks(l)
    ensures UniversalLines(Join(lines, eol)) == lines
  {
    var n := |lines| - 1;
    assert lines == lines[..n] + lines[n..];
    UniversalPrefix(lines[..n], eol, lines[n..]);
    assert lines[n] in lines;
    UniversalLast(lines[n]);
  }

  // ----- The lines inside the pieces ---------------------------------------------------------------

  /** The lines of all pieces, each read in text mode. */
  function AllLines(pieces: seq<string>): seq<string> {
    if pieces == [] then [] else UniversalLines(pieces[0]) + AllLines(pieces[1..])
  }

  lemma {:induction false} AllLinesConcat(a: seq<string>, b: seq<string>)
    ensures AllLines(a + b) == AllLines(a) + AllLines(b)
  {
    if a == [] {
      assert a + b == b;
    } else {
      assert (a + b)[1..] == a[1..] + b;
      AllLinesConcat(a[1..], b);
      ConcatAssoc(UniversalLines(a[0]), AllLines(a[1..]), AllLines(b));
    }
  }

  /** Text mode breaks a text at its own ending and inside the pieces. */
  lemma {:induction false} JoinedLines(pieces: seq<string>, eol: string)
    requires pieces != [] && IsEol(eol) && (eol == "\n" ==> NewlineLines(pieces))
    ensures UniversalLines(Join(pieces, eol)) == AllLines(pieces)
  {
    if |pieces| == 1 {
      assert AllLines(pieces) == UniversalLines(pieces[0]) + [];
    } else {
      JoinedLines(pieces[1..], eol);
      UniversalPiece(pieces[0], eol, Join(pieces[1..], eol));
    }
  }

  /** A word without breaks that stands in a text stands in one of its lines, and conversely. */
  lemma {:induction false} WordInLines(t: string, word: string)
    requires NoBreaks(word) && word != ""
    ensures Contains(t, word) <==> exists l :: l in UniversalLines(t) && Contains(l, word)
    decreases |t|
  {
    if t == "" {
    } else if "\r\n" <= t {
      WordInLines(t[2..], word);
      SkipBreak(t, 2, word);
    } else if t[0] == '\n' || t[0] == '\r' {
      WordInLines(t[1..], word);
      SkipBreak(t, 1, word);
    } else {
      WordInLines(t[1..], word);
      WordInFirstLine(t, word);
    }
  }

  /** A word does not begin in a break. */
  lemma SkipBreak(t: string, n: nat, word: string)
    requires NoBreaks(word) && word != "" && n <= |t| && forall k :: 0 <= k < n ==> t[k] == '\n' || t[k] == '\r'
    ensures Contains(t, word) <==> Contains(t[n..], word)
    ensures UniversalLines(t) == [""] + UniversalLines(t[n..]) ==>
              ((exists l :: l in UniversalLines(t) && Contains(l, word)) <==>
               (exists l :: l in UniversalLines(t[n..]) && Contains(l, word)))
  {
    TailContains(t, n, word);
    if Contains(t, word) {
      var k :| 0 <= k <= |t| && word <= t[k..];
      assert t[k] == word[0] && word[0] in word;
      assert t[n..][k - n..] == t[k..];
    }
    assert !Contains("", word);
  }

  /** A word in a text begins it or stands in what follows its first character. */
  lemma ContainsCons(t: string, sub: string)
    requires t != "" && sub != ""
    ensures Contains(t, sub) <==> sub <= t || Contains(t[1..], sub)
  {
    TailContains(t, 1, sub);
    assert t[0..] == t;
    if Contains(t, sub) && !(sub <= t) {
      var k :| 0 <= k <= |t| && sub <= t[k..];
      assert t[1..][k - 1..] == t[k..];
    }
  }

  lemma WordInFirstLine(t: string, word: string)
    requires NoBreaks(word) && word != "" && t != "" && t[0] != '\n' && t[0] != '\r'
    requires Contains(t[1..], word) <==> exists l :: l in UniversalLines(t[1..]) && Contains(l, word)
    ensures Contains(t, word) <==> exists l :: l in UniversalLines(t) && Contains(l, word)
  {
    var rest := UniversalLines(t[1..]);
    var first := [t[0]] + rest[0];
    assert UniversalLines(t) == [first] + rest[1..] && first[1..] == rest[0];
    assert forall l :: l in rest <==> l == rest[0] || l in rest[1..];
    ContainsCons(t, word);
    ContainsCons(first, word);
    LineBeginsText(t);
    if word <= t {
      WordBeginsLine(t, word);
    }
  }

  lemma {:induction false} WordBeginsLine(t: string, word: string)
    requires NoBreaks(word) && word <= t
    ensures word <= UniversalLines(t)[0]
    decreases |t|
  {
    if word != "" {
      assert t[0] == word[0] && word[0] in word;
      assert NoBreaks(word[1..]) by {
        assert forall c :: c in word[1..] ==> c in word;
      }
      WordBeginsLine(t[1..], word[1..]);
    }
  }

  lemma {:induction false} LineBeginsText(t: string)
    ensures UniversalLines(t)[0] <= t
    decreases |t|
  {
    if t != "" && t[0] != '\n' && t[0] != '\r' {
      LineBeginsText(t[1..]);
    }
  }

  // ----- The separators only some readers know -------------------------------------------------------

  /** Characters that end a line for splitlines, besides the line endings of text mode. */
  predicate IsSeparator(c: char) {
    c == '\U{B}' || c == '\U{C}' || '\U{1C}' <= c <= '\U{1E}' || c == '\U{85}' || c == '\U{2028}' || c == '\U{2029}'
  }

  lemma SeparatorsAre(c: char)
    ensures IsSeparator(c) <==> c in "\U{0B}\U{0C}\U{1C}\U{1D}\U{1E}\U{85}\U{2028}\U{2029}"
  {
  }

  predicate Whole(l: string) {
    forall c :: c in l ==> !IsSeparator(c)
  }

  /** A text-mode line as splitlines sees it; an empty last part is kept, which no reader of lines notices. */
  function Cuts(l: string): (parts: seq<string>)
    ensures parts != []
  {
    if l == "" then [""]
    else if IsSeparator(l[0]) then [""] + Cuts(l[1..])
    else Glued(l[0], Cuts(l[1..]))
  }

  function AllCuts(lines: seq<string>): seq<string> {
    if lines == [] then [] else Cuts(lines[0]) + AllCuts(lines[1..])
  }

  lemma {:induction false} AllCutsConcat(a: seq<string>, b: seq<string>)
    ensures AllCuts(a + b) == AllCuts(a) + AllCuts(b)
  {
    if a == [] {
      assert a + b == b;
    } else {
      assert (a + b)[1..] == a[1..] + b;
      AllCutsConcat(a[1..], b);
      ConcatAssoc(Cuts(a[0]), AllCuts(a[1..]), AllCuts(b));
    }
  }

  /** A cut line begins with its prefix, if the prefix is whole. */
  lemma {:induction false} CutsAfter(p: string, l: string)
    requires Whole(p)
    ensures Cuts(p + l) == [p + Cuts(l)[0]] + Cuts(l)[1..]
  {
    if p == "" {
      assert p + l == l && "" + Cuts(l)[0] == Cuts(l)[0];
    } else {
      assert p[0] in p && (p + l)[0] == p[0] && (p + l)[1..] == p[1..] + l;
      assert forall c :: c in p[1..] ==> c in p;
      CutsAfter(p[1..], l);
      assert p == [p[0]] + p[1..];
      ConcatAssoc([p[0]], p[1..], Cuts(l)[0]);
    }
  }

  lemma CutsOfWhole(l: string)
    requires Whole(l)
    ensures Cuts(l) == [l]
  {
    CutsAfter(l, "");
    ConcatEmpty(l);
  }

  lemma {:induction false} CutsAreWhole(l: string)
    ensures forall part :: part in Cuts(l) ==> Whole(part)
  {
    if l != "" {
      CutsAreWhole(l[1..]);
      assert Cuts(l[1..])[0] in Cuts(l[1..]);
    }
  }

  lemma {:induction false} AllCutsAreWhole(lines: seq<string>)
    ensures forall part :: part in AllCuts(lines) ==> Whole(part)
  {
    if lines != [] {
      CutsAreWhole(lines[0]);
      AllCutsAreWhole(lines[1..]);
    }
  }
}
