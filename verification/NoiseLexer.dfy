/**
 The noise lexer of the lint ratchet: strings, raw strings, char literals and line comments are
 removed so that the braces and calls that remain are real code.
 */
module NoiseLexer {
  import opened Prelude

  // The tool runs it line by line, carrying (in a string, hashes of the open raw string). It is proved equal to
  // one left-to-right lexing of the whole text.

  datatype LexState = LexState(inStr: bool, raw: nat)

  const NORMAL := LexState(false, 0)

  function Hashes(n: nat): string {
    seq(n, _ => '#')
  }

  /** Where a char literal opened at column 0 closes; a lifetime or stray apostrophe has no close. */
  function CharClose(l: string, k: nat): Option<nat>
    decreases |l| - k
  {
    if k >= |l| || k > 10 then None
    else if l[k] == '\\' then CharClose(l, k + 2)
    else if l[k] == '\'' then Some(k)
    else if l[k] == ' ' || l[k] == '\t' || l[k] == '(' then None
    else CharClose(l, k + 1)
  }

  function HashRun(l: string, k: nat): (n: nat)
    requires k <= |l|
    ensures k + n <= |l|
    ensures forall j :: k <= j < k + n ==> l[j] == '#'
    ensures k + n < |l| ==> l[k + n] != '#'
    decreases |l| - k
  {
    if k == |l| || l[k] != '#' then 0 else 1 + HashRun(l, k + 1)
  }

  datatype Piece = Piece(length: nat, out: string, next: LexState)

  function Least(a: nat, b: nat): nat {
    if a < b then a else b
  }

  /** One iteration of the lexer on what is left of a line. */
  function Step(l: string, st: LexState): (p: Piece)
    requires l != ""
    ensures 0 < p.length <= |l|
    ensures p.out == "" || (p.length == 1 && p.out == [l[0]] && l[0] != '"' && l[0] != '\'')
  {
    if st.raw > 0 then
      if "\"" + Hashes(st.raw) <= l then Piece(1 + st.raw, "", st.(raw := 0)) else Piece(1, "", st)
    else if st.inStr then
      if l[0] == '\\' then Piece(Least(2, |l|), "", st)
      else if l[0] == '"' then Piece(1, "", st.(inStr := false))
      else Piece(1, "", st)
    else if l[0] == '"' then Piece(1, "", st.(inStr := true))
    else if l[0] == '\'' then
      match CharClose(l, 1) {
        case Some(k) => if k < |l| then Piece(k + 1, "", st) else Piece(1, "", st)
        case None => Piece(1, "", st)
      }
    else if l[0] == 'r' && 1 + HashRun(l, 1) < |l| && l[1 + HashRun(l, 1)] == '"' then
      var h := HashRun(l, 1);
      Piece(h + 2, "", if h > 0 then LexState(false, h) else LexState(true, 0))
    else if "//" <= l then Piece(|l|, "", st)
    else Piece(1, [l[0]], st)
  }

  /** Lexing one line: the text that is kept. */
  function LineKept(l: string, st: LexState): string
    decreases |l|
  {
    if l == "" then "" else var p := Step(l, st); p.out + LineKept(l[p.length..], p.next)
  }

  /** Lexing one line: the state carried into the next. */
  function LineState(l: string, st: LexState): LexState
    decreases |l|
  {
    if l == "" then st else var p := Step(l, st); LineState(l[p.length..], p.next)
  }

  /** Length of the first line, its newline included. */
  function LineLength(text: string): (n: nat)
    ensures n <= |text| && (text != "" ==> n > 0)
  {
    if text == "" then 0 else if text[0] == '\n' then 1 else 1 + LineLength(text[1..])
  }

  /** Lexing a whole text in one go; only the lookahead is bounded by the current line. */
  function TextKept(text: string, st: LexState): string
    decreases |text|
  {
    if text == "" then ""
    else var p := Step(text[..LineLength(text)], st); p.out + TextKept(text[p.length..], p.next)
  }

  function TextState(text: string, st: LexState): LexState
    decreases |text|
  {
    if text == "" then st
    else var p := Step(text[..LineLength(text)], st); TextState(text[p.length..], p.next)
  }

  // ----- Braces in the kept text ------------------------------------------------------------------

  function Occurrences(code: string, c: char): nat {
    if code == "" then 0 else (if code[0] == c then 1 else 0) + Occurrences(code[1..], c)
  }

  function Net(code: string): int {
    Occurrences(code, '{') - Occurrences(code, '}')
  }

  // ----- Line by line is the same as all at once --------------------------------------------------

  predicate EndsLine(text: string) {
    text == "" || text[|text| - 1] == '\n'
  }

  lemma {:induction false} LineLengthPrefix(a: string, b: string)
    requires a != "" && EndsLine(a)
    ensures LineLength(a + b) == LineLength(a)
  {
    assert (a + b)[0] == a[0] && (a + b)[1..] == a[1..] + b;
    if a[0] != '\n' {
      LineLengthPrefix(a[1..], b);
    }
  }

  lemma {:induction false} LineLengthRest(text: string, n: nat)
    requires n < LineLength(text)
    ensures LineLength(text[n..]) == LineLength(text) - n
  {
    if n > 0 {
      LineLengthRest(text[1..], n - 1);
      assert text[1..][n - 1..] == text[n..];
    } else {
      assert text[0..] == text;
    }
  }

  /** On a single line the two lexers agree. */
  lemma {:induction false} OneLine(l: string, st: LexState)
    requires LineLength(l) == |l|
    ensures TextKept(l, st) == LineKept(l, st) && TextState(l, st) == LineState(l, st)
    decreases |l|
  {
    if l != "" {
      assert l[..LineLength(l)] == l;
      var n := Step(l, st).length;
      if n < |l| {
        LineLengthRest(l, n);
      }
      OneLine(l[n..], Step(l, st).next);
    }
  }

  /** What follows a cut at a newline does not change how the part before it is stepped through. */
  lemma SameFirstLine(a: string, b: string, n: nat)
    requires a != "" && EndsLine(a) && n <= LineLength(a)
    ensures LineLength(a + b) == LineLength(a)
    ensures (a + b)[..LineLength(a)] == a[..LineLength(a)]
    ensures (a + b)[n..] == a[n..] + b && EndsLine(a[n..])
  {
    LineLengthPrefix(a, b);
  }

  lemma {:induction false} StateSplits(a: string, b: string, st: LexState)
    requires EndsLine(a)
    ensures TextState(a + b, st) == TextState(b, TextState(a, st))
    decreases |a|
  {
    if a == "" {
      assert a + b == b;
    } else {
      var p := Step(a[..LineLength(a)], st);
      SameFirstLine(a, b, p.length);
      StateSplits(a[p.length..], b, p.next);
    }
  }

  /** A text can be cut after any newline: lexing the parts in turn, carrying the state, is lexing it whole. */
  lemma {:induction false} KeptSplits(a: string, b: string, st: LexState)
    requires EndsLine(a)
    ensures TextKept(a + b, st) == TextKept(a, st) + TextKept(b, TextState(a, st))
    decreases |a|
  {
    if a == "" {
      assert a + b == b;
    } else {
      var p := Step(a[..LineLength(a)], st);
      SameFirstLine(a, b, p.length);
      KeptSplits(a[p.length..], b, p.next);
      ConcatAssoc(p.out, TextKept(a[p.length..], p.next), TextKept(b, TextState(a, st)));
    }
  }

  function Concat(lines: seq<string>): string {
    if lines == [] then "" else Concat(lines[..|lines| - 1]) + lines[|lines| - 1]
  }

  /** What reading a file line by line yields: only the last line may lack its newline. */
  predicate FileLines(lines: seq<string>) {
    forall i :: 0 <= i < |lines| ==>
      LineLength(lines[i]) == |lines[i]| && (i < |lines| - 1 ==> EndsLine(lines[i]))
  }

  lemma {:induction false} ConcatEndsLine(lines: seq<string>)
    requires forall i :: 0 <= i < |lines| ==> EndsLine(lines[i])
    ensures EndsLine(Concat(lines))
  {
    if lines != [] {
      ConcatEndsLine(lines[..|lines| - 1]);
    }
  }

  // ----- The lexer as the tool runs it ------------------------------------------------------------

  /** The char-literal lookahead loop. */
  method ScanCharLiteral(line: string, i: nat) returns (k: nat, closed: bool)
    requires i < |line|
    ensures closed <==> CharClose(line[i..], 1).Some?
    ensures closed ==> CharClose(line[i..], 1) == Some(k - i) && i < k < |line|
  {
    k, closed := i + 1, false;
    while k < |line| && k - i <= 10
      invariant i < k && !closed
      invariant CharClose(line[i..], k - i) == CharClose(line[i..], 1)
      decreases |line| - k
    {
      var ch := line[k];
      assert line[i..][k - i] == ch;
      if ch == '\\' {
        k := k + 2;
        continue;
      }
      if ch == '\'' {
        closed := true;
        break;
      }
      if ch == ' ' || ch == '\t' || ch == '(' {
        break;
      }
      k := k + 1;
    }
  }

  /** What may stand between the apostrophes: escaped pairs, and plain characters but blanks and parentheses. */
  predicate IsLiteral(body: string) {
    if body == "" then true
    else if body[0] == '\\' then |body| >= 2 && IsLiteral(body[2..])
    else body[0] !in {'\'', ' ', '\t', '('} && IsLiteral(body[1..])
  }

  lemma {:induction false} LiteralCloses(l: string, k: nat, body: string, rest: string)
    requires k <= |l| && l[k..] == body + "'" + rest && IsLiteral(body)
    ensures CharClose(l, k) == if k + |body| <= 10 then Some(k + |body|) else None
    decreases |body|
  {
    assert l[k] == (body + "'" + rest)[0];
    if body != "" && k <= 10 {
      var n := if body[0] == '\\' then 2 else 1;
      assert l[k + n..] == l[k..][n..] == body[n..] + "'" + rest;
      LiteralCloses(l, k + n, body[n..], rest);
    }
  }

  /**
   A char literal of up to nine characters leaves no trace, `'"'` and `'\u{1F600}'` among them; a longer one is not
   seen.
   */
  lemma {:induction false} CharLiteralIsTakenWhole(body: string, rest: string)
    requires IsLiteral(body)
    ensures CharClose("'" + body + "'" + rest, 1) == if |body| <= 9 then Some(|body| + 1) else None
    ensures |body| <= 9 ==> LineKept("'" + body + "'" + rest, NORMAL) == LineKept(rest, NORMAL)
    ensures |body| <= 9 ==> LineState("'" + body + "'" + rest, NORMAL) == LineState(rest, NORMAL)
  {
    var l := "'" + body + "'" + rest;
    assert l[1..] == body + "'" + rest;
    LiteralCloses(l, 1, body, rest);
    if |body| <= 9 {
      assert Step(l, NORMAL) == Piece(|body| + 2, "", NORMAL);
      assert l[|body| + 2..] == rest;
    }
  }

  lemma SampleLiterals()
    ensures IsLiteral("\"") && IsLiteral("\\\"") && IsLiteral("\\'") && IsLiteral("\\n")
    ensures IsLiteral("\\u{1F600}") && |"\\u{1F600}"| == 9
  {
    PlainLiteral("{1F600}", 0);
    assert "\\u{1F600}"[2..] == "{1F600}" && "{1F600}"[0..] == "{1F600}";
  }

  lemma {:induction false} PlainLiteral(s: string, k: nat)
    requires k <= |s| && forall i :: 0 <= i < |s| ==> s[i] !in {'\\', '\'', ' ', '\t', '('}
    ensures IsLiteral(s[k..])
    decreases |s| - k
  {
    if k < |s| {
      PlainLiteral(s, k + 1);
      assert s[k..][1..] == s[k + 1..];
    }
  }

  method CountHashes(line: string, i: nat) returns (hashes: nat)
    requires i + 1 <= |line|
    ensures hashes == HashRun(line[i..], 1)
  {
    var j := i + 1;
    hashes := 0;
    while j < |line| && line[j] == '#'
      invariant i + 1 <= j <= |line| && hashes == j - i - 1
      invariant HashRun(line[i..], 1) == hashes + HashRun(line[i..], 1 + hashes)
    {
      assert line[i..][1 + hashes] == line[j];
      j := j + 1;
      hashes := hashes + 1;
    }
  }

  /** One iteration: how many characters it consumes, what it keeps, and the state after it. */
  method LexOne(line: string, i: nat, inStr0: bool, raw0: nat)
    returns (length: nat, out: string, inStr: bool, raw: nat)
    requires i < |line|
    ensures Piece(length, out, LexState(inStr, raw)) == Step(line[i..], LexState(inStr0, raw0))
  {
    out, inStr, raw := "", inStr0, raw0;
    var c, rest := line[i], line[i..];
    if raw > 0 {
      if "\"" + Hashes(raw) <= rest {
        length, raw := 1 + raw, 0;
      } else {
        length := 1;
      }
      return;
    }
    if inStr {
      length := if c == '\\' then Least(2, |rest|) else 1;
      inStr := c != '"';
      return;
    }
    if c == '"' {
      length, inStr := 1, true;
      return;
    }
    if c == '\'' {
      var k, closed := ScanCharLiteral(line, i);
      length := if closed then k + 1 - i else 1;
      return;
    }
    if c == 'r' && i + 1 < |line| {
      var hashes := CountHashes(line, i);
      if 1 + hashes < |rest| && rest[1 + hashes] == '"' {
        if hashes > 0 {
          raw := hashes;
        } else {
          inStr := true;
        }
        length := hashes + 2;
        return;
      }
    }
    if c == '/' && i + 1 < |line| && line[i + 1] == '/' {
      assert rest[1] == '/' && "//" <= rest;
      length := |rest|;
      return;
    }
    length, out := 1, [c];
  }

  /** `rest` of the line is still to be lexed from state st, `out` has been kept so far. */
  predicate LexedSoFar(line: string, state: LexState, rest: string, out: string, st: LexState) {
    out + LineKept(rest, st) == LineKept(line, state) && LineState(rest, st) == LineState(line, state)
  }

  lemma LexedFurther(line: string, state: LexState, rest: string, out: string, st: LexState, p: Piece)
    requires LexedSoFar(line, state, rest, out, st) && rest != "" && p == Step(rest, st)
    ensures LexedSoFar(line, state, rest[p.length..], out + p.out, p.next)
  {
    ConcatAssoc(out, p.out, LineKept(rest[p.length..], p.next));
  }

  lemma DropTwice(line: string, i: nat, n: nat)
    requires i + n <= |line|
    ensures line[i..][n..] == line[i + n..]
  {
  }

  /** The stateful line lexer. */
  method StripLineNoise(line: string, state: LexState) returns (out: string, last: LexState)
    ensures out == LineKept(line, state) && last == LineState(line, state)
  {
    out, last := "", state;
    var i := 0;
    assert line[0..] == line;
    while i < |line|
      invariant 0 <= i <= |line|
      invariant LexedSoFar(line, state, line[i..], out, last)
    {
      out, last, i := LexMore(line, state, i, out, last);
    }
    assert line[i..] == "";
    LexedAll(line, state, out, last);
  }

  lemma {:induction false} LexedAll(line: string, state: LexState, out: string, st: LexState)
    requires LexedSoFar(line, state, "", out, st)
    ensures out == LineKept(line, state) && st == LineState(line, state)
  {
    ConcatEmpty(out);
  }

  /** One iteration, on what is left of the line. */
  method LexMore(line: string, ghost state: LexState, i: nat, kept: string, st: LexState)
    returns (out: string, last: LexState, next: nat)
    requires i < |line| && LexedSoFar(line, state, line[i..], kept, st)
    ensures i < next <= |line| && LexedSoFar(line, state, line[next..], out, last)
  {
    var length, more, inStr, raw := LexOne(line, i, st.inStr, st.raw);
    LexedFurther(line, state, line[i..], kept, st, Piece(length, more, LexState(inStr, raw)));
    DropTwice(line, i, length);
    out, last, next := kept + more, LexState(inStr, raw), i + length;
  }

  lemma {:induction false} ConcatSnoc(lines: seq<string>, l: string)
    ensures Concat(lines + [l]) == Concat(lines) + l
  {
    assert (lines + [l])[..|lines|] == lines;
  }

  /** One more line read: the lexing of everything so far, extended. */
  lemma {:induction false} ReadLine(lines: seq<string>, i: nat, codes: seq<string>, st: LexState)
    requires FileLines(lines) && i < |lines|
    requires Concat(codes) == TextKept(Concat(lines[..i]), NORMAL) && st == TextState(Concat(lines[..i]), NORMAL)
    ensures Concat(codes + [LineKept(lines[i], st)]) == TextKept(Concat(lines[..i + 1]), NORMAL)
    ensures LineState(lines[i], st) == TextState(Concat(lines[..i + 1]), NORMAL)
  {
    assert lines[..i + 1] == lines[..i] + [lines[i]];
    ConcatSnoc(lines[..i], lines[i]);
    ConcatSnoc(codes, LineKept(lines[i], st));
    ConcatEndsLine(lines[..i]);
    OneLine(lines[i], st);
    KeptSplits(Concat(lines[..i]), lines[i], NORMAL);
    StateSplits(Concat(lines[..i]), lines[i], NORMAL);
  }

  /** Reading a file line by line yields, in all, the one lexing of its whole text. */
  method StripFile(lines: seq<string>) returns (codes: seq<string>, last: LexState)
    requires FileLines(lines)
    ensures |codes| == |lines|
    ensures Concat(codes) == TextKept(Concat(lines), NORMAL) && last == TextState(Concat(lines), NORMAL)
  {
    codes, last := [], NORMAL;
    var i := 0;
    while i < |lines|
      invariant 0 <= i <= |lines| && |codes| == i
      invariant Concat(codes) == TextKept(Concat(lines[..i]), NORMAL)
      invariant last == TextState(Concat(lines[..i]), NORMAL)
    {
      ReadLine(lines, i, codes, last);
      var code;
      code, last := StripLineNoise(lines[i], last);
      codes := codes + [code];
      i := i + 1;
    }
    assert lines[..i] == lines;
  }

  /** Text without quotes, slashes and the letter r is kept as it is; a line comment is dropped to its end. */
  lemma {:induction false} CodeIsKept(code: string, comment: string)
    requires forall k :: 0 <= k < |code| ==> code[k] !in {'"', '\'', '/', 'r'}
    ensures LineKept(code, NORMAL) == code
    ensures LineKept(code + "//" + comment, NORMAL) == code && LineState(code + "//" + comment, NORMAL) == NORMAL
  {
    KeptThen(code, "", "", NORMAL);
    ConcatEmpty(code);
    CommentIsDropped(comment);
    KeptThen(code, "//" + comment, "", NORMAL);
    ConcatAssoc(code, "//", comment);
  }

  predicate KeptAs(l: string, out: string, last: LexState) {
    LineKept(l, NORMAL) == out && LineState(l, NORMAL) == last
  }

  lemma OneKeptAs(c: char, l: string, out: string, last: LexState)
    requires c !in {'"', '\'', '/', 'r'} && KeptAs(l, out, last)
    ensures KeptAs([c] + l, [c] + out, last)
  {
    assert ([c] + l)[1..] == l;
  }

  /** Such text passes through the lexer in front of any other. */
  lemma {:induction false} KeptThen(code: string, rest: string, out: string, last: LexState)
    requires forall k :: 0 <= k < |code| ==> code[k] !in {'"', '\'', '/', 'r'}
    requires KeptAs(rest, out, last)
    ensures KeptAs(code + rest, code + out, last)
  {
    if code == "" {
      ConcatEmpty(rest);
      ConcatEmpty(out);
    } else {
      var c, more := code[0], code[1..];
      KeptThen(more, rest, out, last);
      OneKeptAs(c, more + rest, more + out, last);
      ConcatAssoc([c], more, rest);
      ConcatAssoc([c], more, out);
      assert code == [c] + more;
    }
  }

  lemma CommentIsDropped(comment: string)
    ensures LineKept("//" + comment, NORMAL) == "" && LineState("//" + comment, NORMAL) == NORMAL
  {
    var l := "//" + comment;
    assert l[|l|..] == "";
  }

  // ----- What is kept -----------------------------------------------------------------------------

  /** `kept` can be obtained from `text` by deleting characters. */
  predicate Subsequence(kept: string, text: string)
    decreases |text|
  {
    if kept == "" then true
    else if text == "" then false
    else (kept[0] == text[0] && Subsequence(kept[1..], text[1..])) || Subsequence(kept, text[1..])
  }

  lemma {:induction false} SubsequenceAfter(kept: string, text: string, n: nat)
    requires n <= |text| && Subsequence(kept, text[n..])
    ensures Subsequence(kept, text)
  {
    if n > 0 {
      assert text[n..] == text[1..][n - 1..];
      SubsequenceAfter(kept, text[1..], n - 1);
    } else {
      assert text[0..] == text;
    }
  }

  /** Only characters of the text are kept, in order, and never a quote or an apostrophe. */
  lemma {:induction false} KeptIsCleanSubsequence(text: string, st: LexState)
    ensures Subsequence(TextKept(text, st), text)
    ensures forall c :: c in TextKept(text, st) ==> c != '"' && c != '\''
    decreases |text|
  {
    if text != "" {
      var p := Step(text[..LineLength(text)], st);
      KeptIsCleanSubsequence(text[p.length..], p.next);
      var rest := TextKept(text[p.length..], p.next);
      if p.out == "" {
        assert TextKept(text, st) == rest;
        SubsequenceAfter(rest, text, p.length);
      } else {
        assert ([text[0]] + rest)[1..] == rest;
      }
    }
  }

  // ----- Raw strings ------------------------------------------------------------------------------

  /** The body of a raw string with h hashes: no quote in it is followed by h hashes. */
  predicate RawBody(body: string, h: nat) {
    forall k :: 0 <= k < |body| ==> !("\"" + Hashes(h) <= body[k..])
  }

  lemma {:induction false} LineLengthAtLeast(text: string, n: nat)
    requires n <= |text| && forall k :: 0 <= k < n ==> text[k] != '\n'
    ensures text != "" ==> LineLength(text) >= n
  {
    if n > 0 {
      LineLengthAtLeast(text[1..], n - 1);
    }
  }

  /** Neither the rest of the text nor the end of the line can complete a close begun inside the body. */
  lemma NoEarlyClose(body: string, h: nat, tail: string, l: string)
    requires body != "" && h > 0 && RawBody(body, h)
    requires l <= body + ("\"" + Hashes(h)) + tail
    ensures !("\"" + Hashes(h) <= l)
  {
    var close := "\"" + Hashes(h);
    assert body[0..] == body && !(close <= body);
    if |close| <= |body| {
      var j :| 0 <= j < |close| && body[j] != close[j];
      assert j < |l| ==> l[j] == body[j];
    } else {
      assert |body| < |l| ==> l[|body|] == '"' && close[|body|] == '#';
    }
  }

  /** Inside a raw string everything up to its close is skipped, newlines and all. */
  lemma {:induction false} RawBodySkipped(body: string, h: nat, tail: string)
    requires h > 0 && RawBody(body, h)
    ensures TextKept(body + ("\"" + Hashes(h)) + tail, LexState(false, h)) == TextKept(tail, NORMAL)
    ensures TextState(body + ("\"" + Hashes(h)) + tail, LexState(false, h)) == TextState(tail, NORMAL)
    decreases |body|
  {
    var close := "\"" + Hashes(h);
    var text := body + close + tail;
    var l := text[..LineLength(text)];
    if body == "" {
      LineLengthAtLeast(text, 1 + h);
      assert close <= l;
      assert text[1 + h..] == tail;
    } else {
      NoEarlyClose(body, h, tail, l);
      assert text[1..] == body[1..] + close + tail;
      forall k | 0 <= k < |body[1..]| ensures !(close <= body[1..][k..]) {
        assert body[1..][k..] == body[k + 1..];
      }
      RawBodySkipped(body[1..], h, tail);
    }
  }

  lemma {:induction false} HashRunOf(l: string, k: nat, n: nat)
    requires k + n < |l| && (forall j :: k <= j < k + n ==> l[j] == '#') && l[k + n] != '#'
    ensures HashRun(l, k) == n
    decreases n
  {
    if n > 0 {
      HashRunOf(l, k + 1, n - 1);
    }
  }

  lemma {:induction false} RawOpener(l: string, h: nat)
    requires h > 0 && |l| >= h + 2 && l[0] == 'r' && l[h + 1] == '"' && forall k :: 1 <= k < h + 1 ==> l[k] == '#'
    ensures Step(l, NORMAL) == Piece(h + 2, "", LexState(false, h))
  {
    HashRunOf(l, 1, h);
  }

  /**
   A raw string with at least one hash is invisible, whatever it contains: quotes, braces, comment
   markers, line breaks. So it cannot skew the brace count of the lines it spans.
   */
  lemma RawStringIsInvisible(body: string, h: nat, tail: string)
    requires h > 0 && RawBody(body, h)
    ensures var text := "r" + Hashes(h) + "\"" + (body + ("\"" + Hashes(h)) + tail);
            TextKept(text, NORMAL) == TextKept(tail, NORMAL) && TextState(text, NORMAL) == TextState(tail, NORMAL)
  {
    var inner := body + ("\"" + Hashes(h)) + tail;
    var text := "r" + Hashes(h) + "\"" + inner;
    LineLengthAtLeast(text, h + 2);
    RawOpener(text[..LineLength(text)], h);
    assert text[h + 2..] == inner;
    RawBodySkipped(body, h, tail);
  }

  // ----- Raw strings without hashes ---------------------------------------------------------------

  /** How many backslashes the text ends with. */
  function TailRun(text: string): (n: nat)
    ensures n <= |text|
    ensures forall k :: |text| - n <= k < |text| ==> text[k] == '\\'
    ensures n < |text| ==> text[|text| - n - 1] != '\\'
  {
    if text == "" || text[|text| - 1] != '\\' then 0 else 1 + TailRun(text[..|text| - 1])
  }

  lemma {:induction false} TailRunDrop(text: string, n: nat)
    requires n <= |text|
    ensures TailRun(text[n..]) == if TailRun(text) < |text| - n then TailRun(text) else |text| - n
  {
    if n < |text| {
      var m := |text| - 1;
      assert text[n..][..|text[n..]| - 1] == text[..m][n..];
      TailRunDrop(text[..m], n);
    }
  }

  /** Reading on in a string never splits a trailing run of backslashes at the wrong parity. */
  lemma {:induction false} TailRunParity(body: string, n: nat)
    requires n <= |body| && body != "" && n == if body[0] == '\\' then 2 else 1
    ensures TailRun(body[n..]) % 2 == TailRun(body) % 2
  {
    TailRunDrop(body, n);
    assert TailRun(body) == |body| - 1 ==> body[|body| - TailRun(body) - 1] == body[0];
  }

  lemma {:induction false} InStringStep(l: string)
    requires l != ""
    ensures var p := Step(l, LexState(true, 0));
            p.length == (if l[0] == '\\' then Least(2, |l|) else 1) && p.next == LexState(l[0] != '"', 0)
  {
  }

  lemma {:induction false} StringBody(body: string)
    requires '"' !in body
    ensures LineState(body + "\"", LexState(true, 0)) == LexState(TailRun(body) % 2 == 1, 0)
    decreases |body|
  {
    var l := body + "\"";
    InStringStep(l);
    if body == "" {
      assert l[1..] == "";
    } else {
      var n := if body[0] == '\\' then 2 else 1;
      assert l[0] == body[0] && body[0] in body;
      if n <= |body| {
        assert l[n..] == body[n..] + "\"";
        StringBody(body[n..]);
        TailRunParity(body, n);
      } else {
        assert body == "\\" && l[2..] == "";
      }
    }
  }

  /**
   r"body" is promised to be read as a raw string, but backslashes still escape: the literal is closed
   by its own quote exactly when its body ends with an even number of backslashes.
   */
  lemma BareRawStringClosesIff(body: string)
    requires '"' !in body
    ensures LineState("r\"" + body + "\"", NORMAL) == NORMAL <==> TailRun(body) % 2 == 0
  {
    var l := "r\"" + body + "\"";
    HashRunOf(l, 1, 0);
    assert l[2..] == body + "\"";
    StringBody(body);
  }
}
