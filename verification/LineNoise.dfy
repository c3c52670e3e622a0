/**
 The simpler noise filter of the await and subscribe gates: each line on its own, strings and line
 comments only. How it compares with the lint ratchet's lexer, which knows char literals and raw strings.
 */
module LineNoise {
  import opened Prelude
  import opened NoiseLexer

  /** What is kept of a line, given whether a string is open. */
  function Stripped(l: string, inStr: bool): string
    decreases |l|
  {
    if l == "" then ""
    else if inStr then
      if l[0] == '\\' then Stripped(l[Least(2, |l|)..], true) else Stripped(l[1..], l[0] != '"')
    else if l[0] == '"' then Stripped(l[1..], true)
    else if "//" <= l then ""
    else [l[0]] + Stripped(l[1..], false)
  }

  /** `out` has been kept of the line, `rest` is still to be read. */
  predicate StrippedSoFar(line: string, out: string, rest: string, inStr: bool) {
    out + Stripped(rest, inStr) == Stripped(line, false)
  }

  method StripNoise(line: string) returns (out: string)
    ensures out == Stripped(line, false)
  {
    out := "";
    var inStr, i := false, 0;
    assert line[0..] == line;
    while i < |line|
      invariant 0 <= i <= |line|
      invariant StrippedSoFar(line, out, line[i..], inStr)
    {
      ghost var rest := line[i..];
      var c := line[i];
      if inStr {
        if c == '\\' {
          i := Least(i + 2, |line|);
          assert rest[Least(2, |rest|)..] == line[i..];
          continue;
        }
        if c == '"' {
          inStr := false;
        }
        i := i + 1;
        assert rest[1..] == line[i..];
        continue;
      }
      if c == '"' {
        inStr := true;
        i := i + 1;
        assert rest[1..] == line[i..];
        continue;
      }
      if c == '/' && i + 1 < |line| && line[i + 1] == '/' {
        assert rest[1] == '/' && "//" <= rest;
        ConcatEmpty(out);
        return;
      }
      ConcatAssoc(out, [c], Stripped(rest[1..], false));
      out := out + [c];
      i := i + 1;
      assert rest[1..] == line[i..];
    }
    assert line[i..] == "";
    ConcatEmpty(out);
  }

  /** No `r`, hashes and a quote in a row. */
  predicate NoRawOpener(l: string) {
    forall k, m :: 0 <= k < m < |l| && l[k] == 'r' && l[m] == '"' ==> exists j :: k < j < m && l[j] != '#'
  }

  lemma NoRawOpenerLater(l: string, n: nat)
    requires n <= |l| && NoRawOpener(l)
    ensures NoRawOpener(l[n..])
  {
    forall k, m | 0 <= k < m < |l[n..]| && l[n..][k] == 'r' && l[n..][m] == '"'
      ensures exists j :: k < j < m && l[n..][j] != '#'
    {
      var j :| k + n < j < m + n && l[j] != '#';
      assert l[n..][j - n] == l[j];
    }
  }

  lemma {:induction false} KeptHasNoApostrophe(l: string, st: LexState)
    ensures '\'' !in LineKept(l, st)
    decreases |l|
  {
    if l != "" {
      KeptHasNoApostrophe(l[Step(l, st).length..], Step(l, st).next);
    }
  }

  /** Outside char literals and raw strings one step of the lexer is one step of the filter. */
  lemma SameStep(l: string, inStr: bool)
    requires l != "" && NoRawOpener(l) && (inStr || l[0] != '\'')
    ensures var p := Step(l, LexState(inStr, 0));
            p.next.raw == 0 && Stripped(l, inStr) == p.out + Stripped(l[p.length..], p.next.inStr) &&
            '\'' !in p.out
  {
    if !inStr && l[0] == 'r' {
      var m := 1 + HashRun(l, 1);
      assert forall j :: 0 < j < m ==> l[j] == '#';
    }
    if !inStr && "//" <= l {
      assert l[|l|..] == "";
    }
  }

  /**
   On a line without a raw string opener the filter agrees with the lexer exactly when it has kept no
   apostrophe: no char literal and no lifetime stands outside a string.
   */
  lemma {:induction false} AgreesWithLexerIff(l: string, inStr: bool)
    requires NoRawOpener(l)
    ensures Stripped(l, inStr) == LineKept(l, LexState(inStr, 0)) <==> '\'' !in Stripped(l, inStr)
    decreases |l|
  {
    KeptHasNoApostrophe(l, LexState(inStr, 0));
    if l != "" && (inStr || l[0] != '\'') {
      SameStep(l, inStr);
      var p := Step(l, LexState(inStr, 0));
      NoRawOpenerLater(l, p.length);
      AgreesWithLexerIff(l[p.length..], p.next.inStr);
      SamePrefix(p.out, Stripped(l[p.length..], p.next.inStr), LineKept(l[p.length..], p.next));
    }
  }

  lemma SamePrefix(x: string, a: string, b: string)
    ensures x + a == x + b <==> a == b
    ensures '\'' !in x ==> ('\'' in x + a <==> '\'' in a)
  {
    if x + a == x + b {
      assert a == (x + a)[|x|..] == (x + b)[|x|..] == b;
    }
  }

  // ----- When the braces agree --------------------------------------------------------------------

  /** The char literals the lexer takes out of a line. */
  function Literals(l: string, st: LexState): seq<string>
    decreases |l|
  {
    if l == "" then []
    else
      var p := Step(l, st);
      (if st == NORMAL && l[0] == '\'' && p.length > 1 then [l[..p.length]] else []) + Literals(l[p.length..], p.next)
  }

  /** The literal holds neither a double quote nor a `//`. */
  predicate Harmless(lit: string) {
    '"' !in lit && forall k :: 0 <= k < |lit| - 1 ==> lit[k] != '/' || lit[k + 1] != '/'
  }

  function NetOfAll(texts: seq<string>): int {
    if texts == [] then 0 else Net(texts[0]) + NetOfAll(texts[1..])
  }

  lemma {:induction false} OccurrencesConcat(a: string, b: string, c: char)
    ensures Occurrences(a + b, c) == Occurrences(a, c) + Occurrences(b, c)
  {
    if a == "" {
      ConcatEmpty(b);
    } else {
      assert (a + b)[0] == a[0] && (a + b)[1..] == a[1..] + b;
      OccurrencesConcat(a[1..], b, c);
    }
  }

  lemma {:induction false} NetConcat(a: string, b: string)
    ensures Net(a + b) == Net(a) + Net(b)
  {
    OccurrencesConcat(a, b, '{');
    OccurrencesConcat(a, b, '}');
  }

  lemma {:induction false} CloseIsApostrophe(l: string, k: nat)
    ensures CharClose(l, k).Some? ==> k <= CharClose(l, k).value < |l| && l[CharClose(l, k).value] == '\''
    decreases |l| - k
  {
    if k < |l| && k <= 10 {
      CloseIsApostrophe(l, if l[k] == '\\' then k + 2 else k + 1);
    }
  }

  /** The filter keeps a harmless literal as it stands. */
  lemma {:induction false} KeepsLiteral(lit: string, rest: string)
    requires Harmless(lit) && (lit != "" ==> lit[|lit| - 1] == '\'')
    ensures Stripped(lit + rest, false) == lit + Stripped(rest, false)
    decreases |lit|
  {
    var l := lit + rest;
    if lit == "" {
      ConcatEmpty(rest);
      ConcatEmpty(Stripped(rest, false));
    } else {
      assert l[0] == lit[0] && l[0] in lit && (|lit| > 1 ==> l[1] == lit[1]);
      assert l[1..] == lit[1..] + rest;
      assert forall c :: c in lit[1..] ==> c in lit;
      KeepsLiteral(lit[1..], rest);
      assert lit == [lit[0]] + lit[1..];
      ConcatAssoc([lit[0]], lit[1..], Stripped(rest, false));
    }
  }

  /** At an apostrophe the filter keeps what the lexer removes: a literal, or the apostrophe itself. */
  lemma {:induction false} ApostropheStep(l: string)
    requires l != "" && l[0] == '\''
    ensures var p := Step(l, NORMAL);
            p.next == NORMAL && p.out == "" &&
            (p.length == 1 || Harmless(l[..p.length]) ==>
               Stripped(l, false) == l[..p.length] + Stripped(l[p.length..], false))
  {
    CloseIsApostrophe(l, 1);
    var p := Step(l, NORMAL);
    assert l == l[..p.length] + l[p.length..];
    if p.length == 1 || Harmless(l[..p.length]) {
      KeepsLiteral(l[..p.length], l[p.length..]);
    }
  }

  /** The braces the filter counts are those the lexer counts and those of the char literals. */
  lemma {:induction false} NetOfStripped(l: string, inStr: bool)
    requires NoRawOpener(l) && forall x :: x in Literals(l, LexState(inStr, 0)) ==> Harmless(x)
    ensures Net(Stripped(l, inStr)) ==
            Net(LineKept(l, LexState(inStr, 0))) + NetOfAll(Literals(l, LexState(inStr, 0)))
    decreases |l|
  {
    if l != "" {
      var st := LexState(inStr, 0);
      var p := Step(l, st);
      var rest := l[p.length..];
      NoRawOpenerLater(l, p.length);
      if inStr || l[0] != '\'' {
        SameStep(l, inStr);
        ConcatEmpty(Literals(rest, p.next));
        NetOfStripped(rest, p.next.inStr);
        NetConcat(p.out, Stripped(rest, p.next.inStr));
        NetConcat(p.out, LineKept(rest, p.next));
      } else {
        ApostropheStep(l);
        LiteralFirst(l);
        NetOfStripped(rest, false);
        NetConcat(l[..p.length], Stripped(rest, false));
        NetConcat("", LineKept(rest, NORMAL));
      }
    }
  }

  lemma {:induction false} LiteralFirst(l: string)
    requires l != "" && l[0] == '\'' && forall x :: x in Literals(l, NORMAL) ==> Harmless(x)
    ensures var p := Step(l, NORMAL);
            p.next == NORMAL && (p.length == 1 || Harmless(l[..p.length])) &&
            (forall x :: x in Literals(l[p.length..], NORMAL) ==> Harmless(x)) &&
            NetOfAll(Literals(l, NORMAL)) == Net(l[..p.length]) + NetOfAll(Literals(l[p.length..], NORMAL))
  {
    ApostropheStep(l);
    var p := Step(l, NORMAL);
    var rest := Literals(l[p.length..], NORMAL);
    if p.length > 1 {
      assert Literals(l, NORMAL) == [l[..p.length]] + rest;
      assert l[..p.length] in [l[..p.length]] + rest;
      assert ([l[..p.length]] + rest)[1..] == rest;
      assert forall x :: x in rest ==> x in [l[..p.length]] + rest;
    } else {
      ConcatEmpty(rest);
      assert l[..1] == "'" && Net("'") == 0;
    }
  }

  /**
   On a line without a raw string opener whose char literals hold no quote and no `//`, the filter's net
   brace count is the lexer's exactly when the char literals' own braces balance. Lifetimes do no harm.
   */
  lemma {:induction false} NetAgreesIff(l: string, inStr: bool)
    requires NoRawOpener(l) && forall x :: x in Literals(l, LexState(inStr, 0)) ==> Harmless(x)
    ensures Net(Stripped(l, inStr)) == Net(LineKept(l, LexState(inStr, 0))) <==>
            NetOfAll(Literals(l, LexState(inStr, 0))) == 0
  {
    NetOfStripped(l, inStr);
  }

  // ----- Where they part --------------------------------------------------------------------------

  /** Text in which neither tool sees anything to remove. */
  predicate Plain(s: string) {
    forall k :: 0 <= k < |s| ==> s[k] != '"' && s[k] != '\'' && s[k] != '/' && s[k] != 'r'
  }

  lemma {:induction false} InStringToTheEnd(t: string)
    requires '"' !in t
    ensures Stripped(t, true) == ""
    decreases |t|
  {
    if t != "" {
      InStringToTheEnd(t[1..]);
      InStringToTheEnd(t[Least(2, |t|)..]);
    }
  }

  /**
   A quote in a char literal opens a string that is never closed: the filter loses everything after it on
   the line, braces included, where the lexer goes on.
   */
  lemma {:induction false} QuoteLiteralHidesTheRest(pre: string, t: string)
    requires Plain(pre) && '"' !in t
    ensures Stripped(pre + "'\"'" + t, false) == pre + "'"
    ensures LineKept(pre + "'\"'" + t, NORMAL) == pre + LineKept(t, NORMAL)
    decreases |pre|
  {
    var l := pre + "'\"'" + t;
    if pre == "" {
      assert l[1..] == "\"'" + t && l[1..][1..] == "'" + t && l[3..] == t;
      InStringToTheEnd("'" + t);
      assert CharClose(l, 2) == Some(2) && CharClose(l, 1) == Some(2);
    } else {
      assert l[0] == pre[0] && l[1..] == pre[1..] + "'\"'" + t;
      QuoteLiteralHidesTheRest(pre[1..], t);
      assert pre == [pre[0]] + pre[1..];
      ConcatAssoc([pre[0]], pre[1..], "'");
      ConcatAssoc([pre[0]], pre[1..], LineKept(t, NORMAL));
    }
  }

  /** So on such a line the net brace counts agree exactly when the rest's own braces balance. */
  lemma {:induction false} QuoteLiteralNetIff(pre: string, t: string)
    requires Plain(pre) && '"' !in t
    ensures var l := pre + "'\"'" + t;
            Net(Stripped(l, false)) == Net(LineKept(l, NORMAL)) <==> Net(LineKept(t, NORMAL)) == 0
  {
    QuoteLiteralHidesTheRest(pre, t);
    NetConcat(pre, "'");
    NetConcat(pre, LineKept(t, NORMAL));
    assert Net("'") == 0;
  }
}
