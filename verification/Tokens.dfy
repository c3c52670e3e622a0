/** What the scanners' regular expressions find on a noise-free line, in source order. */
module Tokens {

  datatype Token =
    | Open | Close             // braces
    | Let(name: string)        // `let name =`
    | Semicolon
    | LockCall
    | Await(acquires: bool)    // `.await`, perhaps of nothing but a lock call
    | Drop(dropped: string)    // `drop(name)`
    | Spawn                    // an async spawn call
    | Subscribe

  function Step(t: Token): int {
    if t == Open then 1 else if t == Close then -1 else 0
  }

  /** Braces opened minus braces closed. */
  function Net(tokens: seq<Token>): int {
    if tokens == [] then 0 else Net(tokens[..|tokens| - 1]) + Step(tokens[|tokens| - 1])
  }

  /** The least of these differences over the prefixes. */
  function Low(tokens: seq<Token>): (low: int)
    ensures low <= 0 && low <= Net(tokens)
  {
    if tokens == [] then 0
    else
      var before := Low(tokens[..|tokens| - 1]);
      if Net(tokens) < before then Net(tokens) else before
  }

  /** The first token of its kind, or the number of tokens. */
  function First(tokens: seq<Token>, t: Token): (p: nat)
    ensures p <= |tokens|
    ensures forall q :: 0 <= q < p ==> tokens[q] != t
    ensures p < |tokens| ==> tokens[p] == t
  {
    if tokens == [] || tokens[0] == t then 0 else 1 + First(tokens[1..], t)
  }

  lemma NetStep(tokens: seq<Token>, p: nat)
    requires p < |tokens|
    ensures Net(tokens[..p + 1]) == Net(tokens[..p]) + Step(tokens[p])
  {
    assert tokens[..p + 1][..p] == tokens[..p];
  }

  /** No prefix goes below `d`. */
  predicate StaysAbove(tokens: seq<Token>, d: int) {
    forall p :: 0 <= p <= |tokens| ==> Net(tokens[..p]) >= d
  }

  lemma {:induction false} PrefixStaysAbove(tokens: seq<Token>, p: nat, d: int)
    requires p <= |tokens| && StaysAbove(tokens, d)
    ensures StaysAbove(tokens[..p], d)
  {
    forall q | 0 <= q <= p ensures tokens[..p][..q] == tokens[..q] {
    }
  }

  lemma {:induction false} LowIsLeast(tokens: seq<Token>, d: int)
    ensures Low(tokens) >= d <==> StaysAbove(tokens, d)
  {
    assert tokens[..|tokens|] == tokens && tokens[..0] == [];
    if tokens != [] {
      var init := tokens[..|tokens| - 1];
      LowIsLeast(init, d);
      forall p | 0 <= p < |tokens| ensures init[..p] == tokens[..p] {
      }
    }
  }

  lemma {:induction false} NetConcat(a: seq<Token>, b: seq<Token>)
    ensures Net(a + b) == Net(a) + Net(b)
    decreases |b|
  {
    if b == [] {
      assert a + b == a;
    } else {
      assert (a + b)[..|a + b| - 1] == a + b[..|b| - 1];
      NetConcat(a, b[..|b| - 1]);
    }
  }

  /** Lines of nothing but braces. */
  function Braces(net: int): seq<Token> {
    if net >= 0 then seq(net, _ => Open) else seq(-net, _ => Close)
  }

  lemma {:induction false} BracesAre(net: int)
    ensures Net(Braces(net)) == net && Low(Braces(net)) == if net < 0 then net else 0
    decreases if net < 0 then -net else net
  {
    if net > 0 {
      assert Braces(net)[..net - 1] == Braces(net - 1);
      BracesAre(net - 1);
    } else if net < 0 {
      assert Braces(net)[..-net - 1] == Braces(net + 1);
      BracesAre(net + 1);
    }
  }
}
