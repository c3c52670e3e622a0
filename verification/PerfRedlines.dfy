/**
 Benchmark redlines.

 Every estimate goes to the first threshold key one of whose keywords its path contains, and a key passes when
 its slowest median is under its limit. A path that holds keywords of several keys is ambiguous: its bucket
 depends on the order of the keys, and strict mode refuses it. Which keywords make every path that holds them
 ambiguous can be told from the keywords alone. Medians are exact integers here.
 */
module PerfRedlines {
  import opened Prelude
  import opened TextLines

  type Name = string

  /** One threshold key with its path keywords, in document order. */
  datatype Rule = Rule(name: Name, keywords: seq<string>)

  /** One estimates file; None when its median cannot be read. */
  datatype Estimate = Estimate(path: string, median: Option<int>)

  datatype Row = Row(path: string, median: int)

  // ----- Substrings -------------------------------------------------------------------------------

  lemma ContainsIsTransitive(s: string, mid: string, sub: string)
    requires Contains(s, mid) && Contains(mid, sub)
    ensures Contains(s, sub)
  {
    var i :| 0 <= i <= |s| && mid <= s[i..];
    var j :| 0 <= j <= |mid| && sub <= mid[j..];
    forall t | 0 <= t < |sub| ensures s[i + j..][t] == sub[t] {
      assert s[i..][j + t] == mid[j + t] && mid[j..][t] == sub[t];
    }
    assert sub <= s[i + j..];
  }

  lemma ContainsItself(s: string)
    ensures Contains(s, s)
  {
    assert s[0..] == s;
  }

  // ----- Bucketing --------------------------------------------------------------------------------

  predicate Hits(r: Rule, path: string) {
    exists k | k in r.keywords :: Contains(path, k)
  }

  /** The names of the rules a path hits, in document order. */
  function HitNames(rules: seq<Rule>, path: string): seq<Name> {
    if rules == [] then []
    else (if Hits(rules[0], path) then [rules[0].name] else []) + HitNames(rules[1..], path)
  }

  function Bucket(rules: seq<Rule>, path: string): Option<Name> {
    var hits := HitNames(rules, path);
    if hits == [] then None else Some(hits[0])
  }

  predicate Ambiguous(rules: seq<Rule>, path: string) {
    |HitNames(rules, path)| > 1
  }

  /** The readable estimates whose bucket is the given one, in path order. */
  function RowsIn(rules: seq<Rule>, estimates: seq<Estimate>, bucket: Option<Name>): seq<Row> {
    if estimates == [] then [] else
    var e := estimates[|estimates| - 1];
    RowsIn(rules, estimates[..|estimates| - 1], bucket) +
    if e.median.Some? && Bucket(rules, e.path) == bucket then [Row(e.path, e.median.value)] else []
  }

  function AmbiguousIn(rules: seq<Rule>, estimates: seq<Estimate>): seq<string> {
    if estimates == [] then [] else
    var e := estimates[|estimates| - 1];
    AmbiguousIn(rules, estimates[..|estimates| - 1]) +
    if e.median.Some? && Ambiguous(rules, e.path) then [e.path] else []
  }

  /** Every bucket an estimate needs has a threshold. */
  ghost predicate Provided(thresholds: map<Name, int>, rules: seq<Rule>, estimates: seq<Estimate>) {
    forall e :: e in estimates && e.median.Some? && Bucket(rules, e.path).Some? ==>
      Bucket(rules, e.path).value in thresholds
  }

  datatype Buckets = Buckets(results: map<Name, seq<Row>>, unmatched: seq<Row>, ambiguous: seq<string>)

  ghost predicate Bucketed(b: Buckets, thresholds: map<Name, int>, rules: seq<Rule>, estimates: seq<Estimate>) {
    && b.results.Keys == thresholds.Keys
    && (forall n :: n in thresholds ==> b.results[n] == RowsIn(rules, estimates, Some(n)))
    && b.unmatched == RowsIn(rules, estimates, None)
    && b.ambiguous == AmbiguousIn(rules, estimates)
  }

  /** A keyword entry without a threshold of its name is a lookup error as soon as a path falls to it. */
  method Collect(thresholds: map<Name, int>, rules: seq<Rule>, estimates: seq<Estimate>)
    returns (out: Result<Buckets, Name>)
    ensures out.Ok? <==> Provided(thresholds, rules, estimates)
    ensures out.Ok? ==> Bucketed(out.value, thresholds, rules, estimates)
  {
    var b := Buckets(map n | n in thresholds :: [], [], []);
    for i := 0 to |estimates|
      invariant Provided(thresholds, rules, estimates[..i])
      invariant Bucketed(b, thresholds, rules, estimates[..i])
    {
      var e := estimates[i];
      assert estimates[..i + 1] == estimates[..i] + [e];
      if e.median.Some? {
        var hits := HitNames(rules, e.path);
        if hits != [] && hits[0] !in thresholds {
          assert e in estimates;
          return Err(hits[0]);
        }
        b := Place(thresholds, rules, estimates[..i], e, b);
      } else {
        Skip(thresholds, rules, estimates[..i], e, b);
      }
    }
    assert estimates[..|estimates|] == estimates;
    out := Ok(b);
  }

  lemma OneMore(rules: seq<Rule>, estimates: seq<Estimate>, e: Estimate, bucket: Option<Name>)
    ensures RowsIn(rules, estimates + [e], bucket) ==
            RowsIn(rules, estimates, bucket) +
            if e.median.Some? && Bucket(rules, e.path) == bucket then [Row(e.path, e.median.value)] else []
    ensures AmbiguousIn(rules, estimates + [e]) ==
            AmbiguousIn(rules, estimates) +
            if e.median.Some? && Ambiguous(rules, e.path) then [e.path] else []
  {
    assert (estimates + [e])[..|estimates|] == estimates;
  }

  lemma Skip(thresholds: map<Name, int>, rules: seq<Rule>, estimates: seq<Estimate>, e: Estimate, b: Buckets)
    requires Bucketed(b, thresholds, rules, estimates) && e.median.None?
    ensures Bucketed(b, thresholds, rules, estimates + [e])
  {
    forall bucket
      ensures RowsIn(rules, estimates + [e], bucket) == RowsIn(rules, estimates, bucket)
      ensures AmbiguousIn(rules, estimates + [e]) == AmbiguousIn(rules, estimates)
    {
      OneMore(rules, estimates, e, bucket);
      assert RowsIn(rules, estimates, bucket) + [] == RowsIn(rules, estimates, bucket);
      assert AmbiguousIn(rules, estimates) + [] == AmbiguousIn(rules, estimates);
    }
  }

  lemma PlacedRows(rules: seq<Rule>, before: seq<Estimate>, e: Estimate)
    requires e.median.Some?
    ensures forall bucket :: RowsIn(rules, before + [e], bucket) ==
                             if Bucket(rules, e.path) == bucket then
                               RowsIn(rules, before, bucket) + [Row(e.path, e.median.value)]
                             else RowsIn(rules, before, bucket)
    ensures AmbiguousIn(rules, before + [e]) ==
            if Ambiguous(rules, e.path) then AmbiguousIn(rules, before) + [e.path] else AmbiguousIn(rules, before)
  {
    OneMore(rules, before, e, None);
    ConcatEmpty(AmbiguousIn(rules, before));
    forall bucket
      ensures RowsIn(rules, before + [e], bucket) ==
              if Bucket(rules, e.path) == bucket then RowsIn(rules, before, bucket) + [Row(e.path, e.median.value)]
              else RowsIn(rules, before, bucket)
    {
      OneMore(rules, before, e, bucket);
      ConcatEmpty(RowsIn(rules, before, bucket));
    }
  }

  method Place(thresholds: map<Name, int>, rules: seq<Rule>, ghost before: seq<Estimate>, e: Estimate, b: Buckets)
    returns (after: Buckets)
    requires Bucketed(b, thresholds, rules, before) && e.median.Some?
    requires Bucket(rules, e.path).Some? ==> Bucket(rules, e.path).value in thresholds
    ensures Bucketed(after, thresholds, rules, before + [e])
  {
    var hits, row := HitNames(rules, e.path), Row(e.path, e.median.value);
    after := b;
    if |hits| > 1 {
      after := after.(ambiguous := after.ambiguous + [e.path]);
    }
    if hits != [] {
      after := after.(results := after.results[hits[0] := after.results[hits[0]] + [row]]);
    } else {
      after := after.(unmatched := after.unmatched + [row]);
    }
    PlacedRows(rules, before, e);
  }

  function Readable(estimates: seq<Estimate>): nat {
    if estimates == [] then 0
    else Readable(estimates[..|estimates| - 1]) + if estimates[|estimates| - 1].median.Some? then 1 else 0
  }

  function Sizes(b: Buckets, names: seq<Name>): nat
    requires forall n :: n in names ==> n in b.results
  {
    if names == [] then 0 else |b.results[names[0]]| + Sizes(b, names[1..])
  }

  /** How many readable estimates fall to the listed buckets. */
  function Falling(rules: seq<Rule>, estimates: seq<Estimate>, names: seq<Name>): nat {
    if estimates == [] then 0 else
    var e := estimates[|estimates| - 1];
    Falling(rules, estimates[..|estimates| - 1], names) +
    if e.median.Some? && Bucket(rules, e.path).Some? && Bucket(rules, e.path).value in names then 1 else 0
  }

  lemma {:induction false} FallingSplits(rules: seq<Rule>, estimates: seq<Estimate>, name: Name, names: seq<Name>)
    requires name !in names
    ensures Falling(rules, estimates, [name] + names) ==
            |RowsIn(rules, estimates, Some(name))| + Falling(rules, estimates, names)
  {
    if estimates != [] {
      FallingSplits(rules, estimates[..|estimates| - 1], name, names);
    }
  }

  lemma {:induction false} SizesAreFalling(b: Buckets, thresholds: map<Name, int>, rules: seq<Rule>,
                                           estimates: seq<Estimate>, names: seq<Name>)
    requires Bucketed(b, thresholds, rules, estimates) && forall n :: n in names ==> n in thresholds
    requires forall i, j :: 0 <= i < j < |names| ==> names[i] != names[j]
    ensures Sizes(b, names) == Falling(rules, estimates, names)
  {
    if names == [] {
      NothingFalls(rules, estimates);
    } else {
      assert names == [names[0]] + names[1..];
      SizesAreFalling(b, thresholds, rules, estimates, names[1..]);
      FallingSplits(rules, estimates, names[0], names[1..]);
    }
  }

  lemma {:induction false} NothingFalls(rules: seq<Rule>, estimates: seq<Estimate>)
    ensures Falling(rules, estimates, []) == 0
  {
    if estimates != [] {
      NothingFalls(rules, estimates[..|estimates| - 1]);
    }
  }

  lemma {:induction false} FallOrNot(rules: seq<Rule>, estimates: seq<Estimate>, thresholds: map<Name, int>,
                                     names: seq<Name>)
    requires Provided(thresholds, rules, estimates) && forall n :: n in names <==> n in thresholds
    ensures Falling(rules, estimates, names) + |RowsIn(rules, estimates, None)| == Readable(estimates)
  {
    if estimates != [] {
      assert estimates[|estimates| - 1] in estimates;
      FallOrNot(rules, estimates[..|estimates| - 1], thresholds, names);
    }
  }

  /** Conservation: every readable estimate is in exactly one bucket or among the unmatched. */
  lemma NoEstimateIsLost(b: Buckets, thresholds: map<Name, int>, rules: seq<Rule>, estimates: seq<Estimate>,
                         names: seq<Name>)
    requires Bucketed(b, thresholds, rules, estimates) && Provided(thresholds, rules, estimates)
    requires forall n :: n in names <==> n in thresholds
    requires forall i, j :: 0 <= i < j < |names| ==> names[i] != names[j]
    ensures Sizes(b, names) + |b.unmatched| == Readable(estimates)
  {
    SizesAreFalling(b, thresholds, rules, estimates, names);
    FallOrNot(rules, estimates, thresholds, names);
  }

  // ----- Verdicts ---------------------------------------------------------------------------------

  ghost predicate IsFirstMaximum(rows: seq<Row>, k: nat) {
    && k < |rows|
    && (forall j :: 0 <= j < |rows| ==> rows[j].median <= rows[k].median)
    && (forall j :: 0 <= j < k ==> rows[j].median < rows[k].median)
  }

  /** The worst row is the first of the slowest; the key passes exactly when every row is under the limit. */
  method Judge(rows: seq<Row>, limit: int) returns (worst: Option<Row>, passed: Option<bool>)
    ensures rows == [] ==> worst == None && passed == None
    ensures rows != [] ==>
              (exists k: nat :: k < |rows| && worst == Some(rows[k]) &&
                                (forall j :: 0 <= j < |rows| ==> rows[j].median <= rows[k].median) &&
                                (forall j :: 0 <= j < k ==> rows[j].median < rows[k].median)) &&
              passed == Some(forall j :: 0 <= j < |rows| ==> rows[j].median < limit)
  {
    if rows == [] {
      return None, None;
    }
    var k: nat := 0;
    for i := 1 to |rows|
      invariant IsFirstMaximum(rows[..i], k)
    {
      assert rows[..i + 1] == rows[..i] + [rows[i]];
      if rows[i].median > rows[k].median {
        assert forall j :: 0 <= j < i ==> rows[j] == rows[..i][j] && rows[j].median <= rows[..i][k].median;
        k := i;
      } else {
        assert rows[..i][k] == rows[k];
      }
    }
    assert rows[..|rows|] == rows;
    assert IsFirstMaximum(rows, k);
    worst := Some(rows[k]);
    passed := Some(rows[k].median < limit);
  }

  /** 0 exactly when no key has a row at or over its limit, and in strict mode no path is ambiguous. */
  method AssertThresholds(thresholds: map<Name, int>, b: Buckets, strict: bool) returns (rc: nat)
    requires thresholds.Keys <= b.results.Keys
    ensures rc ==
            if (forall n, j :: n in thresholds && 0 <= j < |b.results[n]| ==> b.results[n][j].median < thresholds[n]) &&
               (strict ==> b.ambiguous == [])
            then 0 else 1
  {
    var fails: nat := 0;
    var todo := thresholds.Keys;
    while todo != {}
      invariant todo <= thresholds.Keys
      invariant fails == 0 <==> forall n, j :: n in thresholds.Keys - todo && 0 <= j < |b.results[n]| ==>
                                  b.results[n][j].median < thresholds[n]
      decreases todo
    {
      var n :| n in todo;
      todo := todo - {n};
      var worst, passed := Judge(b.results[n], thresholds[n]);
      if passed == Some(false) {
        fails := fails + 1;
      }
    }
    if strict {
      fails := fails + |b.ambiguous|;
    }
    rc := if fails > 0 then 1 else 0;
  }

  // ----- Does the order of the keys matter? -------------------------------------------------------

  ghost predicate NamesAreUnique(rules: seq<Rule>) {
    forall i, j :: 0 <= i < j < |rules| ==> rules[i].name != rules[j].name
  }

  lemma {:induction false} HitNamesAre(rules: seq<Rule>, path: string, n: Name)
    ensures n in HitNames(rules, path) <==> exists r :: r in rules && r.name == n && Hits(r, path)
  {
    if rules != [] {
      HitNamesAre(rules[1..], path, n);
      assert forall r :: r in rules <==> r == rules[0] || r in rules[1..];
    }
  }

  ghost predicate HitBySome(rules: seq<Rule>, path: string, r: Rule) {
    r in rules && Hits(r, path)
  }

  lemma HitByHeadOrRest(rules: seq<Rule>, path: string, r: Rule)
    requires rules != []
    ensures HitBySome(rules, path, r) <==>
            (r == rules[0] && Hits(r, path)) || HitBySome(rules[1..], path, r)
  {
    assert r in rules <==> r == rules[0] || r in rules[1..];
  }

  lemma SomethingHitsIff(rules: seq<Rule>, path: string)
    ensures HitNames(rules, path) != [] <==> exists r :: HitBySome(rules, path, r)
  {
    if HitNames(rules, path) != [] {
      var n := HitNames(rules, path)[0];
      assert n in HitNames(rules, path);
      HitNamesAre(rules, path, n);
      var r :| r in rules && r.name == n && Hits(r, path);
      assert HitBySome(rules, path, r);
    }
    if r :| HitBySome(rules, path, r) {
      HitNamesAre(rules, path, r.name);
    }
  }

  /** The first rule hits: ambiguous exactly when another one does. */
  lemma HeadHits(rules: seq<Rule>, path: string)
    requires NamesAreUnique(rules) && rules != [] && Hits(rules[0], path)
    ensures Ambiguous(rules, path) <==>
            exists r, s :: HitBySome(rules, path, r) && HitBySome(rules, path, s) && r.name != s.name
  {
    SomethingHitsIff(rules[1..], path);
    HitByHeadOrRest(rules, path, rules[0]);
    if r :| HitBySome(rules[1..], path, r) {
      HitByHeadOrRest(rules, path, r);
      assert r.name != rules[0].name;
    }
    if r, s :| HitBySome(rules, path, r) && HitBySome(rules, path, s) && r.name != s.name {
      HitByHeadOrRest(rules, path, r);
      HitByHeadOrRest(rules, path, s);
    }
  }

  /** With unique names, a path is ambiguous exactly when two rules of different names hit it. */
  lemma {:induction false} AmbiguousIff(rules: seq<Rule>, path: string)
    requires NamesAreUnique(rules)
    ensures Ambiguous(rules, path) <==>
            exists r, s :: HitBySome(rules, path, r) && HitBySome(rules, path, s) && r.name != s.name
  {
    if rules != [] {
      if Hits(rules[0], path) {
        HeadHits(rules, path);
      } else {
        AmbiguousIff(rules[1..], path);
        forall r ensures HitBySome(rules, path, r) <==> HitBySome(rules[1..], path, r) {
          HitByHeadOrRest(rules, path, r);
        }
      }
    }
  }

  ghost predicate SameRules(a: seq<Rule>, b: seq<Rule>) {
    NamesAreUnique(a) && NamesAreUnique(b) && forall r :: r in a <==> r in b
  }

  lemma BucketIsHit(rules: seq<Rule>, path: string)
    ensures Bucket(rules, path).Some? ==>
              exists r :: HitBySome(rules, path, r) && r.name == Bucket(rules, path).value
    ensures Bucket(rules, path).None? <==> forall r :: !HitBySome(rules, path, r)
  {
    var hits := HitNames(rules, path);
    if hits != [] {
      assert hits[0] in hits;
      HitNamesAre(rules, path, hits[0]);
      var r :| r in rules && r.name == hits[0] && Hits(r, path);
      assert HitBySome(rules, path, r);
    }
    forall r | HitBySome(rules, path, r) ensures r.name in hits {
      HitNamesAre(rules, path, r.name);
    }
  }

  lemma {:induction false} FirstHitWins(rules: seq<Rule>, path: string)
    requires rules != [] && Hits(rules[0], path)
    ensures Bucket(rules, path) == Some(rules[0].name)
  {
  }

  /** Moving one rule to the front keeps the set of rules. */
  lemma ToFront(rules: seq<Rule>, r: Rule)
    requires NamesAreUnique(rules) && r in rules
    ensures exists moved :: SameRules(rules, moved) && moved != [] && moved[0] == r
  {
    var k :| 0 <= k < |rules| && rules[k] == r;
    var moved := [r] + rules[..k] + rules[k + 1..];
    assert rules == rules[..k] + [r] + rules[k + 1..];
    assert SameRules(rules, moved);
  }

  /** The bucket of a path does not depend on the order of the keys exactly when the path is not ambiguous. */
  lemma OrderIsIrrelevantIff(rules: seq<Rule>, path: string)
    requires NamesAreUnique(rules)
    ensures (forall other :: SameRules(rules, other) ==> Bucket(other, path) == Bucket(rules, path)) <==>
            !Ambiguous(rules, path)
  {
    AmbiguousIff(rules, path);
    if Ambiguous(rules, path) {
      var r, s :| HitBySome(rules, path, r) && HitBySome(rules, path, s) && r.name != s.name;
      ToFront(rules, r);
      ToFront(rules, s);
      var a :| SameRules(rules, a) && a != [] && a[0] == r;
      var b :| SameRules(rules, b) && b != [] && b[0] == s;
      FirstHitWins(a, path);
      FirstHitWins(b, path);
    } else {
      forall other | SameRules(rules, other) ensures Bucket(other, path) == Bucket(rules, path) {
        SameBucket(rules, other, path);
      }
    }
  }

  lemma SameBucket(rules: seq<Rule>, other: seq<Rule>, path: string)
    requires SameRules(rules, other) && !Ambiguous(rules, path)
    ensures Bucket(other, path) == Bucket(rules, path)
  {
    AmbiguousIff(rules, path);
    BucketIsHit(rules, path);
    BucketIsHit(other, path);
    forall r ensures HitBySome(rules, path, r) <==> HitBySome(other, path, r) {
    }
  }

  /** The first key in document order with a keyword in the path takes it; without one the path is unmatched. */
  lemma {:induction false} FirstKeyWins(rules: seq<Rule>, path: string, i: nat)
    requires i <= |rules|
    requires forall j, k :: 0 <= j < i && k in rules[j].keywords ==> !Contains(path, k)
    requires i < |rules| ==> exists k :: k in rules[i].keywords && Contains(path, k)
    ensures Bucket(rules, path) == if i < |rules| then Some(rules[i].name) else None
    decreases i
  {
    if i > 0 {
      assert rules[0].keywords == rules[..i][0].keywords;
      forall j, k | 0 <= j < i - 1 && k in rules[1..][j].keywords ensures !Contains(path, k) {
        assert rules[1..][j] == rules[j + 1];
      }
      FirstKeyWins(rules[1..], path, i - 1);
      assert !Hits(rules[0], path);
    }
  }

  lemma RowOfOneMore(rules: seq<Rule>, init: seq<Estimate>, last: Estimate, bucket: Option<Name>, row: Row)
    ensures (exists e :: e in init + [last] && e.median == Some(row.median) && e.path == row.path &&
                         Bucket(rules, e.path) == bucket) <==>
            (exists e :: e in init && e.median == Some(row.median) && e.path == row.path &&
                         Bucket(rules, e.path) == bucket) ||
            (last.median == Some(row.median) && last.path == row.path && Bucket(rules, last.path) == bucket)
  {
    assert last in init + [last];
    assert forall e :: e in init ==> e in init + [last];
  }

  /** What the buckets hold: exactly the readable estimates whose path falls there. */
  lemma {:induction false} RowsAre(rules: seq<Rule>, estimates: seq<Estimate>, bucket: Option<Name>, row: Row)
    ensures row in RowsIn(rules, estimates, bucket) <==>
            exists e :: e in estimates && e.median == Some(row.median) && e.path == row.path &&
                        Bucket(rules, e.path) == bucket
  {
    if estimates != [] {
      var init, last := estimates[..|estimates| - 1], estimates[|estimates| - 1];
      assert estimates == init + [last];
      RowsAre(rules, init, bucket, row);
      OneMore(rules, init, last, bucket);
      RowOfOneMore(rules, init, last, bucket, row);
    }
  }

  // ----- Overlapping keywords ---------------------------------------------------------------------

  predicate Overlap(a: string, b: string) {
    a != b && (Contains(b, a) || Contains(a, b))
  }

  predicate RulesOverlap(r: Rule, s: Rule) {
    exists a | a in r.keywords :: exists b | b in s.keywords :: Overlap(a, b)
  }

  lemma RulesOverlapIff(r: Rule, s: Rule)
    ensures RulesOverlap(r, s) <==>
            exists a, b :: a in r.keywords && b in s.keywords && a != b && (Contains(a, b) || Contains(b, a))
  {
    if a, b :| a in r.keywords && b in s.keywords && a != b && (Contains(a, b) || Contains(b, a)) {
      assert Overlap(a, b);
    }
  }

  /** All pairs of keys with a keyword properly inside one of the other's, each pair once. */
  method KeywordOverlaps(items: seq<Rule>) returns (pairs: seq<(Name, Name)>)
    ensures forall p :: p in pairs <==>
              exists i, j :: 0 <= i < j < |items| && p == (items[i].name, items[j].name) &&
                             RulesOverlap(items[i], items[j])
  {
    pairs := [];
    for i := 0 to |items|
      invariant forall p :: p in pairs <==> Paired(items, i, 0, p)
    {
      for j := i + 1 to |items|
        invariant forall p :: p in pairs <==> Paired(items, i, j, p)
      {
        if RulesOverlap(items[i], items[j]) {
          pairs := pairs + [(items[i].name, items[j].name)];
        }
      }
    }
    assert forall p :: p in pairs <==> Paired(items, |items|, 0, p);
  }

  /** The pair of two overlapping keys that comes before row i, or in row i before column j. */
  ghost predicate Paired(items: seq<Rule>, i: nat, j: nat, p: (Name, Name)) {
    exists k, l :: 0 <= k < l < |items| && (k < i || (k == i && l < j)) &&
                   p == (items[k].name, items[l].name) && RulesOverlap(items[k], items[l])
  }

  /** A keyword that makes every path it matches ambiguous: a path can hit its key only together with another. */
  ghost predicate ForcesAmbiguity(rules: seq<Rule>, r: Rule, k: string) {
    r in rules && k in r.keywords && forall path: string :: Contains(path, k) ==> Ambiguous(rules, path)
  }

  /** A keyword forces ambiguity exactly when it contains, or equals, a keyword of another key. */
  lemma ForcesAmbiguityIff(rules: seq<Rule>, r: Rule, k: string)
    requires NamesAreUnique(rules) && r in rules && k in r.keywords
    ensures ForcesAmbiguity(rules, r, k) <==>
            exists s, a :: s in rules && s.name != r.name && a in s.keywords && Contains(k, a)
  {
    if ForcesAmbiguity(rules, r, k) {
      ContainsItself(k);
      AmbiguousIff(rules, k);
      var x, y :| HitBySome(rules, k, x) && HitBySome(rules, k, y) && x.name != y.name;
      var s := if x.name != r.name then x else y;
      assert HitBySome(rules, k, s);
      var a :| a in s.keywords && Contains(k, a);
    }
    forall s, a | s in rules && s.name != r.name && a in s.keywords && Contains(k, a)
      ensures ForcesAmbiguity(rules, r, k)
    {
      forall path: string | Contains(path, k) ensures Ambiguous(rules, path) {
        ContainsIsTransitive(path, k, a);
        assert HitBySome(rules, path, s) && HitBySome(rules, path, r);
        AmbiguousIff(rules, path);
      }
    }
  }

  /** Two keys share a keyword letter for letter. */
  ghost predicate Shared(rules: seq<Rule>) {
    exists r, s, k :: r in rules && s in rules && r.name != s.name && k in r.keywords && k in s.keywords
  }

  ghost predicate NoOverlap(rules: seq<Rule>) {
    forall i, j :: 0 <= i < j < |rules| ==> !RulesOverlap(rules[i], rules[j])
  }

  lemma OverlapIsSymmetric(r: Rule, s: Rule)
    ensures RulesOverlap(r, s) <==> RulesOverlap(s, r)
  {
    if a, b :| a in r.keywords && b in s.keywords && Overlap(a, b) {
      assert Overlap(b, a);
    }
    if a, b :| a in s.keywords && b in r.keywords && Overlap(a, b) {
      assert Overlap(b, a);
    }
  }

  /**
   The overlap list asks for two different keywords, so it does not see a keyword that two keys share. When
   it is empty, some keyword still forces ambiguity exactly when two keys share one.
   */
  lemma EmptyOverlapListMissesShared(rules: seq<Rule>)
    requires NamesAreUnique(rules) && NoOverlap(rules)
    ensures (exists r, k :: ForcesAmbiguity(rules, r, k)) <==> Shared(rules)
  {
    if r, k :| ForcesAmbiguity(rules, r, k) {
      ForcesAmbiguityIff(rules, r, k);
      var s, a :| s in rules && s.name != r.name && a in s.keywords && Contains(k, a);
      OverlapOrEqual(rules, r, k, s, a);
    }
    if r, s, k :| r in rules && s in rules && r.name != s.name && k in r.keywords && k in s.keywords {
      ContainsItself(k);
      ForcesAmbiguityIff(rules, r, k);
    }
  }

  lemma OverlapOrEqual(rules: seq<Rule>, r: Rule, k: string, s: Rule, a: string)
    requires NoOverlap(rules) && r in rules && s in rules && s.name != r.name
    requires k in r.keywords && a in s.keywords && Contains(k, a)
    ensures a == k
  {
    var i :| 0 <= i < |rules| && rules[i] == r;
    var j :| 0 <= j < |rules| && rules[j] == s;
    OverlapIsSymmetric(r, s);
    assert !RulesOverlap(r, s);
  }
}
