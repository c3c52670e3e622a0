/**
 The coverage gate.

 Records of covered and total lines are added up by crate, and over all of them; a percentage is that of the
 lines added up, not a mean of percentages. Floors bound the crates that are not exempt, a minimum bounds the
 aggregate, and a history of that minimum may only raise it. Percentages are exact reals here, and the record
 formats of the coverage tools are given.
 */
module CoverageGate {
  import opened Prelude

  datatype Record = Record(path: string, covered: nat, total: nat)

  datatype Lines = Lines(covered: nat, total: nat) {
    function Add(r: Record): Lines {
      Lines(covered + r.covered, total + r.total)
    }

    /** The percentage lies below a floor; a crate without lines is below none. */
    predicate Below(floor: real) {
      total > 0 && 100.0 * covered as real < floor * total as real
    }

    predicate AtMost(ceiling: real) {
      100.0 * covered as real <= ceiling * total as real
    }
  }

  const OTHER := "(other)"
  const CRATES := "crates/"

  function UpToSlash(s: string): string {
    if s == [] || s[0] == '/' then [] else [s[0]] + UpToSlash(s[1..])
  }

  function Slashed(path: string): string {
    seq(|path|, i requires 0 <= i < |path| => if path[i] == '\\' then '/' else path[i])
  }

  /** What follows the first `crates/`. */
  function AfterCrates(norm: string): Option<string> {
    if |norm| < |CRATES| then None
    else if norm[..|CRATES|] == CRATES then Some(norm[|CRATES|..])
    else AfterCrates(norm[1..])
  }

  function CrateOf(path: string): string {
    match AfterCrates(Slashed(path))
    case None => OTHER
    case Some(tail) => if UpToSlash(tail) == [] then OTHER else UpToSlash(tail)
  }

  /** The path with forward slashes throughout. */
  predicate SameButSlashes(path: string, norm: string) {
    |path| == |norm| && forall i :: 0 <= i < |path| ==> norm[i] == if path[i] == '\\' then '/' else path[i]
  }

  /** No directory `crates/` begins before column k. */
  predicate FirstCratesAt(norm: string, k: nat)
    requires k <= |norm|
  {
    forall i :: 0 <= i < k ==> !("crates/" <= norm[i..])
  }

  /** A path belongs to the directory below the first `crates/` in it. */
  lemma {:induction false} PathBelongs(path: string, norm: string, k: nat, end: nat)
    requires SameButSlashes(path, norm) && k + 7 <= end <= |norm| && "crates/" <= norm[k..] && FirstCratesAt(norm, k)
    requires (forall i :: k + 7 <= i < end ==> norm[i] != '/') && (end < |norm| ==> norm[end] == '/')
    ensures CrateOf(path) == if end > k + 7 then norm[k + 7..end] else "(other)"
  {
    assert Slashed(path) == norm;
    AfterFirst(norm, k);
    NameEnds(norm[k + 7..], end - k - 7);
  }

  lemma {:induction false} AfterFirst(norm: string, k: nat)
    requires k + 7 <= |norm| && "crates/" <= norm[k..] && FirstCratesAt(norm, k)
    ensures AfterCrates(norm) == Some(norm[k + 7..])
    decreases k
  {
    assert norm[0..] == norm;
    if k > 0 {
      forall i | 0 <= i < k - 1 ensures !("crates/" <= norm[1..][i..]) {
        assert norm[1..][i..] == norm[i + 1..];
      }
      assert norm[1..][k - 1..] == norm[k..] && norm[1..][k - 1 + 7..] == norm[k + 7..];
      AfterFirst(norm[1..], k - 1);
    }
  }

  lemma {:induction false} NameEnds(s: string, n: nat)
    requires n <= |s| && (forall i :: 0 <= i < n ==> s[i] != '/') && (n < |s| ==> s[n] == '/')
    ensures UpToSlash(s) == s[..n]
    decreases n
  {
    if n > 0 {
      NameEnds(s[1..], n - 1);
    }
  }

  /** All other paths are collected apart. */
  lemma {:induction false} OtherPaths(path: string, norm: string)
    requires SameButSlashes(path, norm) && FirstCratesAt(norm, |norm|)
    ensures CrateOf(path) == "(other)"
  {
    assert Slashed(path) == norm;
    NoCrates(norm);
  }

  lemma {:induction false} NoCrates(norm: string)
    requires FirstCratesAt(norm, |norm|)
    ensures AfterCrates(norm) == None
  {
    if |norm| >= 7 {
      assert norm[0..] == norm;
      forall i | 0 <= i < |norm[1..]| ensures !("crates/" <= norm[1..][i..]) {
        assert norm[1..][i..] == norm[i + 1..];
      }
      NoCrates(norm[1..]);
    }
  }

  // ----- Aggregation ------------------------------------------------------------------------------

  /** The lines of one crate over all records; the lines of everything when no crate is named. */
  function Total(records: seq<Record>, crate: Option<string>): Lines {
    if records == [] then Lines(0, 0) else
    var before, r := Total(records[..|records| - 1], crate), records[|records| - 1];
    if crate.None? || CrateOf(r.path) == crate.value then before.Add(r) else before
  }

  ghost predicate Mentioned(records: seq<Record>, crate: string) {
    exists r :: r in records && CrateOf(r.path) == crate
  }

  ghost predicate IsPerCrate(perCrate: map<string, Lines>, records: seq<Record>) {
    forall c :: (c in perCrate <==> Mentioned(records, c)) &&
                (c in perCrate ==> perCrate[c] == Total(records, Some(c)))
  }

  lemma TotalOfMore(records: seq<Record>, r: Record, crate: Option<string>)
    ensures Total(records + [r], crate) ==
            if crate.None? || CrateOf(r.path) == crate.value then Total(records, crate).Add(r)
            else Total(records, crate)
  {
    assert (records + [r])[..|records|] == records;
  }

  lemma {:induction false} UnmentionedIsZero(records: seq<Record>, crate: string)
    requires !Mentioned(records, crate)
    ensures Total(records, Some(crate)) == Lines(0, 0)
  {
    if records != [] {
      var most := records[..|records| - 1];
      assert records[|records| - 1] in records;
      assert !Mentioned(most, crate) by {
        forall r | r in most ensures CrateOf(r.path) != crate {
          assert r in records;
        }
      }
      UnmentionedIsZero(most, crate);
    }
  }

  /** A record counts with its own lines, for its own crate and for the whole. */
  lemma TotalOfOne(r: Record, crate: Option<string>)
    ensures var t := Total([r], crate);
            if crate == None || crate == Some(CrateOf(r.path)) then t.covered == r.covered && t.total == r.total
            else t.covered == 0 && t.total == 0
  {
    assert [r][..0] == [];
  }

  /** The figures of two lists of records add up. */
  lemma {:induction false} TotalsAddUp(a: seq<Record>, b: seq<Record>, crate: Option<string>)
    ensures Total(a + b, crate).covered == Total(a, crate).covered + Total(b, crate).covered
    ensures Total(a + b, crate).total == Total(a, crate).total + Total(b, crate).total
    decreases |b|
  {
    if b == [] {
      ConcatEmpty(a);
    } else {
      var init, last := b[..|b| - 1], b[|b| - 1];
      assert b == init + [last];
      TotalsAddUp(a, init, crate);
      ConcatAssoc(a, init, [last]);
      TotalOfMore(a + init, last, crate);
      TotalOfMore(init, last, crate);
    }
  }

  method Aggregate(records: seq<Record>) returns (agg: Lines, perCrate: map<string, Lines>)
    ensures agg == Total(records, None) && IsPerCrate(perCrate, records)
  {
    perCrate, agg := map[], Lines(0, 0);
    for i := 0 to |records|
      invariant agg == Total(records[..i], None) && IsPerCrate(perCrate, records[..i])
    {
      var r := records[i];
      var c := CrateOf(r.path);
      assert records[..i + 1] == records[..i] + [r];
      OneMoreRecord(perCrate, records[..i], r);
      perCrate := perCrate[c := (if c in perCrate then perCrate[c] else Lines(0, 0)).Add(r)];
      TotalOfMore(records[..i], r, None);
      agg := agg.Add(r);
    }
    assert records[..|records|] == records;
  }

  lemma MentionedOfMore(records: seq<Record>, r: Record, crate: string)
    ensures Mentioned(records + [r], crate) <==> CrateOf(r.path) == crate || Mentioned(records, crate)
  {
    assert forall s :: s in records + [r] <==> s == r || s in records;
  }

  lemma OneMoreRecord(perCrate: map<string, Lines>, records: seq<Record>, r: Record)
    requires IsPerCrate(perCrate, records)
    ensures var c := CrateOf(r.path);
            IsPerCrate(perCrate[c := (if c in perCrate then perCrate[c] else Lines(0, 0)).Add(r)], records + [r])
  {
    var c := CrateOf(r.path);
    if c !in perCrate {
      UnmentionedIsZero(records, c);
    }
    forall d ensures Total(records + [r], Some(d)) ==
                     if d == c then Total(records, Some(d)).Add(r) else Total(records, Some(d)) {
      TotalOfMore(records, r, Some(d));
    }
    forall d ensures Mentioned(records + [r], d) <==> d == c || Mentioned(records, d) {
      MentionedOfMore(records, r, d);
    }
  }

  /** The sums over a list of crates. */
  function SumOf(perCrate: map<string, Lines>, crates: seq<string>): Lines
    requires forall c :: c in crates ==> c in perCrate
  {
    if crates == [] then Lines(0, 0) else
    var rest := SumOf(perCrate, crates[1..]);
    Lines(perCrate[crates[0]].covered + rest.covered, perCrate[crates[0]].total + rest.total)
  }

  ghost predicate Lists(crates: seq<string>, perCrate: map<string, Lines>) {
    && (forall c :: c in crates <==> c in perCrate)
    && (forall i, j :: 0 <= i < j < |crates| ==> crates[i] != crates[j])
  }

  /** The lines of every record whose crate is listed. */
  function Within(records: seq<Record>, crates: seq<string>): Lines {
    if records == [] then Lines(0, 0) else
    var before, r := Within(records[..|records| - 1], crates), records[|records| - 1];
    if CrateOf(r.path) in crates then before.Add(r) else before
  }

  lemma {:induction false} WithinSplits(records: seq<Record>, crate: string, crates: seq<string>)
    requires crate !in crates
    ensures var one, rest := Total(records, Some(crate)), Within(records, crates);
            Within(records, [crate] + crates) == Lines(one.covered + rest.covered, one.total + rest.total)
  {
    if records != [] {
      WithinSplits(records[..|records| - 1], crate, crates);
    }
  }

  lemma {:induction false} WithinNothing(records: seq<Record>)
    ensures Within(records, []) == Lines(0, 0)
  {
    if records != [] {
      WithinNothing(records[..|records| - 1]);
    }
  }

  lemma {:induction false} SumIsWithin(perCrate: map<string, Lines>, records: seq<Record>, crates: seq<string>)
    requires IsPerCrate(perCrate, records) && forall c :: c in crates ==> c in perCrate
    requires forall i, j :: 0 <= i < j < |crates| ==> crates[i] != crates[j]
    ensures SumOf(perCrate, crates) == Within(records, crates)
  {
    if crates == [] {
      WithinNothing(records);
    } else {
      assert crates == [crates[0]] + crates[1..];
      SumIsWithin(perCrate, records, crates[1..]);
      WithinSplits(records, crates[0], crates[1..]);
    }
  }

  lemma {:induction false} WithinAll(records: seq<Record>, crates: seq<string>)
    requires forall r :: r in records ==> CrateOf(r.path) in crates
    ensures Within(records, crates) == Total(records, None)
  {
    if records != [] {
      assert records[|records| - 1] in records;
      WithinAll(records[..|records| - 1], crates);
    }
  }

  /** Conservation: the crates together have exactly the covered and total lines of the records. */
  lemma NoLineIsLost(perCrate: map<string, Lines>, records: seq<Record>, crates: seq<string>)
    requires IsPerCrate(perCrate, records) && Lists(crates, perCrate)
    ensures SumOf(perCrate, crates) == Total(records, None)
  {
    SumIsWithin(perCrate, records, crates);
    forall r | r in records ensures CrateOf(r.path) in crates {
      assert Mentioned(records, CrateOf(r.path));
    }
    WithinAll(records, crates);
  }

  lemma WithoutLast(records: seq<Record>, k: nat)
    requires k < |records| - 1
    ensures var most := records[..|records| - 1];
            records[..k] + records[k + 1..] == most[..k] + most[k + 1..] + [records[|records| - 1]]
  {
  }

  lemma {:induction false} TotalWithout(records: seq<Record>, k: nat, crate: Option<string>)
    requires k < |records|
    ensures Total(records, crate) == Total(records[..k] + records[k + 1..] + [records[k]], crate)
    decreases |records|
  {
    var r := records[k];
    var without := records[..k] + records[k + 1..];
    if k == |records| - 1 {
      assert without + [r] == records;
    } else {
      var last := records[|records| - 1];
      var most := records[..|records| - 1];
      TotalWithout(most, k, crate);
      WithoutLast(records, k);
      TotalOfMore(most[..k] + most[k + 1..], r, crate);
      TotalOfMore(most[..k] + most[k + 1..], last, crate);
      TotalOfMore(without, r, crate);
    }
  }

  lemma RemoveOne(b: seq<Record>, k: nat)
    requires k < |b|
    ensures multiset(b[..k] + b[k + 1..]) == multiset(b) - multiset{b[k]}
  {
    assert b == b[..k] + [b[k]] + b[k + 1..];
  }

  lemma {:induction false} TakeOut(b: seq<Record>, r: Record, crate: Option<string>) returns (rest: seq<Record>)
    requires r in multiset(b)
    ensures multiset(rest) == multiset(b) - multiset{r}
    ensures Total(b, crate) == Total(rest + [r], crate)
  {
    var k :| 0 <= k < |b| && b[k] == r;
    rest := b[..k] + b[k + 1..];
    RemoveOne(b, k);
    TotalWithout(b, k, crate);
  }

  /** The order of the records does not matter: equal multisets of records give equal figures. */
  lemma {:induction false} OrderDoesNotMatter(a: seq<Record>, b: seq<Record>, crate: Option<string>)
    requires multiset(a) == multiset(b)
    ensures Total(a, crate) == Total(b, crate)
    decreases |a|
  {
    if a == [] {
      assert |multiset(b)| == |b|;
    } else {
      var init, last := a[..|a| - 1], a[|a| - 1];
      assert a == init + [last];
      var rest := TakeOut(b, last, crate);
      OrderDoesNotMatter(init, rest, crate);
      TotalOfMore(init, last, crate);
      TotalOfMore(rest, last, crate);
    }
  }

  // ----- The verdict ------------------------------------------------------------------------------

  /** A floor row may come without a number. */
  datatype Config = Config(min: Option<real>, defaultFloor: Option<real>, exempt: set<string>,
                           explicit: map<string, Option<real>>)

  function FloorOf(cfg: Config, crate: string): Option<real> {
    if crate in cfg.explicit then cfg.explicit[crate] else cfg.defaultFloor
  }

  datatype Violation =
    | Ghost(crate: string)
    | NoData(member: string)
    | NoMinimum
    | LowAggregate
    | LowCrate(crate: string)

  ghost predicate Violated(v: Violation, agg: Lines, perCrate: map<string, Lines>, cfg: Config,
                           members: set<string>)
  {
    match v
    case Ghost(c) => c in cfg.explicit && c !in members && c !in cfg.exempt
    case NoData(m) => m in members && m !in cfg.exempt && (m in perCrate ==> perCrate[m].total == 0)
    case NoMinimum => cfg.min.None?
    case LowAggregate => cfg.min.Some? && (agg.Below(cfg.min.value) || (agg.total == 0 && 0.0 < cfg.min.value))
    case LowCrate(c) => c in perCrate && c !in cfg.exempt && FloorOf(cfg, c).Some? &&
                        perCrate[c].Below(FloorOf(cfg, c).value)
  }

  function Percent(l: Lines): real {
    if l.total == 0 then 0.0 else 100.0 * l.covered as real / l.total as real
  }

  lemma BelowIff(l: Lines, floor: real)
    ensures l.Below(floor) <==> l.total > 0 && Percent(l) < floor
    ensures l.total > 0 ==> (l.AtMost(floor) <==> Percent(l) <= floor)
  {
    if l.total > 0 {
      var c, t := 100.0 * l.covered as real, l.total as real;
      assert c / t * t == c;
      assert (c / t - floor) * t == c - floor * t;
    }
  }

  /**
   The five rules in terms of percentages: a row's own number is the crate's floor, without a row the default
   is, and a floor that is no number is none.
   */
  lemma ViolatedIff(v: Violation, agg: Lines, perCrate: map<string, Lines>, cfg: Config, members: set<string>)
    ensures Violated(v, agg, perCrate, cfg, members) <==>
            match v
            case Ghost(c) => c in cfg.explicit && c !in members && c !in cfg.exempt
            case NoData(m) => m in members && m !in cfg.exempt && !(m in perCrate && perCrate[m].total > 0)
            case NoMinimum => cfg.min == None
            case LowAggregate => exists min :: cfg.min == Some(min) && Percent(agg) < min
            case LowCrate(c) =>
              c in perCrate && c !in cfg.exempt && perCrate[c].total > 0 &&
              exists floor ::
                Percent(perCrate[c]) < floor &&
                if c in cfg.explicit then cfg.explicit[c] == Some(floor) else cfg.defaultFloor == Some(floor)
  {
    match v
    case LowAggregate =>
      if cfg.min.Some? {
        BelowIff(agg, cfg.min.value);
      }
    case LowCrate(c) =>
      if c in perCrate && FloorOf(cfg, c).Some? {
        BelowIff(perCrate[c], FloorOf(cfg, c).value);
      }
    case _ =>
  }

  method CheckCoverage(agg: Lines, perCrate: map<string, Lines>, cfg: Config, members: set<string>)
    returns (errors: set<Violation>)
    ensures forall v :: v in errors <==> Violated(v, agg, perCrate, cfg, members)
  {
    var ghosts := set c | c in cfg.explicit && c !in members && c !in cfg.exempt :: Ghost(c);
    var measured := set c | c in perCrate && perCrate[c].total > 0;
    var naked := set m | m in members && m !in cfg.exempt && m !in measured :: NoData(m);
    var low: set<Violation> := {};
    if cfg.min.None? {
      low := {NoMinimum};
    } else if agg.Below(cfg.min.value) || (agg.total == 0 && 0.0 < cfg.min.value) {
      low := {LowAggregate};
    }
    var crates: set<Violation> := {};
    var todo := perCrate.Keys;
    while todo != {}
      invariant todo <= perCrate.Keys
      invariant forall v :: v in crates <==> v.LowCrate? && v.crate in perCrate.Keys - todo &&
                                             Violated(v, agg, perCrate, cfg, members)
      decreases todo
    {
      var c :| c in todo;
      todo := todo - {c};
      if c !in cfg.exempt && perCrate[c].total != 0 {
        var floor := FloorOf(cfg, c);
        if floor.Some? && perCrate[c].Below(floor.value) {
          crates := crates + {LowCrate(c)};
        }
      }
    }
    errors := ghosts + naked + low + crates;
  }

  lemma {:induction false} FloorCarriesOver(perCrate: map<string, Lines>, crates: seq<string>, f: real)
    requires forall c :: c in crates ==> c in perCrate && !perCrate[c].Below(f)
    ensures !SumOf(perCrate, crates).Below(f)
  {
    if crates != [] {
      var one, rest := perCrate[crates[0]], SumOf(perCrate, crates[1..]);
      FloorCarriesOver(perCrate, crates[1..], f);
      WeightedStep(one, rest, f);
    }
  }

  /** Two line counts that are not below a floor are not below it together; empty ones need a floor of at most 100. */
  lemma WeightedStep(a: Lines, b: Lines, f: real)
    requires !a.Below(f) && !b.Below(f)
    ensures !Lines(a.covered + b.covered, a.total + b.total).Below(f)
  {
    var ta, tb := a.total as real, b.total as real;
    assert f * (ta + tb) == f * ta + f * tb;
    assert a.total == 0 ==> f * ta == 0.0;
    assert b.total == 0 ==> f * tb == 0.0;
  }

  /** The aggregate is a weighted mean: a floor that every crate meets is met by the whole. */
  lemma AggregateMeetsCommonFloor(perCrate: map<string, Lines>, records: seq<Record>, crates: seq<string>, f: real)
    requires IsPerCrate(perCrate, records) && Lists(crates, perCrate)
    requires forall c :: c in perCrate ==> !perCrate[c].Below(f)
    ensures !Total(records, None).Below(f)
  {
    NoLineIsLost(perCrate, records, crates);
    FloorCarriesOver(perCrate, crates, f);
  }

  lemma {:induction false} CeilingCarriesOver(perCrate: map<string, Lines>, crates: seq<string>, f: real)
    requires forall c :: c in crates ==> c in perCrate && perCrate[c].AtMost(f)
    ensures SumOf(perCrate, crates).AtMost(f)
  {
    if crates != [] {
      CeilingCarriesOver(perCrate, crates[1..], f);
      var one, rest := perCrate[crates[0]], SumOf(perCrate, crates[1..]);
      assert f * (one.total as real + rest.total as real) == f * one.total as real + f * rest.total as real;
    }
  }

  /** Nor does the whole exceed a percentage that no crate exceeds. */
  lemma AggregateStaysUnderCeiling(perCrate: map<string, Lines>, records: seq<Record>, crates: seq<string>, f: real)
    requires IsPerCrate(perCrate, records) && Lists(crates, perCrate)
    requires forall c :: c in perCrate ==> perCrate[c].AtMost(f)
    ensures Total(records, None).AtMost(f)
  {
    NoLineIsLost(perCrate, records, crates);
    CeilingCarriesOver(perCrate, crates, f);
  }

  lemma HigherFloor(l: Lines, low: real, high: real)
    requires low <= high && !l.Below(high)
    ensures !l.Below(low)
  {
    assert low * l.total as real <= high * l.total as real;
  }

  /**
   Without exemptions, floors of at least the minimum make the aggregate rule redundant: a run in which no
   crate is low has no low aggregate either, as long as something was measured.
   */
  lemma FloorsSubsumeTheMinimum(records: seq<Record>, perCrate: map<string, Lines>, crates: seq<string>, cfg: Config,
                                members: set<string>)
    requires IsPerCrate(perCrate, records) && Lists(crates, perCrate)
    requires cfg.exempt == {} && cfg.min.Some? && Total(records, None).total > 0
    requires forall c :: c in perCrate ==> FloorOf(cfg, c).Some? && FloorOf(cfg, c).value >= cfg.min.value
    requires forall c :: !Violated(LowCrate(c), Total(records, None), perCrate, cfg, members)
    ensures !Violated(LowAggregate, Total(records, None), perCrate, cfg, members)
  {
    forall c | c in perCrate ensures !perCrate[c].Below(cfg.min.value) {
      var l, floor := perCrate[c], FloorOf(cfg, c).value;
      assert !Violated(LowCrate(c), Total(records, None), perCrate, cfg, members);
      HigherFloor(l, cfg.min.value, floor);
    }
    AggregateMeetsCommonFloor(perCrate, records, crates, cfg.min.value);
  }

  /** With an exemption it is not: one exempt crate can sink an aggregate whose other crates all pass. */
  lemma ExemptCrateSinksTheAggregate()
    ensures var perCrate := map["a" := Lines(9, 10), "b" := Lines(0, 90)];
            var agg, cfg := SumOf(perCrate, ["a", "b"]), Config(Some(50.0), Some(50.0), {"b"}, map[]);
            Violated(LowAggregate, agg, perCrate, cfg, {"a", "b"}) &&
            forall c :: !Violated(LowCrate(c), agg, perCrate, cfg, {"a", "b"})
  {
    var perCrate := map["a" := Lines(9, 10), "b" := Lines(0, 90)];
    assert ["a", "b"][1..] == ["b"] && ["b"][1..] == [];
    assert SumOf(perCrate, ["b"]) == Lines(0, 90);
    assert SumOf(perCrate, ["a", "b"]) == Lines(9, 100);
  }

  /**
   A crate can be found low at all exactly when it is not exempt and its floor is a positive number; a row
   that names the crate without a number takes the default away instead of falling back to it.
   */
  lemma CrateIsGuardedIff(cfg: Config, crate: string, agg: Lines, members: set<string>)
    ensures (exists lines :: Violated(LowCrate(crate), agg, map[crate := lines], cfg, members)) <==>
            crate !in cfg.exempt && FloorOf(cfg, crate).Some? && FloorOf(cfg, crate).value > 0.0
    ensures crate in cfg.explicit && cfg.explicit[crate].None? ==>
              forall perCrate :: !Violated(LowCrate(crate), agg, perCrate, cfg, members)
  {
    if crate !in cfg.exempt && FloorOf(cfg, crate).Some? {
      var f := FloorOf(cfg, crate).value;
      if f > 0.0 {
        assert Violated(LowCrate(crate), agg, map[crate := Lines(0, 1)], cfg, members);
      } else {
        forall lines: Lines ensures !Violated(LowCrate(crate), agg, map[crate := lines], cfg, members) {
          assert f * lines.total as real <= 0.0;
        }
      }
    }
  }

  // ----- The ratchet ------------------------------------------------------------------------------

  /** The minimum at each commit from old to new; None where the file cannot be read or holds no number. */
  type History = seq<Option<real>>

  function Readable(history: History): seq<real> {
    if history == [] then []
    else (if history[0].Some? then [history[0].value] else []) + Readable(history[1..])
  }

  lemma {:induction false} ReadableOfMore(history: History, v: Option<real>)
    ensures Readable(history + [v]) == Readable(history) + (if v.Some? then [v.value] else [])
  {
    if history == [] {
      assert history + [v] == [v];
    } else {
      assert (history + [v])[1..] == history[1..] + [v];
      ReadableOfMore(history[1..], v);
      ConcatAssoc(if history[0].Some? then [history[0].value] else [], Readable(history[1..]),
                  if v.Some? then [v.value] else []);
    }
  }

  predicate Sorted(vals: seq<real>) {
    forall i, j :: 0 <= i < j < |vals| ==> vals[i] <= vals[j]
  }

  datatype Ratchet = Holds | Lowered | Crash

  /** The current minimum is compared with the last committed one, then each committed one with the next. */
  method CheckMinRatchet(history: History, current: Option<real>) returns (verdict: Ratchet)
    ensures var vals := Readable(history);
            verdict == if vals == [] then Holds
                       else if current.None? then Crash
                       else if Sorted(vals) && vals[|vals| - 1] <= current.value then Holds else Lowered
  {
    var vals := [];
    for i := 0 to |history|
      invariant vals == Readable(history[..i])
    {
      assert history[..i + 1] == history[..i] + [history[i]];
      ReadableOfMore(history[..i], history[i]);
      if history[i].Some? {
        vals := vals + [history[i].value];
      }
    }
    assert history[..|history|] == history;
    if vals == [] {
      return Holds;
    }
    if current.None? {
      return Crash;
    }
    if vals[|vals| - 1] != current.value {
      if vals[|vals| - 1] > current.value {
        return Lowered;
      }
    }
    for i := 0 to |vals| - 1
      invariant Sorted(vals[..i + 1])
    {
      if vals[i + 1] < vals[i] {
        return Lowered;
      }
      assert vals[..i + 1 + 1] == vals[..i + 1] + [vals[i + 1]];
      assert vals[..i + 1][i] == vals[i];
    }
    assert vals[..|vals|] == vals;
    return Holds;
  }

  /** A ratchet that holds bounds every minimum that was ever readable in history by the current one. */
  lemma CurrentMinimumIsTheHighest(history: History, current: real, i: nat)
    requires Readable(history) != [] && Sorted(Readable(history))
    requires Readable(history)[|Readable(history)| - 1] <= current
    requires i < |history| && history[i].Some?
    ensures history[i].value <= current
  {
    IsReadable(history, i);
  }

  lemma {:induction false} IsReadable(history: History, i: nat)
    requires i < |history| && history[i].Some?
    ensures history[i].value in Readable(history)
  {
    if i > 0 {
      IsReadable(history[1..], i - 1);
    }
  }
}
