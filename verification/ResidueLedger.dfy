/**
 The residue ledger.

 Functional references to retired crates are counted by occurrence, against a ledger that allows each one by a
 row of its own. The verdict is green only when counts and rows agree: a new reference needs a row, and a
 repaired one must give its row back, so debt that is only allowed to shrink never returns.
 */
module ResidueLedger {
  import opened Prelude
  import opened Tallies

  datatype Key = Key(file: string, crate: string, kind: string)

  /** A ledger line: blank or all comment, a key with a reason, or anything else. */
  datatype Row = Blank | Allowed(key: Key) | Malformed

  datatype Count = Count(key: Key, measured: nat, allowed: nat)

  function Keys(rows: seq<Row>): (keys: seq<Key>)
  {
    if rows == [] then []
    else if rows[0].Allowed? then [rows[0].key] + Keys(rows[1..])
    else Keys(rows[1..])
  }

  /** The dictionary holds how often each key occurs, and only keys that do. */
  ghost predicate Counts(tally: map<Key, nat>, s: seq<Key>) {
    forall k :: (k in tally <==> k in s) && (k in tally ==> tally[k] == multiset(s)[k])
  }

  lemma CountsOneMore(tally: map<Key, nat>, s: seq<Key>, key: Key)
    requires Counts(tally, s)
    ensures Counts(Bumped(tally, key), s + [key])
  {
    assert multiset(s + [key]) == multiset(s) + multiset{key};
    assert key !in tally ==> multiset(s)[key] == 0;
  }

  lemma KeysOfMore(rows: seq<Row>, row: Row)
    ensures Keys(rows + [row]) == Keys(rows) + (if row.Allowed? then [row.key] else [])
  {
    if rows == [] {
      assert rows + [row] == [row];
    } else {
      assert (rows + [row])[1..] == rows[1..] + [row];
      KeysOfMore(rows[1..], row);
    }
  }

  lemma {:induction false} AllowanceIsRows(rows: seq<Row>, k: Key)
    ensures multiset(Keys(rows))[k] == multiset(rows)[Allowed(k)] && (k in Keys(rows) <==> Allowed(k) in rows)
  {
    if rows != [] {
      AllowanceIsRows(rows[1..], k);
      assert rows == [rows[0]] + rows[1..];
    }
  }

  /** One allowance per row; a malformed row anywhere refuses the whole ledger. */
  method LoadBaseline(rows: seq<Row>) returns (ledger: Result<map<Key, nat>, nat>)
    ensures ledger.Ok? <==> Malformed !in rows
    ensures ledger.Ok? ==> Counts(ledger.value, Keys(rows))
    ensures ledger.Ok? ==> forall k :: (if k in ledger.value then ledger.value[k] else 0) == multiset(rows)[Allowed(k)]
    ensures ledger.Err? ==> ledger.error < |rows| && rows[ledger.error] == Malformed &&
                            Malformed !in rows[..ledger.error]
  {
    var tally: map<Key, nat> := map[];
    for i := 0 to |rows|
      invariant Malformed !in rows[..i]
      invariant Counts(tally, Keys(rows[..i]))
    {
      assert rows[..i + 1] == rows[..i] + [rows[i]];
      KeysOfMore(rows[..i], rows[i]);
      match rows[i] {
        case Blank =>
          assert Keys(rows[..i]) + [] == Keys(rows[..i]);
        case Allowed(key) =>
          CountsOneMore(tally, Keys(rows[..i]), key);
          tally := Bumped(tally, key);
        case Malformed =>
          return Err(i);
      }
    }
    assert rows[..|rows|] == rows;
    forall k ensures (if k in tally then tally[k] else 0) == multiset(rows)[Allowed(k)] {
      AllowanceIsRows(rows, k);
    }
    ledger := Ok(tally);
  }

  method Measure(found: seq<Key>) returns (measured: map<Key, nat>)
    ensures Counts(measured, found)
  {
    measured := map[];
    for i := 0 to |found|
      invariant Counts(measured, found[..i])
    {
      assert found[..i + 1] == found[..i] + [found[i]];
      CountsOneMore(measured, found[..i], found[i]);
      measured := Bumped(measured, found[i]);
    }
    assert found[..|found|] == found;
  }

  datatype Verdict = Verdict(unlisted: set<Count>, grown: set<Count>, rotate: set<Count>, stale: set<Count>) {
    predicate Green() {
      unlisted == {} && grown == {} && rotate == {} && stale == {}
    }

    function All(): set<Count> {
      unlisted + grown + rotate + stale
    }
  }

  /** Which list a difference belongs to; the keys of both dictionaries carry positive counts. */
  ghost predicate Judged(v: Verdict, measured: multiset<Key>, allowed: multiset<Key>) {
    && (forall c :: c in v.unlisted <==> c.allowed == 0 < c.measured && Matches(c, measured, allowed))
    && (forall c :: c in v.grown <==> 0 < c.allowed < c.measured && Matches(c, measured, allowed))
    && (forall c :: c in v.rotate <==> 0 < c.measured < c.allowed && Matches(c, measured, allowed))
    && (forall c :: c in v.stale <==> c.measured == 0 < c.allowed && Matches(c, measured, allowed))
  }

  ghost predicate Matches(c: Count, measured: multiset<Key>, allowed: multiset<Key>) {
    c.measured == measured[c.key] && c.allowed == allowed[c.key]
  }

  function Got(tally: map<Key, nat>, k: Key): nat {
    if k in tally then tally[k] else 0
  }

  lemma GotIsMultiplicity(tally: map<Key, nat>, s: seq<Key>, k: Key)
    requires Counts(tally, s)
    ensures Got(tally, k) == multiset(s)[k] && (k in tally <==> multiset(s)[k] > 0)
  {
    assert k in multiset(s) <==> k in s;
  }

  method Decide(found: seq<Key>, baseline: map<Key, nat>, ghost rows: seq<Key>) returns (v: Verdict)
    requires Counts(baseline, rows)
    ensures Judged(v, multiset(found), multiset(rows))
  {
    var measured := Measure(found);
    v := Verdict({}, {}, {}, {});
    var todo := baseline.Keys;
    while todo != {}
      invariant todo <= baseline.Keys
      invariant v.unlisted == {}
      invariant v.grown == Listed(measured, baseline, baseline.Keys - todo, Grown)
      invariant v.rotate == Listed(measured, baseline, baseline.Keys - todo, Shrunk)
      invariant v.stale == Listed(measured, baseline, baseline.Keys - todo, Gone)
      decreases todo
    {
      var key :| key in todo;
      var got, allowed := Got(measured, key), baseline[key];
      ghost var done := baseline.Keys - todo;
      PartGrows(measured, baseline, done, key);
      todo := todo - {key};
      assert baseline.Keys - todo == done + {key};
      GotIsMultiplicity(baseline, rows, key);
      if got == 0 {
        v := v.(stale := v.stale + {Count(key, got, allowed)});
      } else if got > allowed {
        v := v.(grown := v.grown + {Count(key, got, allowed)});
      } else if got < allowed {
        v := v.(rotate := v.rotate + {Count(key, got, allowed)});
      }
    }
    v := v.(unlisted := set k | k in measured && k !in baseline :: Count(k, measured[k], 0));
    assert baseline.Keys - todo == baseline.Keys;
    VerdictIsJudged(v, measured, baseline, found, rows);
  }

  /** The four lists in terms of the counts of one key. */
  lemma JudgedIff(v: Verdict, got: multiset<Key>, allowed: multiset<Key>, k: Key, m: nat, a: nat)
    requires Judged(v, got, allowed)
    ensures Count(k, m, a) in v.unlisted <==> m == got[k] && a == allowed[k] && a == 0 < m
    ensures Count(k, m, a) in v.grown <==> m == got[k] && a == allowed[k] && 0 < a < m
    ensures Count(k, m, a) in v.rotate <==> m == got[k] && a == allowed[k] && 0 < m < a
    ensures Count(k, m, a) in v.stale <==> m == got[k] && a == allowed[k] && m == 0 < a
  {
  }

  datatype Part = Grown | Shrunk | Gone

  predicate Belongs(part: Part, got: nat, allowed: nat) {
    match part
    case Grown => got != 0 && got > allowed
    case Shrunk => got != 0 && got < allowed
    case Gone => got == 0
  }

  ghost function Listed(measured: map<Key, nat>, baseline: map<Key, nat>, done: set<Key>, part: Part): set<Count>
    requires done <= baseline.Keys
  {
    set k | k in done && Belongs(part, Got(measured, k), baseline[k]) :: Count(k, Got(measured, k), baseline[k])
  }

  lemma PartGrows(measured: map<Key, nat>, baseline: map<Key, nat>, done: set<Key>, key: Key)
    requires done <= baseline.Keys && key in baseline
    ensures forall part :: Listed(measured, baseline, done + {key}, part) ==
              Listed(measured, baseline, done, part) +
              (if Belongs(part, Got(measured, key), baseline[key])
               then {Count(key, Got(measured, key), baseline[key])} else {})
  {
  }

  lemma VerdictIsJudged(v: Verdict, measured: map<Key, nat>, baseline: map<Key, nat>, found: seq<Key>,
                        rows: seq<Key>)
    requires Counts(measured, found) && Counts(baseline, rows)
    requires v.grown == Listed(measured, baseline, baseline.Keys, Grown)
    requires v.rotate == Listed(measured, baseline, baseline.Keys, Shrunk)
    requires v.stale == Listed(measured, baseline, baseline.Keys, Gone)
    requires v.unlisted == set k | k in measured && k !in baseline :: Count(k, measured[k], 0)
    ensures Judged(v, multiset(found), multiset(rows))
  {
    forall c, part
      ensures c in Listed(measured, baseline, baseline.Keys, part) <==>
              Matches(c, multiset(found), multiset(rows)) && c.allowed > 0 && Belongs(part, c.measured, c.allowed)
    {
      ListedIff(measured, baseline, found, rows, part, c);
    }
    forall c
      ensures c in v.unlisted <==> c.allowed == 0 < c.measured && Matches(c, multiset(found), multiset(rows))
    {
      GotIsMultiplicity(measured, found, c.key);
      GotIsMultiplicity(baseline, rows, c.key);
      assert c.key in measured && c.key !in baseline ==> Count(c.key, measured[c.key], 0) in v.unlisted;
    }
  }

  lemma ListedIff(measured: map<Key, nat>, baseline: map<Key, nat>, found: seq<Key>, rows: seq<Key>, part: Part,
                  c: Count)
    requires Counts(measured, found) && Counts(baseline, rows)
    ensures c in Listed(measured, baseline, baseline.Keys, part) <==>
            Matches(c, multiset(found), multiset(rows)) && c.allowed > 0 && Belongs(part, c.measured, c.allowed)
  {
    GotIsMultiplicity(measured, found, c.key);
    GotIsMultiplicity(baseline, rows, c.key);
  }

  /** All four lists are empty exactly when the disk and the ledger agree on every occurrence. */
  lemma GreenIff(v: Verdict, measured: multiset<Key>, allowed: multiset<Key>)
    requires Judged(v, measured, allowed)
    ensures v.Green() <==> measured == allowed
  {
    if v.Green() {
      forall k ensures measured[k] == allowed[k] {
        var c := Count(k, measured[k], allowed[k]);
        assert Matches(c, measured, allowed);
        assert c !in v.unlisted && c !in v.grown && c !in v.rotate && c !in v.stale;
      }
    }
  }

  /** Every differing key is in exactly one list, once, with both of its counts. */
  lemma ExactlyOneList(v: Verdict, measured: multiset<Key>, allowed: multiset<Key>, key: Key)
    requires Judged(v, measured, allowed)
    ensures forall c :: c in v.All() && c.key == key ==> c == Count(key, measured[key], allowed[key])
    ensures measured[key] != allowed[key] <==> Count(key, measured[key], allowed[key]) in v.All()
    ensures v.unlisted !! v.grown !! v.rotate !! v.stale
  {
    assert Matches(Count(key, measured[key], allowed[key]), measured, allowed);
  }

  // ----- Over a history ---------------------------------------------------------------------------

  datatype Commit = Commit(found: multiset<Key>, ledger: multiset<Key>)

  /** Every commit is green and no commit adds a ledger row. */
  ghost predicate Ratcheted(history: seq<Commit>) {
    && (forall i :: 0 <= i < |history| ==> history[i].found == history[i].ledger)
    && (forall i :: 0 <= i < |history| - 1 ==> history[i + 1].ledger <= history[i].ledger)
  }

  /** Over green commits whose ledgers only shrink, no debt grows and no repaired reference returns. */
  lemma {:induction false} DebtNeverReturns(history: seq<Commit>, i: nat, j: nat)
    requires Ratcheted(history) && i <= j < |history|
    ensures history[j].found <= history[i].found && |history[j].found| <= |history[i].found|
    ensures forall k :: history[i].found[k] == 0 ==> history[j].found[k] == 0
    decreases j - i
  {
    if i < j {
      DebtNeverReturns(history, i, j - 1);
      assert history[(j - 1) + 1].ledger <= history[j - 1].ledger;
      var gone := history[i].found - history[j].found;
      assert history[i].found == history[j].found + gone;
    }
  }

  /** Conversely, while a ledger shrinks a commit that adds a reference to a retired crate is never green. */
  lemma NewDebtIsRed(before: Commit, after: Commit, v: Verdict, key: Key)
    requires before.found == before.ledger && after.ledger <= before.ledger
    requires after.found[key] > before.found[key] && Judged(v, after.found, after.ledger)
    ensures !v.Green() && Count(key, after.found[key], after.ledger[key]) in v.unlisted + v.grown
  {
    assert Matches(Count(key, after.found[key], after.ledger[key]), after.found, after.ledger);
  }
}
