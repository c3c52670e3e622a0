/**
 Reading an installed contract header back.

 The crate's own role is harvested around the block, the fields are parsed out of the file, and the check
 compares them with freshly derived ones. The harvester reads the file line by line in text mode; the parser
 breaks those lines further.
 */
module ContractCheck {
  import opened Prelude
  import opened TextLines
  import opened ContractText
  import opened CrateContract

  // ----- Characters ---------------------------------------------------------------------------------

  /** What stripping removes and the patterns' blanks match. */
  predicate IsSpace(c: char) {
    || '\t' <= c <= '\r' || '\U{1C}' <= c <= ' ' || c == '\U{85}' || c == '\U{A0}' || c == '\U{1680}'
    || '\U{2000}' <= c <= '\U{200A}' || c == '\U{2028}' || c == '\U{2029}' || c == '\U{202F}' || c == '\U{205F}'
    || c == '\U{3000}'
  }

  predicate IsUpper(c: char) {
    'A' <= c <= 'Z'
  }

  function SkipSpace(s: string, i: nat): (j: nat)
    requires i <= |s|
    ensures i <= j <= |s| && (forall k :: i <= k < j ==> IsSpace(s[k])) && (j < |s| ==> !IsSpace(s[j]))
    decreases |s| - i
  {
    if i < |s| && IsSpace(s[i]) then SkipSpace(s, i + 1) else i
  }

  function SkipUpper(s: string, i: nat): (j: nat)
    requires i <= |s|
    ensures i <= j <= |s| && (forall k :: i <= k < j ==> IsUpper(s[k])) && (j < |s| ==> !IsUpper(s[j]))
    decreases |s| - i
  {
    if i < |s| && IsUpper(s[i]) then SkipUpper(s, i + 1) else i
  }

  function StripRight(s: string): (t: string)
    ensures t <= s && (t != "" ==> !IsSpace(t[|t| - 1]))
  {
    if s != "" && IsSpace(s[|s| - 1]) then StripRight(s[..|s| - 1]) else s
  }

  predicate Trimmed(s: string) {
    s != "" ==> !IsSpace(s[0]) && !IsSpace(s[|s| - 1])
  }

  function Strip(s: string): (t: string)
    ensures Trimmed(t)
    ensures forall c :: c in t ==> c in s
  {
    StripRight(s[SkipSpace(s, 0)..])
  }

  lemma {:induction false} StripPadded(n: nat, v: string)
    requires Trimmed(v)
    ensures Strip(Blanks(n) + v) == v
  {
    var s := Blanks(n) + v;
    var j := SkipSpace(s, 0);
    if v == "" {
      assert j == |s|;
    } else {
      assert s[n] == v[0];
      assert j == n && s[n..] == v;
    }
  }

  /** Only white space is stripped, and all of it at both ends. */
  lemma StripIsWhole(s: string) returns (a: string, b: string)
    ensures s == a + Strip(s) + b && AllSpace(a) && AllSpace(b)
  {
    var i := SkipSpace(s, 0);
    a := s[..i];
    b := StripRightIsWhole(s[i..]);
    assert s == a + s[i..];
    ConcatAssoc(a, Strip(s), b);
  }

  predicate AllSpace(s: string) {
    forall c :: c in s ==> IsSpace(c)
  }

  lemma StripRightIsWhole(s: string) returns (b: string)
    ensures s == StripRight(s) + b && AllSpace(b)
  {
    b := s[|StripRight(s)|..];
    forall k | |StripRight(s)| <= k < |s| ensures IsSpace(s[k]) {
      StrippedIsSpace(s, k);
    }
  }

  lemma {:induction false} StrippedIsSpace(s: string, k: nat)
    requires |StripRight(s)| <= k < |s|
    ensures IsSpace(s[k])
  {
    if k < |s| - 1 {
      StrippedIsSpace(s[..|s| - 1], k);
    }
  }

  const SPACES := "\t\n\U{0B}\U{0C}\r\U{1C}\U{1D}\U{1E}\U{1F} \U{85}\U{A0}\U{1680}" +
                  "\U{2000}\U{2001}\U{2002}\U{2003}\U{2004}\U{2005}\U{2006}\U{2007}\U{2008}\U{2009}\U{200A}" +
                  "\U{2028}\U{2029}\U{202F}\U{205F}\U{3000}"

  lemma SpacesAre(c: char)
    ensures IsSpace(c) <==> c in SPACES
  {
  }

  lemma CapitalsAre(c: char)
    ensures IsUpper(c) <==> c in "ABCDEFGHIJKLMNOPQRSTUVWXYZ"
  {
  }

  // ----- Harvesting the role --------------------------------------------------------------------------

  /** The leading doc lines of the file, an installed block skipped as a region. */
  function RoleLines(lines: seq<string>, inBlock: bool): seq<string> {
    if lines == [] then []
    else
      var s, rest := lines[0], lines[1..];
      if !inBlock && HasBegin(s) then RoleLines(rest, true)
      else if inBlock then RoleLines(rest, !HasEnd(s))
      else if "//!" <= s then [Strip(s[3..])] + RoleLines(rest, false)
      else if Strip(s) != "" then []
      else RoleLines(rest, false)
  }

  /** The harvesting loop. */
  method FirstRoleLines(lines: seq<string>) returns (out: seq<string>)
    ensures out == RoleLines(lines, false)
  {
    out := [];
    var inBlock := false;
    var i := 0;
    assert lines[0..] == lines;
    while i < |lines|
      invariant 0 <= i <= |lines|
      invariant out + RoleLines(lines[i..], inBlock) == RoleLines(lines, false)
    {
      var s := lines[i];
      assert lines[i..][0] == s && lines[i..][1..] == lines[i + 1..];
      i := i + 1;
      if !inBlock && HasBegin(s) {
        inBlock := true;
        continue;
      }
      if inBlock {
        if HasEnd(s) {
          inBlock := false;
        }
        continue;
      }
      if "//!" <= s {
        assert out + ([Strip(s[3..])] + RoleLines(lines[i..], false)) ==
               (out + [Strip(s[3..])]) + RoleLines(lines[i..], false);
        out := out + [Strip(s[3..])];
      } else if Strip(s) != "" {
        return;
      }
    }
    assert lines[i..] == [] && out + [] == out;
  }

  /** Once inside the block, harvesting resumes after the first end marker. */
  lemma {:induction false} SkipToEnd(lines: seq<string>, e: nat)
    requires e < |lines| && HasEnd(lines[e]) && forall i :: 0 <= i < e ==> !HasEnd(lines[i])
    ensures RoleLines(lines, true) == RoleLines(lines[e + 1..], false)
    decreases e
  {
    if e > 0 {
      SkipToEnd(lines[1..], e - 1);
      assert lines[1..][e..] == lines[e + 1..];
    }
  }

  lemma CutTail(lines: seq<string>, b: nat, e: nat)
    requires 0 < b < e < |lines|
    ensures var own := lines[..b] + lines[e + 1..];
            own[0] == lines[0] && own[1..] == lines[1..][..b - 1] + lines[1..][e..]
  {
  }

  /** A block spanning several lines is invisible to the harvest, wherever it stands. */
  lemma {:induction false} BlockIsSkipped(lines: seq<string>, b: nat, e: nat)
    requires b < e < |lines| && HasBegin(lines[b]) && HasEnd(lines[e])
    requires forall i :: 0 <= i < b ==> !HasBegin(lines[i])
    requires forall i :: b < i < e ==> !HasEnd(lines[i])
    ensures RoleLines(lines, false) == RoleLines(lines[..b] + lines[e + 1..], false)
    decreases b
  {
    if b == 0 {
      SkipToEnd(lines[1..], e - 1);
      assert lines[1..][e..] == lines[e + 1..] && lines[..0] + lines[e + 1..] == lines[e + 1..];
    } else {
      BlockIsSkipped(lines[1..], b - 1, e - 1);
      CutTail(lines, b, e);
    }
  }

  lemma RenderedBlockIsSkipped(f: Fields, rest: seq<string>)
    requires PlainFields(f)
    ensures RoleLines(Render(f) + rest, false) == RoleLines(rest, false)
  {
    var r := Render(f);
    RenderedIndices(f);
    MarkerLines();
    FieldLinesAreClean(f, |KEYS|);
    forall i | 0 < i < |KEYS| + 1 ensures !HasEnd((r + rest)[i]) {
      assert r[i] == FieldLines(f, |KEYS|)[i - 1];
    }
    BlockIsSkipped(r + rest, 0, |KEYS| + 1);
    assert (r + rest)[|KEYS| + 2..] == rest && (r + rest)[..0] + rest == rest;
  }

  /** The doc lines in order, stripped. */
  function DocsOf(lines: seq<string>): seq<string> {
    if lines == [] then []
    else
      var before, l := DocsOf(lines[..|lines| - 1]), lines[|lines| - 1];
      if "//!" <= l then before + [Strip(l[3..])] else before
  }

  /** Without a block, the doc lines above the first line that is neither a doc line nor blank. */
  lemma {:induction false} HarvestsTheHead(lines: seq<string>, n: nat)
    requires n <= |lines| && (n < |lines| ==> !("//!" <= lines[n]) && !HasBegin(lines[n]) && Strip(lines[n]) != "")
    requires forall i :: 0 <= i < n ==> !HasBegin(lines[i]) && ("//!" <= lines[i] || Strip(lines[i]) == "")
    ensures RoleLines(lines, false) == DocsOf(lines[..n])
    decreases n
  {
    if n > 0 {
      HarvestsTheHead(lines[1..], n - 1);
      assert lines[..n] == [lines[0]] + lines[1..][..n - 1];
      DocsOfCons(lines[0], lines[1..][..n - 1]);
    }
  }

  lemma DocsOfSnoc(lines: seq<string>, l: string)
    ensures DocsOf(lines + [l]) == if "//!" <= l then DocsOf(lines) + [Strip(l[3..])] else DocsOf(lines)
  {
    assert (lines + [l])[..|lines|] == lines;
  }

  lemma {:induction false} DocsOfCons(l: string, rest: seq<string>)
    ensures DocsOf([l] + rest) == (if "//!" <= l then [Strip(l[3..])] else []) + DocsOf(rest)
    decreases |rest|
  {
    var head := if "//!" <= l then [Strip(l[3..])] else [];
    if rest == [] {
      DocsOfSnoc([], l);
      ConcatEmpty([l]);
      ConcatEmpty(head);
    } else {
      var init, last := rest[..|rest| - 1], rest[|rest| - 1];
      assert rest == init + [last];
      DocsOfCons(l, init);
      DocsOfSnoc(init, last);
      DocsOfSnoc([l] + init, last);
      ConcatAssoc([l], init, [last]);
      ConcatAssoc(head, DocsOf(init), if "//!" <= last then [Strip(last[3..])] else []);
    }
  }

  // ----- Harvesting after an installation ---------------------------------------------------------------

  /** Some line ends the harvest: it is neither a doc line nor blank. */
  predicate Stops(lines: seq<string>) {
    exists i :: 0 <= i < |lines| && !("//!" <= lines[i]) && Strip(lines[i]) != ""
  }

  lemma {:induction false} HarvestOfTwo(a: seq<string>, rest: seq<string>)
    requires forall i :: 0 <= i < |a| ==> !HasBegin(a[i])
    ensures RoleLines(a + rest, false) ==
            RoleLines(a, false) + (if Stops(a) then [] else RoleLines(rest, false))
  {
    if a == [] {
      ConcatEmpty(rest);
      ConcatEmpty(RoleLines(rest, false));
    } else {
      var s, more := a[0], if Stops(a[1..]) then [] else RoleLines(rest, false);
      assert (a + rest)[1..] == a[1..] + rest;
      HarvestOfTwo(a[1..], rest);
      StopsCons(a);
      ConcatAssoc([Strip(s[if "//!" <= s then 3 else 0..])], RoleLines(a[1..], false), more);
    }
  }

  lemma StopsCons(a: seq<string>)
    requires a != []
    ensures Stops(a) <==> (!("//!" <= a[0]) && Strip(a[0]) != "") || Stops(a[1..])
  {
    forall i | 0 < i < |a| ensures a[i] == a[1..][i - 1] {
    }
  }

  lemma {:induction false} NeverResumes(lines: seq<string>)
    requires forall i :: 0 <= i < |lines| ==> !HasEnd(lines[i])
    ensures RoleLines(lines, true) == []
  {
    if lines != [] {
      NeverResumes(lines[1..]);
    }
  }

  /** The harvest ends above the block, or resumes below it with what stands below it. */
  predicate HarvestKept(lines: seq<string>) {
    var b, e := FirstWith(lines, HasBegin), LastWith(lines, HasEnd);
    b < e ==> Stops(lines[..b]) || RoleLines(lines[b + 1..], true) == RoleLines(lines[e..], false)
  }

  lemma {:induction false} HarvestAroundIff(a: seq<string>, first: string, rest: seq<string>, below: seq<string>,
                                            outside: seq<string>, lines: seq<string>)
    requires HasBegin(first) && forall i :: 0 <= i < |a| ==> !HasBegin(a[i])
    requires outside == a + below && lines == a + ([first] + rest)
    ensures RoleLines(outside, false) == RoleLines(lines, false) <==>
            Stops(a) || RoleLines(rest, true) == RoleLines(below, false)
  {
    var block := [first] + rest;
    assert block[1..] == rest;
    HarvestOfTwo(a, block);
    HarvestOfTwo(a, below);
    SameTail(RoleLines(a, false), RoleLines(rest, true), RoleLines(below, false));
  }

  lemma SplitAt(lines: seq<string>, b: nat)
    requires b < |lines|
    ensures lines == lines[..b] + ([lines[b]] + lines[b + 1..])
  {
  }

  /** Taking out the lines from a first begin marker to any later line. */
  lemma {:induction false} CutHarvestsAlikeIff(lines: seq<string>, b: nat, e: nat, outside: seq<string>)
    requires b < e <= |lines| && HasBegin(lines[b]) && forall i :: 0 <= i < b ==> !HasBegin(lines[i])
    requires outside == lines[..b] + lines[e..]
    ensures RoleLines(outside, false) == RoleLines(lines, false) <==>
            Stops(lines[..b]) || RoleLines(lines[b + 1..], true) == RoleLines(lines[e..], false)
  {
    SplitAt(lines, b);
    HarvestAroundIff(lines[..b], lines[b], lines[b + 1..], lines[e..], outside, lines);
  }

  lemma {:induction false} OutsideHarvestsAlikeIff(lines: seq<string>)
    ensures RoleLines(OutsideBlock(lines), false) == RoleLines(lines, false) <==> HarvestKept(lines)
  {
    var b, e := FirstWith(lines, HasBegin), LastWith(lines, HasEnd);
    if b < e {
      CutHarvestsAlikeIff(lines, b, e, OutsideBlock(lines));
    } else {
      assert OutsideBlock(lines) == lines && HarvestKept(lines);
    }
  }

  lemma SameTail(x: seq<string>, y: seq<string>, z: seq<string>)
    ensures x + y == x + z <==> y == z
  {
    assert (x + y)[|x|..] == y && (x + z)[|x|..] == z;
  }

  /** A block over several lines with one end marker is harvested as if it were not there. */
  lemma {:induction false} SeveralLinesAreKept(lines: seq<string>, b: nat, e: nat)
    requires b == FirstWith(lines, HasBegin) && e == LastWith(lines, HasEnd) && b + 1 < e
    requires forall i :: b < i < e - 1 ==> !HasEnd(lines[i])
    ensures HarvestKept(lines)
  {
    ResumesBelow(lines, b + 1, e);
  }

  lemma {:induction false} ResumesBelow(lines: seq<string>, b: nat, e: nat)
    requires b < e <= |lines| && HasEnd(lines[e - 1]) && forall i :: b <= i < e - 1 ==> !HasEnd(lines[i])
    ensures RoleLines(lines[b..], true) == RoleLines(lines[e..], false)
  {
    SkipToEnd(lines[b..], e - 1 - b);
    assert lines[b..][e - b..] == lines[e..];
  }

  /** A block that begins and ends on one line swallows every doc line below it. */
  lemma OneLineIsKeptIff(lines: seq<string>, b: nat)
    requires b == FirstWith(lines, HasBegin) && b + 1 == LastWith(lines, HasEnd)
    ensures HarvestKept(lines) <==> Stops(lines[..b]) || RoleLines(lines[b + 1..], false) == []
  {
    NeverResumes(lines[b + 1..]);
  }

  /**
   Harvesting sees the same doc lines before and after a lossless installation exactly when the old
   block did not hide any: always without a block, and always when the block spans several lines.
   */
  lemma HarvestCommutesIff(file: string, f: Fields)
    requires PlainFields(f) && Install(file, f).Ok? && Aligned(Read(file).lines)
    ensures RoleLines(FileLines(Install(file, f).value), false) == RoleLines(FileLines(file), false) <==>
            HarvestKept(FileLines(file))
  {
    InstalledLines(file, f);
    RefreshIsLosslessIff(file);
    RenderedBlockIsSkipped(f, OwnTextLines(Read(file)));
    OutsideHarvestsAlikeIff(FileLines(file));
  }

  // ----- Deriving the role -----------------------------------------------------------------------------

  const MARKER_WORD := "CRATE-CONTRACT"

  /** The first doc line that is not empty, a tag, or about the contract itself; "" if there is none. */
  function Harvest(docs: seq<string>, tag: string -> bool): string {
    if docs == [] then ""
    else if docs[0] == "" || tag(docs[0]) || Contains(docs[0], MARKER_WORD) then Harvest(docs[1..], tag)
    else docs[0]
  }

  function RoleOf(lines: seq<string>, tag: string -> bool): string {
    var role := Harvest(RoleLines(lines, false), tag);
    if role == "" then "(untitled)" else role
  }

  /** The derived fields: everything but the role comes from elsewhere in the workspace. */
  function Derive(base: Fields, file: string, tag: string -> bool): Fields {
    base.(role := RoleOf(FileLines(file), tag))
  }

  lemma {:induction false} UniversalLinesHaveNoBreaks(t: string)
    ensures forall l :: l in UniversalLines(t) ==> NoBreaks(l)
    decreases |t|
  {
    if t != "" {
      if "\r\n" <= t {
        UniversalLinesHaveNoBreaks(t[2..]);
      } else {
        UniversalLinesHaveNoBreaks(t[1..]);
        assert UniversalLines(t[1..])[0] in UniversalLines(t[1..]);
      }
    }
  }

  lemma {:induction false} RoleLinesAreTrimmed(lines: seq<string>, inBlock: bool)
    requires forall l :: l in lines ==> NoBreaks(l)
    ensures forall r :: r in RoleLines(lines, inBlock) ==> NoBreaks(r) && Trimmed(r)
    decreases |lines|
  {
    if lines != [] {
      assert lines[0] in lines;
      var s, rest := lines[0], lines[1..];
      RoleLinesAreTrimmed(rest, true);
      RoleLinesAreTrimmed(rest, false);
      if "//!" <= s {
        assert forall c :: c in s[3..] ==> c in s;
      }
    }
  }

  lemma {:induction false} HarvestFacts(docs: seq<string>, tag: string -> bool)
    ensures Harvest(docs, tag) == "" || (Harvest(docs, tag) in docs && !Contains(Harvest(docs, tag), MARKER_WORD))
  {
    if docs != [] {
      HarvestFacts(docs[1..], tag);
    }
  }

  /** A doc line that can be a role: neither empty nor a tag nor about the contract itself. */
  predicate Eligible(doc: string, tag: string -> bool) {
    doc != "" && !tag(doc) && !Contains(doc, "CRATE-CONTRACT")
  }

  /** The role is the first eligible doc line. */
  lemma {:induction false} HarvestIsFirst(docs: seq<string>, tag: string -> bool, k: nat)
    requires k <= |docs| && (forall i :: 0 <= i < k ==> !Eligible(docs[i], tag))
    requires k < |docs| ==> Eligible(docs[k], tag)
    ensures Harvest(docs, tag) == if k < |docs| then docs[k] else ""
    decreases k
  {
    if k > 0 {
      HarvestIsFirst(docs[1..], tag, k - 1);
    }
  }

  /** The file's role: its first eligible doc line, or "(untitled)" exactly when it has none. */
  lemma RoleIsFirst(lines: seq<string>, tag: string -> bool, k: nat)
    requires var docs := RoleLines(lines, false);
             k <= |docs| && (forall i :: 0 <= i < k ==> !Eligible(docs[i], tag)) &&
             (k < |docs| ==> Eligible(docs[k], tag))
    ensures var docs := RoleLines(lines, false);
            RoleOf(lines, tag) == if k < |docs| then docs[k] else "(untitled)"
  {
    HarvestIsFirst(RoleLines(lines, false), tag, k);
  }

  lemma MarkerHasWord(s: string, marker: string)
    requires marker == BEGIN || marker == END
    ensures Contains(s, marker) ==> Contains(s, MARKER_WORD)
  {
    assert MARKER_WORD <= marker;
    if Contains(s, marker) {
      var k :| 0 <= k <= |s| && marker <= s[k..];
      assert MARKER_WORD <= s[k..];
    }
  }

  /** A harvested role always fits on its line. */
  lemma RoleIsPlain(file: string, tag: string -> bool)
    ensures Plain(RoleOf(FileLines(file), tag)) && Trimmed(RoleOf(FileLines(file), tag))
    ensures RoleOf(FileLines(file), tag) != ""
  {
    UniversalLinesHaveNoBreaks(TextOf(file));
    RoleLinesAreTrimmed(FileLines(file), false);
    HarvestFacts(RoleLines(FileLines(file), false), tag);
    MarkerHasWord(RoleOf(FileLines(file), tag), BEGIN);
    MarkerHasWord(RoleOf(FileLines(file), tag), END);
    forall k | 0 <= k <= |"(untitled)"| ensures !(MARKER_WORD <= "(untitled)"[k..]) {
    }
  }

  lemma DerivedIsPlain(base: Fields, file: string, tag: string -> bool)
    requires PlainFields(base)
    ensures PlainFields(Derive(base, file, tag))
  {
    RoleIsPlain(file, tag);
    forall k: Key ensures Plain(Derive(base, file, tag).Get(k)) {
      assert k != Role ==> Derive(base, file, tag).Get(k) == base.Get(k);
      assert Plain(base.Get(k));
    }
  }

  /**
   Re-deriving after an installation changes nothing, so installing what is derived is a fixpoint, unless
   the markers were in the wrong order.
   */
  lemma DerivedInstallIsFixpoint(base: Fields, file: string, tag: string -> bool, f: Fields)
    requires PlainFields(base) && f == Derive(base, file, tag) && Install(file, f).Ok?
    requires Aligned(Read(file).lines) && HarvestKept(FileLines(file))
    ensures var g := Install(file, f).value;
            Derive(base, g, tag) == f && (Install(g, f) == Ok(g) <==> !Misordered(Read(file).lines))
  {
    DerivedIsPlain(base, file, tag);
    HarvestCommutesIff(file, f);
    InstallIsIdempotentIff(file, f);
  }

  // ----- Parsing ---------------------------------------------------------------------------------------

  /** `//! KEY: value`, blanks allowed around the key and the colon. */
  function MatchField(l: string): Option<(string, string)> {
    if !("//!" <= l) then None
    else
      var i := SkipSpace(l, 3);
      var j := SkipUpper(l, i);
      FieldAt(l, i, j, SkipSpace(l, j))
  }

  /** The key is l[i..j], the rest of the line behind the colon at k the value. */
  function FieldAt(l: string, i: nat, j: nat, k: nat): Option<(string, string)>
    requires i <= j <= k <= |l|
  {
    if i > 3 && j > i && k < |l| && l[k] == ':' then Some((l[i..j], Strip(l[k + 1..]))) else None
  }

  function KeyOf(name: string): Option<Key> {
    if name == "LAYER" then Some(Layer)
    else if name == "ROLE" then Some(Role)
    else if name == "BACKEND" then Some(Backend)
    else if name == "PRODUCERS" then Some(Producers)
    else if name == "CONSUMERS" then Some(Consumers)
    else if name == "MATURITY" then Some(Maturity)
    else None
  }

  /** The line's field, if its name is one of the keys; fields of other names are never looked up. */
  function MatchKey(l: string): Option<(Key, string)> {
    match MatchField(l)
    case None => None
    case Some((name, value)) =>
      match KeyOf(name)
      case None => None
      case Some(k) => Some((k, value))
  }

  function Put(m: map<Key, string>, field: Option<(Key, string)>): map<Key, string> {
    match field
    case None => m
    case Some((k, value)) => m[k := value]
  }

  /** The fields of all matching lines; the last match of a key wins. */
  function FieldMap(lines: seq<string>): map<Key, string> {
    if lines == [] then map[]
    else Put(FieldMap(lines[..|lines| - 1]), MatchKey(lines[|lines| - 1]))
  }

  datatype ParseError = MissingBlock | MissingKeys(keys: set<Key>)

  predicate HasKeys(m: map<Key, string>) {
    forall k: Key :: k in m
  }

  function Missing(m: map<Key, string>): (keys: set<Key>)
    ensures keys == {} <==> HasKeys(m)
  {
    var keys := set k: Key | k !in m;
    assert forall k: Key :: k !in keys <==> k in m;
    keys
  }

  function Parsed(lines: seq<string>): (r: Result<map<Key, string>, ParseError>)
    ensures r.Ok? ==> HasKeys(r.value)
  {
    if forall l :: l in lines ==> !HasBegin(l) then Err(MissingBlock)
    else if Missing(FieldMap(lines)) != {} then Err(MissingKeys(Missing(FieldMap(lines))))
    else Ok(FieldMap(lines))
  }

  /** The parser reads every matching line of the file, not only those between the markers. */
  method ParseBlock(lines: seq<string>) returns (r: Result<map<Key, string>, ParseError>)
    ensures r == Parsed(lines)
  {
    var begins, fields := 0, map[];
    var i := 0;
    while i < |lines|
      invariant 0 <= i <= |lines|
      invariant fields == FieldMap(lines[..i])
      invariant begins > 0 <==> exists l :: l in lines[..i] && HasBegin(l)
    {
      assert lines[..i + 1][..i] == lines[..i];
      if HasBegin(lines[i]) {
        begins := begins + 1;
      }
      var field := MatchKey(lines[i]);
      fields := Put(fields, field);
      i := i + 1;
    }
    assert lines[..i] == lines;
    if begins == 0 {
      return Err(MissingBlock);
    }
    var missing := Missing(fields);
    r := if missing != {} then Err(MissingKeys(missing)) else Ok(fields);
  }

  lemma FieldMapSnoc(lines: seq<string>, l: string, field: Option<(Key, string)>)
    requires field == MatchKey(l)
    ensures FieldMap(lines + [l]) == Put(FieldMap(lines), field)
  {
    assert (lines + [l])[..|lines|] == lines;
  }

  lemma PutLast(m: map<Key, string>, n: map<Key, string>, field: Option<(Key, string)>)
    ensures Put(m + n, field) == m + Put(n, field)
  {
  }

  lemma FieldMapOneMore(a: seq<string>, init: seq<string>, l: string)
    requires FieldMap(a + init) == FieldMap(a) + FieldMap(init)
    ensures FieldMap(a + (init + [l])) == FieldMap(a) + FieldMap(init + [l])
  {
    var field := MatchKey(l);
    FieldMapSnoc(init, l, field);
    FieldMapSnoc(a + init, l, field);
    ConcatAssoc(a, init, [l]);
    PutLast(FieldMap(a), FieldMap(init), field);
  }

  lemma {:induction false} FieldMapConcat(a: seq<string>, b: seq<string>)
    ensures FieldMap(a + b) == FieldMap(a) + FieldMap(b)
    decreases |b|
  {
    if b == [] {
      assert a + b == a;
    } else {
      var init, l := b[..|b| - 1], b[|b| - 1];
      FieldMapConcat(a, init);
      FieldMapOneMore(a, init, l);
      assert b == init + [l];
    }
  }

  /** A line of field shape: doc marker, blanks, a word in capitals, perhaps blanks, a colon, and the value. */
  predicate FieldParts(l: string, a: string, key: string, b: string, rest: string) {
    && l == "//!" + a + key + b + ":" + rest
    && a != "" && AllSpace(a) && AllSpace(b)
    && key != "" && forall c :: c in key ==> IsUpper(c)
  }

  lemma {:induction false} MatchHasParts(l: string, key: string, value: string)
    returns (a: string, b: string, rest: string)
    requires MatchField(l) == Some((key, value))
    ensures FieldParts(l, a, key, b, rest) && value == Strip(rest)
  {
    var i := SkipSpace(l, 3);
    var j := SkipUpper(l, i);
    var k := SkipSpace(l, j);
    a, b, rest := l[3..i], l[j..k], l[k + 1..];
    FiveParts(l, i, j, k);
    AllOf(l, 3, i, IsSpace);
    AllOf(l, i, j, IsUpper);
    AllOf(l, j, k, IsSpace);
  }

  lemma FiveParts(l: string, i: nat, j: nat, k: nat)
    requires 3 <= i <= j <= k < |l| && "//!" <= l && l[k] == ':'
    ensures l == "//!" + l[3..i] + l[i..j] + l[j..k] + ":" + l[k + 1..]
  {
    assert l[..3] == "//!" && l[k..k + 1] == ":";
  }

  lemma AllOf(l: string, i: nat, j: nat, has: char -> bool)
    requires i <= j <= |l| && forall k :: i <= k < j ==> has(l[k])
    ensures forall c :: c in l[i..j] ==> has(c)
  {
  }

  /** The pattern matches exactly the lines of that shape, and gives the word and the stripped value. */
  lemma MatchFieldIff(l: string, key: string, value: string)
    ensures MatchField(l) == Some((key, value)) <==>
            exists a, b, rest :: FieldParts(l, a, key, b, rest) && value == Strip(rest)
  {
    if MatchField(l) == Some((key, value)) {
      var a, b, rest := MatchHasParts(l, key, value);
    }
    if a, b, rest :| FieldParts(l, a, key, b, rest) && value == Strip(rest) {
      PartsMatch(l, a, key, b, rest);
    }
  }

  lemma {:induction false} SkipSpaceTo(s: string, i: nat, j: nat)
    requires i <= j < |s| && !IsSpace(s[j]) && forall k :: i <= k < j ==> IsSpace(s[k])
    ensures SkipSpace(s, i) == j
    decreases j - i
  {
    if i < j {
      SkipSpaceTo(s, i + 1, j);
    }
  }

  /** The parts lie at columns i, j and k. */
  predicate PartsAt(l: string, i: nat, j: nat, k: nat, key: string, rest: string) {
    && 3 < i < j <= k < |l| && "//!" <= l && l[k] == ':' && l[i..j] == key && l[k + 1..] == rest
    && (forall m :: 3 <= m < i ==> IsSpace(l[m])) && !IsSpace(l[i])
    && (forall m :: i <= m < j ==> IsUpper(l[m])) && !IsUpper(l[j])
    && (forall m :: j <= m < k ==> IsSpace(l[m])) && !IsSpace(l[k])
  }

  /** Where the three runs of the field pattern end, and what they leave. */
  predicate Runs(l: string, i: nat, j: nat, k: nat, key: string, rest: string) {
    && 3 < i < j <= k < |l| && "//!" <= l && l[k] == ':' && l[i..j] == key && l[k + 1..] == rest
    && SkipSpace(l, 3) == i && SkipUpper(l, i) == j && SkipSpace(l, j) == k
  }

  lemma {:induction false} RunsMatch(l: string, i: nat, j: nat, k: nat, key: string, rest: string)
    requires Runs(l, i, j, k, key, rest)
    ensures MatchField(l) == Some((key, Strip(rest)))
  {
    assert MatchField(l) == FieldAt(l, i, j, k);
  }

  lemma {:induction false} PartsRun(l: string, i: nat, j: nat, k: nat, key: string, rest: string)
    requires PartsAt(l, i, j, k, key, rest)
    ensures Runs(l, i, j, k, key, rest)
  {
    SkipSpaceTo(l, 3, i);
    SkipUpperTo(l, i, j);
    SkipSpaceTo(l, j, k);
  }

  lemma {:induction false} PartsMatch(l: string, a: string, key: string, b: string, rest: string)
    requires FieldParts(l, a, key, b, rest)
    ensures MatchField(l) == Some((key, Strip(rest)))
  {
    PartsRunThere(l, a, key, b, rest);
    RunsMatch(l, 3 + |a|, 3 + |a| + |key|, 3 + |a| + |key| + |b|, key, rest);
  }

  lemma {:induction false} PartsRunThere(l: string, a: string, key: string, b: string, rest: string)
    requires FieldParts(l, a, key, b, rest)
    ensures Runs(l, 3 + |a|, 3 + |a| + |key|, 3 + |a| + |key| + |b|, key, rest)
  {
    PartsLieThere(l, a, key, b, rest);
    PartsRun(l, 3 + |a|, 3 + |a| + |key|, 3 + |a| + |key| + |b|, key, rest);
  }

  lemma {:induction false} PartsLieThere(l: string, a: string, key: string, b: string, rest: string)
    requires FieldParts(l, a, key, b, rest)
    ensures PartsAt(l, 3 + |a|, 3 + |a| + |key|, 3 + |a| + |key| + |b|, key, rest)
  {
    var i, j, k := 3 + |a|, 3 + |a| + |key|, 3 + |a| + |key| + |b|;
    forall m | 3 <= m < i ensures l[m] in a {
      assert l[m] == a[m - 3];
    }
    forall m | i <= m < j ensures l[m] in key {
      assert l[m] == key[m - i];
    }
    forall m | j <= m < k ensures l[m] in b {
      assert l[m] == b[m - j];
    }
    assert l[j] == if b == "" then ':' else b[0];
  }

  lemma {:induction false} SkipUpperTo(s: string, i: nat, j: nat)
    requires i <= j < |s| && !IsUpper(s[j]) && forall k :: i <= k < j ==> IsUpper(s[k])
    ensures SkipUpper(s, i) == j
    decreases j - i
  {
    if i < j {
      SkipUpperTo(s, i + 1, j);
    }
  }

  lemma SkipsOneSpace(l: string)
    requires "//! " <= l && |l| > 4 && IsUpper(l[4])
    ensures "//!" <= l && SkipSpace(l, 3) == 4
  {
    assert l[3] == ' ' && "//!" <= "//! ";
  }

  /** A doc line whose word ends at column j matches exactly when a colon follows at once. */
  lemma WordThen(l: string, j: nat)
    requires "//! " <= l && 4 < j < |l| && !IsUpper(l[j]) && !IsSpace(l[j])
    requires forall k :: 4 <= k < j ==> IsUpper(l[k])
    ensures MatchField(l) == if l[j] == ':' then Some((l[4..j], Strip(l[j + 1..]))) else None
  {
    SkipsOneSpace(l);
    SkipUpperTo(l, 4, j);
    assert SkipSpace(l, j) == j;
  }

  /** `//! `, the key, a colon, and the rest. */
  predicate Fielded(l: string, key: string, rest: string) {
    |l| > 4 + |key| && "//! " <= l && l[4..4 + |key|] == key && l[4 + |key|] == ':' && l[5 + |key|..] == rest
  }

  lemma FieldedParses(l: string, key: string, rest: string)
    requires Fielded(l, key, rest) && key != "" && (forall i :: 0 <= i < |key| ==> IsUpper(key[i]))
    ensures MatchField(l) == Some((key, Strip(rest)))
  {
    forall k | 4 <= k < 4 + |key| ensures IsUpper(l[k]) {
      assert l[k] == l[4..4 + |key|][k - 4];
    }
    WordThen(l, 4 + |key|);
  }

  lemma FieldLineShape(key: string, value: string, n: nat)
    requires key != "" && n == if |key| + 1 < KEY_WIDTH then KEY_WIDTH - |key| - 1 else 0
    ensures Fielded(FieldLine(key, value), key, Blanks(n + 1) + value)
  {
    assert Blanks(n) + " " == Blanks(n + 1);
    assert FieldLine(key, value) == "//! " + key + ":" + (Blanks(n) + " ") + value;
  }

  /** The parser undoes the printer, line by line; it strips the value. */
  lemma FieldLineParses(key: string, value: string)
    requires key != "" && (forall i :: 0 <= i < |key| ==> IsUpper(key[i]))
    ensures var field := MatchField(FieldLine(key, value));
            field.Some? && field.value.0 == key && (Trimmed(value) ==> field.value.1 == value)
  {
    var n := if |key| + 1 < KEY_WIDTH then KEY_WIDTH - |key| - 1 else 0;
    FieldLineShape(key, value, n);
    FieldedParses(FieldLine(key, value), key, Blanks(n + 1) + value);
    if Trimmed(value) {
      StripPadded(n + 1, value);
    }
  }

  lemma MarkerLinesAreNotFields()
    ensures MatchKey("//! " + BEGIN) == None && MatchKey("//! " + END) == None
  {
    var b, e := "//! " + BEGIN, "//! " + END;
    assert b[9] == '-' && forall k :: 4 <= k < 9 ==> IsUpper(b[k]);
    assert e[9] == '-' && forall k :: 4 <= k < 9 ==> IsUpper(e[k]);
    WordThen(b, 9);
    WordThen(e, 9);
  }

  lemma {:induction false} NameIsKey(k: Key)
    ensures KeyOf(Name(k)) == Some(k)
  {
  }

  /** A key's own line is read back as that key. */
  lemma {:induction false} KeyLineParses(k: Key, value: string)
    ensures var field := MatchKey(FieldLine(Name(k), value));
            field.Some? && field.value.0 == k && (Trimmed(value) ==> field.value.1 == value)
  {
    NameFacts(k);
    NameIsKey(k);
    NamedLineParses(Name(k), k, value);
  }

  lemma {:induction false} NamedLineParses(name: string, k: Key, value: string)
    requires KeyOf(name) == Some(k)
    requires name != "" && forall i :: 0 <= i < |name| ==> IsUpper(name[i])
    ensures var field := MatchKey(FieldLine(name, value));
            field.Some? && field.value.0 == k && (Trimmed(value) ==> field.value.1 == value)
  {
    FieldLineParses(name, value);
  }

  /** A value the parser can return: trimmed, and on one line. */
  predicate Readable(value: string) {
    Trimmed(value) && Whole(value)
  }

  predicate ReadableFields(f: Fields) {
    forall k: Key :: Readable(f.Get(k))
  }

  predicate ReadableMap(m: map<Key, string>) {
    forall k :: k in m ==> Readable(m[k])
  }

  /** The parser only returns readable values. */
  lemma {:induction false} FieldMapIsReadable(lines: seq<string>)
    requires forall l :: l in lines ==> Whole(l)
    ensures ReadableMap(FieldMap(lines))
  {
    if lines != [] {
      var n := |lines| - 1;
      FieldMapIsReadable(lines[..n]);
      assert lines[n] in lines;
      MatchIsReadable(lines[n]);
    }
  }

  lemma {:induction false} MatchIsReadable(l: string)
    requires Whole(l)
    ensures MatchKey(l).Some? ==> Readable(MatchKey(l).value.1)
  {
    if MatchField(l).Some? {
      var k := SkipSpace(l, SkipUpper(l, SkipSpace(l, 3)));
      assert forall c :: c in l[k + 1..] ==> c in l;
    }
  }

  /** The map has the first n keys, and with the values of `f` as far as these are readable. */
  predicate SaysFirst(m: map<Key, string>, f: Fields, n: nat)
    requires n <= |KEYS|
  {
    && (forall i :: 0 <= i < n ==> KEYS[i] in m)
    && (ReadableFields(f) ==> forall i :: 0 <= i < n ==> m[KEYS[i]] == f.Get(KEYS[i]))
  }

  lemma {:induction false} SaysOneMore(m: map<Key, string>, line: map<Key, string>, f: Fields, n: nat)
    requires n < |KEYS| && SaysFirst(m, f, n) && KEYS[n] in line
    requires ReadableFields(f) ==> line == map[KEYS[n] := f.Get(KEYS[n])]
    ensures SaysFirst(m + line, f, n + 1)
  {
  }

  /** The line of one key, cut where the parser cuts it. */
  lemma {:induction false} KeyLineIsRead(k: Key, value: string)
    ensures var m := FieldMap(Cuts(FieldLine(Name(k), value)));
            k in m && (Readable(value) ==> m == map[k := value])
  {
    NameFacts(k);
    PrefixIsWhole(Name(k));
    var first, rest := Cuts(value)[0], Cuts(value)[1..];
    CutsAfter(FieldPrefix(Name(k)), value);
    KeyLineParses(k, first);
    OneField(FieldLine(Name(k), first));
    FieldMapConcat([FieldLine(Name(k), first)], rest);
    if Readable(value) {
      CutsOfWhole(value);
    }
  }

  lemma {:induction false} OneField(l: string)
    ensures FieldMap([l]) == Put(map[], MatchKey(l))
  {
    FieldMapSnoc([], l, MatchKey(l));
    assert [] + [l] == [l];
  }

  lemma {:induction false} PrefixIsWhole(name: string)
    requires forall i :: 0 <= i < |name| ==> 'A' <= name[i] <= 'Z'
    ensures Whole(FieldPrefix(name))
  {
  }

  lemma {:induction false} OneLineMore(before: seq<string>, line: string)
    ensures FieldMap(AllCuts(before + [line])) == FieldMap(AllCuts(before)) + FieldMap(Cuts(line))
  {
    AllCutsConcat(before, [line]);
    OneCut(line);
    FieldMapConcat(AllCuts(before), Cuts(line));
  }

  lemma {:induction false} FieldLinesParse(f: Fields, n: nat)
    requires n <= |KEYS|
    ensures SaysFirst(FieldMap(AllCuts(FieldLines(f, n))), f, n)
  {
    if n > 0 {
      var k := KEYS[n - 1];
      var line, before := FieldLine(Name(k), f.Get(k)), FieldLines(f, n - 1);
      FieldLinesParse(f, n - 1);
      KeyLineIsRead(k, f.Get(k));
      OneLineMore(before, line);
      SaysOneMore(FieldMap(AllCuts(before)), FieldMap(Cuts(line)), f, n - 1);
    }
  }

  lemma {:induction false} OneCut(l: string)
    ensures AllCuts([l]) == Cuts(l)
  {
    ConcatEmpty(Cuts(l));
  }

  /** The map gives every key the value it has in `f`. */
  predicate Says(m: map<Key, string>, f: Fields) {
    forall k: Key :: k in m && m[k] == f.Get(k)
  }

  lemma EveryKeyListed(k: Key)
    ensures exists i :: 0 <= i < |KEYS| && KEYS[i] == k
  {
    var i := match k case Layer => 0 case Role => 1 case Backend => 2
                     case Producers => 3 case Consumers => 4 case Maturity => 5;
    assert KEYS[i] == k;
  }

  /** What a rendered block says to the parser. */
  function Said(f: Fields): map<Key, string> {
    FieldMap(AllCuts(Render(f)))
  }

  lemma {:induction false} MarkersAreWhole()
    ensures Whole("//! " + BEGIN) && Whole("//! " + END)
  {
  }

  lemma {:induction false} BlockMap(first: string, mid: seq<string>, last: string)
    requires MatchKey(first) == None && MatchKey(last) == None && Whole(first) && Whole(last)
    ensures FieldMap(AllCuts([first] + mid + [last])) == FieldMap(AllCuts(mid))
  {
    AllCutsConcat([first] + mid, [last]);
    AllCutsConcat([first], mid);
    OneCut(first);
    OneCut(last);
    CutsOfWhole(first);
    CutsOfWhole(last);
    OneField(first);
    FieldMapConcat([first], AllCuts(mid));
    FieldMapSnoc([first] + AllCuts(mid), last, None);
  }

  /** The rendered block says every key, and if all values are readable, exactly the fields it was rendered from. */
  lemma {:induction false} RenderedParses(f: Fields)
    ensures HasKeys(Said(f)) && (ReadableFields(f) ==> Says(Said(f), f))
  {
    FieldLinesParse(f, |KEYS|);
    MarkerLinesAreNotFields();
    MarkersAreWhole();
    BlockMap("//! " + BEGIN, FieldLines(f, |KEYS|), "//! " + END);
    forall k: Key ensures k in Said(f) && (ReadableFields(f) ==> Said(f)[k] == f.Get(k)) {
      EveryKeyListed(k);
    }
  }

  /** What the file's own lines say under some key differs from the field to install. */
  predicate Overridden(own: map<Key, string>, f: Fields, k: Key) {
    k in own && own[k] != f.Get(k)
  }

  /** What an installed file says under a key: its own lines, which come later, win over the block. */
  function InForce(own: map<Key, string>, said: map<Key, string>, k: Key): string
    requires k in said
  {
    if k in own then own[k] else said[k]
  }

  lemma {:induction false} BlockBegins(first: string, rest: seq<string>, own: seq<string>)
    requires HasBegin(first) && Whole(first)
    ensures exists l :: l in AllCuts(([first] + rest) + own) && HasBegin(l)
  {
    var lines := ([first] + rest) + own;
    CutsOfWhole(first);
    assert lines[0] == first && AllCuts(lines)[0] == first;
  }

  lemma {:induction false} RenderBegins(f: Fields, own: seq<string>)
    ensures exists l :: l in AllCuts(Render(f) + own) && HasBegin(l)
  {
    MarkerLines();
    MarkersAreWhole();
    var first, rest := "//! " + BEGIN, FieldLines(f, |KEYS|) + ["//! " + END];
    assert Render(f) == [first] + rest;
    BlockBegins(first, rest, own);
  }

  /** What the file's own lines say to the parser. */
  function OwnSaid(file: string): map<Key, string>
    requires Own(Read(file).lines).Ok?
  {
    FieldMap(AllCuts(OwnTextLines(Read(file))))
  }

  /** The parser's view of a file: text-mode lines, cut at the further separators. */
  function ParsedFile(file: string): (r: Result<map<Key, string>, ParseError>)
    ensures r.Ok? ==> HasKeys(r.value)
  {
    Parsed(AllCuts(FileLines(file)))
  }

  /** Parsing an installed file: what the block says, overridden by whatever the file's own lines say. */
  lemma {:induction false} ParsedInstalled(file: string, f: Fields)
    requires PlainFields(f) && Install(file, f).Ok?
    ensures Own(Read(file).lines).Ok? && HasKeys(Said(f))
    ensures var parsed := ParsedFile(Install(file, f).value);
            parsed.Ok? && forall k: Key :: parsed.value[k] == InForce(OwnSaid(file), Said(f), k)
  {
    InstalledLines(file, f);
    RenderedParses(f);
    var own := OwnTextLines(Read(file));
    RenderBegins(f, own);
    AllCutsConcat(Render(f), own);
    ParsedBlockThenOwn(AllCuts(Render(f)), AllCuts(own));
  }

  lemma {:induction false} ParsedBlockThenOwn(block: seq<string>, own: seq<string>)
    requires HasKeys(FieldMap(block)) && exists l :: l in block + own && HasBegin(l)
    ensures Parsed(block + own).Ok?
    ensures forall k: Key :: Parsed(block + own).value[k] == InForce(FieldMap(own), FieldMap(block), k)
  {
    FieldMapConcat(block, own);
  }

  lemma {:induction false} ParsedIsReadable(file: string)
    ensures ParsedFile(file).Ok? ==> ReadableMap(ParsedFile(file).value)
  {
    AllCutsAreWhole(FileLines(file));
    FieldMapIsReadable(AllCuts(FileLines(file)));
  }

  /**
   Printer and parser round trip: the installed fields are read back exactly when every value is trimmed and
   holds no line separator of either kind, and none of the file's own lines reads as one of the keys with
   another value.
   */
  lemma {:induction false} RoundTripIff(file: string, f: Fields, own: map<Key, string>)
    requires PlainFields(f) && Install(file, f).Ok?
    requires Own(Read(file).lines).Ok? && own == OwnSaid(file)
    ensures var parsed := ParsedFile(Install(file, f).value);
            parsed.Ok? &&
            (Says(parsed.value, f) <==> ReadableFields(f) && forall k: Key :: !Overridden(own, f, k))
  {
    var g := Install(file, f).value;
    ParsedInstalled(file, f);
    ParsedIsReadable(g);
    RenderedParses(f);
    SaysIff(ParsedFile(g).value, own, Said(f), f);
  }

  lemma {:induction false} SaysIff(m: map<Key, string>, own: map<Key, string>, said: map<Key, string>, f: Fields)
    requires HasKeys(m) && HasKeys(said) && ReadableMap(m) && forall k: Key :: m[k] == InForce(own, said, k)
    requires ReadableFields(f) ==> Says(said, f)
    ensures Says(m, f) <==> ReadableFields(f) && forall k: Key :: !Overridden(own, f, k)
  {
    if Says(m, f) {
      assert forall k: Key :: Readable(f.Get(k)) && m[k] == f.Get(k);
    }
    assert ReadableFields(f) ==> forall k: Key :: !Overridden(own, f, k) <==> m[k] == f.Get(k);
  }

  // ----- Checking --------------------------------------------------------------------------------------

  /** `^[A-Z]{3,}\s*:` -- a role that reads like a field. */
  predicate FieldShaped(role: string) {
    var j := SkipUpper(role, 0);
    var k := SkipSpace(role, j);
    j >= 3 && k < |role| && role[k] == ':'
  }

  predicate AcceptableRole(role: string) {
    role != "" && role != "(untitled)" && !FieldShaped(role)
  }

  /** The role is refused when empty, untitled, or three or more capitals, perhaps blanks, and a colon lead it. */
  lemma AcceptableRoleIff(role: string)
    ensures AcceptableRole(role) <==>
            role != "" && role != "(untitled)" &&
            !exists a, b, rest :: role == a + b + ":" + rest && |a| >= 3 && AllUpper(a) && AllSpace(b)
  {
    if FieldShaped(role) {
      var j := SkipUpper(role, 0);
      var k := SkipSpace(role, j);
      var a, b, rest := role[..j], role[j..k], role[k + 1..];
      assert role == a + b + ":" + rest && |a| >= 3 && AllUpper(a) && AllSpace(b);
    }
    if a, b, rest :| role == a + b + ":" + rest && |a| >= 3 && AllUpper(a) && AllSpace(b) {
      ShapedRole(role, a, b, rest);
    }
  }

  predicate AllUpper(s: string) {
    forall c :: c in s ==> IsUpper(c)
  }

  lemma {:induction false} ShapedRole(role: string, a: string, b: string, rest: string)
    requires role == a + b + ":" + rest && |a| >= 3 && AllUpper(a) && AllSpace(b)
    ensures FieldShaped(role)
  {
    var j, k := |a|, |a| + |b|;
    forall m | 0 <= m < j ensures role[m] in a {
      assert role[m] == a[m];
    }
    forall m | j <= m < k ensures role[m] in b {
      assert role[m] == b[m - j];
    }
    assert role[j] == if b == "" then ':' else b[0];
    assert role[k] == ':';
    SkipUpperTo(role, 0, j);
    SkipSpaceTo(role, j, k);
  }

  predicate Acceptable(k: Key, got: string, want: Fields) {
    if k == Role then AcceptableRole(got) else got == want.Get(k)
  }

  /** The keys `check` complains about: the role is judged by its shape, the others by comparison. */
  function Complaints(got: map<Key, string>, want: Fields): set<Key>
    requires HasKeys(got)
  {
    set k: Key | !Acceptable(k, got[k], want)
  }

  /** The file's block parses and draws no complaint. */
  predicate Clean(file: string, want: Fields) {
    var parsed := ParsedFile(file);
    parsed.Ok? && Complaints(parsed.value, want) == {}
  }

  lemma NoComplaintsIff(got: map<Key, string>, want: Fields)
    requires HasKeys(got)
    ensures Complaints(got, want) == {} <==> forall k: Key :: Acceptable(k, got[k], want)
  {
    assert forall k: Key :: k !in Complaints(got, want) <==> Acceptable(k, got[k], want);
  }

  /** The role that would be derived afresh plays no part in the check. */
  lemma ComplaintsIgnoreRole(got: map<Key, string>, base: Fields, was: string, now: string)
    requires HasKeys(got)
    ensures Complaints(got, base.(role := was)) == Complaints(got, base.(role := now))
  {
    forall k: Key ensures Acceptable(k, got[k], base.(role := was)) == Acceptable(k, got[k], base.(role := now)) {
      assert k != Role ==> base.(role := was).Get(k) == base.(role := now).Get(k);
    }
  }

  lemma {:induction false} NoComplaintsInForce(got: map<Key, string>, own: map<Key, string>, said: map<Key, string>,
                                               f: Fields)
    requires HasKeys(got) && HasKeys(said) && forall k: Key :: got[k] == InForce(own, said, k)
    ensures Complaints(got, f) == {} <==>
            (forall k: Key :: k != Role ==> InForce(own, said, k) == f.Get(k)) &&
            AcceptableRole(InForce(own, said, Role))
  {
    NoComplaintsIff(got, f);
    assert Acceptable(Role, got[Role], f) <==> AcceptableRole(InForce(own, said, Role));
    assert forall k: Key :: k != Role ==> (Acceptable(k, got[k], f) <==> InForce(own, said, k) == f.Get(k));
  }

  lemma {:induction false} CleanWhenInForce(base: Fields, file: string, tag: string -> bool, f: Fields,
                                            own: map<Key, string>)
    requires PlainFields(base) && f == Derive(base, file, tag) && Install(file, f).Ok?
    requires Own(Read(file).lines).Ok? && own == OwnSaid(file) && HasKeys(Said(f))
    ensures var g := Install(file, f).value;
            Clean(g, Derive(base, g, tag)) <==>
              (forall k: Key :: k != Role ==> InForce(own, Said(f), k) == f.Get(k)) &&
              AcceptableRole(InForce(own, Said(f), Role))
  {
    DerivedIsPlain(base, file, tag);
    ParsedInstalled(file, f);
    var g := Install(file, f).value;
    var got := ParsedFile(g).value;
    NoComplaintsInForce(got, own, Said(f), f);
    ComplaintsIgnoreRole(got, base, RoleOf(FileLines(file), tag), RoleOf(FileLines(g), tag));
  }

  lemma {:induction false} InForceUnlessOverridden(own: map<Key, string>, f: Fields)
    requires HasKeys(Said(f)) && Says(Said(f), f)
    ensures forall k: Key :: !Overridden(own, f, k) <==> InForce(own, Said(f), k) == f.Get(k)
    ensures InForce(own, Said(f), Role) == if Role in own then own[Role] else f.role
  {
    assert Said(f)[Role] == f.Get(Role);
  }

  /**
   Right after installing the derived fields the check is clean exactly when block and own lines together say
   the derived values under all other keys, and say an acceptable role. If all derived values are readable,
   that is: the own lines override none of the other keys, and the role in force is acceptable.
   */
  lemma {:induction false} CheckCleanAfterInstallIff(base: Fields, file: string, tag: string -> bool, f: Fields,
                                                     own: map<Key, string>)
    requires PlainFields(base) && f == Derive(base, file, tag) && Install(file, f).Ok?
    requires Own(Read(file).lines).Ok? && own == OwnSaid(file)
    ensures HasKeys(Said(f))
    ensures var g := Install(file, f).value;
            Clean(g, Derive(base, g, tag)) <==>
              (forall k: Key :: k != Role ==> InForce(own, Said(f), k) == f.Get(k)) &&
              AcceptableRole(InForce(own, Said(f), Role))
    ensures var g := Install(file, f).value;
            ReadableFields(f) ==>
              (Clean(g, Derive(base, g, tag)) <==>
                (forall k: Key :: k != Role ==> !Overridden(own, f, k)) &&
                AcceptableRole(if Role in own then own[Role] else f.role))
  {
    RenderedParses(f);
    CleanWhenInForce(base, file, tag, f, own);
    if ReadableFields(f) {
      InForceUnlessOverridden(own, f);
    }
  }
}
