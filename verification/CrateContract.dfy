/**
 The crate contract header: printing it, installing it at the top of a source file, and removing it.

 A file is its characters; a byte order mark is the character U+FEFF. Installing replaces the block a file
 already has and otherwise changes nothing but what precedes the first line.
 */
module CrateContract {
  import opened Prelude
  import opened TextLines

  const BEGIN := "CRATE-CONTRACT BEGIN"
  const END := "CRATE-CONTRACT END"
  const KEY_WIDTH := 9
  const BOM := '\U{FEFF}'

  datatype Key = Layer | Role | Backend | Producers | Consumers | Maturity

  const KEYS: seq<Key> := [Layer, Role, Backend, Producers, Consumers, Maturity]

  function Name(k: Key): string {
    match k
    case Layer => "LAYER"
    case Role => "ROLE"
    case Backend => "BACKEND"
    case Producers => "PRODUCERS"
    case Consumers => "CONSUMERS"
    case Maturity => "MATURITY"
  }

  datatype Fields = Fields(
    layer: string, role: string, backend: string, producers: string, consumers: string, maturity: string)
  {
    function Get(k: Key): string {
      match k
      case Layer => layer
      case Role => role
      case Backend => backend
      case Producers => producers
      case Consumers => consumers
      case Maturity => maturity
    }
  }

  // ----- Printing -----------------------------------------------------------------------------------

  function Blanks(n: nat): string {
    seq(n, _ => ' ')
  }

  /** "//! KEY:" padded to the key width, and one blank. */
  function FieldPrefix(name: string): string {
    "//! " + name + ":" + Blanks(if |name| + 1 < KEY_WIDTH then KEY_WIDTH - |name| - 1 else 0) + " "
  }

  function FieldLine(name: string, value: string): string {
    FieldPrefix(name) + value
  }

  function FieldLines(f: Fields, n: nat): seq<string>
    requires n <= |KEYS|
  {
    if n == 0 then [] else FieldLines(f, n - 1) + [FieldLine(Name(KEYS[n - 1]), f.Get(KEYS[n - 1]))]
  }

  function Render(f: Fields): seq<string> {
    ["//! " + BEGIN] + FieldLines(f, |KEYS|) + ["//! " + END]
  }

  /** The block as it stands in a file: six aligned rows between the two markers. */
  lemma RenderedText(f: Fields)
    ensures Render(f) == ["//! CRATE-CONTRACT BEGIN",
                          "//! LAYER:    " + f.layer,
                          "//! ROLE:     " + f.role,
                          "//! BACKEND:  " + f.backend,
                          "//! PRODUCERS: " + f.producers,
                          "//! CONSUMERS: " + f.consumers,
                          "//! MATURITY: " + f.maturity,
                          "//! CRATE-CONTRACT END"]
  {
    PrefixText();
    MarkerText();
    RenderedFrom(f, "//! LAYER:    " + f.layer, "//! ROLE:     " + f.role, "//! BACKEND:  " + f.backend,
                 "//! PRODUCERS: " + f.producers, "//! CONSUMERS: " + f.consumers, "//! MATURITY: " + f.maturity);
  }

  lemma MarkerText()
    ensures "//! " + BEGIN == "//! CRATE-CONTRACT BEGIN" && "//! " + END == "//! CRATE-CONTRACT END"
  {
  }

  lemma RenderedFrom(f: Fields, a: string, b: string, c: string, d: string, e: string, g: string)
    requires a == FieldLine("LAYER", f.layer) && b == FieldLine("ROLE", f.role)
    requires c == FieldLine("BACKEND", f.backend) && d == FieldLine("PRODUCERS", f.producers)
    requires e == FieldLine("CONSUMERS", f.consumers) && g == FieldLine("MATURITY", f.maturity)
    ensures Render(f) == ["//! " + BEGIN, a, b, c, d, e, g, "//! " + END]
  {
    RowsInOrder(f);
    Bracketed("//! " + BEGIN, a, b, c, d, e, g, "//! " + END);
  }

  lemma Bracketed(x: string, a: string, b: string, c: string, d: string, e: string, f: string, y: string)
    ensures [x] + [a, b, c, d, e, f] + [y] == [x, a, b, c, d, e, f, y]
  {
  }

  lemma RowsInOrder(f: Fields)
    ensures FieldLines(f, 6) == [FieldLine("LAYER", f.layer), FieldLine("ROLE", f.role),
                                 FieldLine("BACKEND", f.backend), FieldLine("PRODUCERS", f.producers),
                                 FieldLine("CONSUMERS", f.consumers), FieldLine("MATURITY", f.maturity)]
  {
    assert FieldLines(f, 1) == [FieldLine("LAYER", f.layer)];
    assert FieldLines(f, 2) == FieldLines(f, 1) + [FieldLine("ROLE", f.role)];
    assert FieldLines(f, 3) == FieldLines(f, 2) + [FieldLine("BACKEND", f.backend)];
    assert FieldLines(f, 4) == FieldLines(f, 3) + [FieldLine("PRODUCERS", f.producers)];
    assert FieldLines(f, 5) == FieldLines(f, 4) + [FieldLine("CONSUMERS", f.consumers)];
    assert FieldLines(f, 6) == FieldLines(f, 5) + [FieldLine("MATURITY", f.maturity)];
  }

  lemma PrefixText()
    ensures FieldPrefix("LAYER") == "//! LAYER:    " && FieldPrefix("ROLE") == "//! ROLE:     "
    ensures FieldPrefix("BACKEND") == "//! BACKEND:  " && FieldPrefix("PRODUCERS") == "//! PRODUCERS: "
    ensures FieldPrefix("CONSUMERS") == "//! CONSUMERS: " && FieldPrefix("MATURITY") == "//! MATURITY: "
  {
  }

  // ----- Files as lines -------------------------------------------------------------------------------

  datatype Doc = Doc(bom: bool, eol: string, lines: seq<string>)

  function TextOf(file: string): string {
    if file != "" && file[0] == BOM then file[1..] else file
  }

  function Read(file: string): Doc {
    var eol := EolOf(TextOf(file));
    Doc(file != "" && file[0] == BOM, eol, SplitOn(TextOf(file), eol))
  }

  function Write(d: Doc): string {
    (if d.bom then [BOM] else "") + Join(d.lines, d.eol)
  }

  /** The documents that reading a file can produce. */
  predicate WellFormed(d: Doc) {
    && IsEol(d.eol) && d.lines != []
    && (forall l :: l in d.lines ==> Unbroken(l, d.eol))
    && (d.eol == "\n" ==> NewlineLines(d.lines))
    && (d.eol == "\r\n" ==> |d.lines| > 1)
    && (!d.bom ==> Join(d.lines, d.eol) == "" || Join(d.lines, d.eol)[0] != BOM)
  }

  lemma {:induction false} SeveralPieces(t: string)
    requires Contains(t, "\r\n")
    ensures |SplitOn(t, "\r\n")| > 1
    decreases |t|
  {
    var k :| 0 <= k <= |t| && "\r\n" <= t[k..];
    if !("\r\n" <= t) {
      assert t[0..] == t;
      assert t[1..][k - 1..] == t[k..];
      SeveralPieces(t[1..]);
    }
  }

  lemma ReadIsWellFormed(file: string)
    ensures WellFormed(Read(file)) && Write(Read(file)) == file
  {
    var text := TextOf(file);
    var eol := EolOf(text);
    var lines := SplitOn(text, eol);
    SplitPiecesUnbroken(text, eol);
    JoinSplit(text, eol);
    if eol == "\n" {
      SplitOfNoCrLf(text);
    } else {
      SeveralPieces(text);
    }
    forall l | l in lines ensures Unbroken(l, eol) {
    }
    assert file != "" ==> [file[0]] + file[1..] == file;
  }

  lemma JoinCrLf(lines: seq<string>)
    requires |lines| > 1
    ensures Contains(Join(lines, "\r\n"), "\r\n")
  {
    var text := Join(lines, "\r\n");
    assert text[|lines[0]|..] == "\r\n" + Join(lines[1..], "\r\n");
  }

  /** Reading and writing are inverse on the documents files have: nothing is normalised on the way. */
  lemma ReadWrite(d: Doc)
    requires WellFormed(d)
    ensures Read(Write(d)) == d
  {
    var text := Join(d.lines, d.eol);
    assert d.bom ==> ([BOM] + text)[1..] == text;
    assert !d.bom ==> "" + text == text;
    if d.eol == "\n" {
      JoinHasNoCrLf(d.lines);
    } else {
      JoinCrLf(d.lines);
    }
    SplitJoin(d.lines, d.eol);
  }

  // ----- Installing -----------------------------------------------------------------------------------

  /** The indices of the lines that contain the marker. */
  function IndicesOf(lines: seq<string>, marker: string): seq<nat> {
    if lines == [] then []
    else
      var n := |lines| - 1;
      if Contains(lines[n], marker) then IndicesOf(lines[..n], marker) + [n] else IndicesOf(lines[..n], marker)
  }

  datatype Problem = UnbalancedMarkers

  /** Lines outside the block from line b to line e; an end before its begin encloses nothing. */
  function Outside(lines: seq<string>, b: nat, e: nat): seq<string>
    requires b < |lines| && e < |lines|
  {
    if b <= e then lines[..b] + lines[e + 1..] else lines
  }

  lemma {:induction false} IndicesInRange(lines: seq<string>, marker: string)
    ensures forall i :: i in IndicesOf(lines, marker) ==> i < |lines| && Contains(lines[i], marker)
    ensures forall i :: 0 <= i < |lines| && Contains(lines[i], marker) ==> i in IndicesOf(lines, marker)
  {
    if lines != [] {
      IndicesInRange(lines[..|lines| - 1], marker);
    }
  }

  /** Both markers once each enclose a block; neither marker means there is none. */
  function Cut(lines: seq<string>, b: seq<nat>, e: seq<nat>): Result<seq<string>, Problem>
    requires forall i :: i in b || i in e ==> i < |lines|
  {
    if |b| > 1 || |e| > 1 || |b| != |e| then Err(UnbalancedMarkers)
    else if b == [] then Ok(lines)
    else
      assert b[0] in b && e[0] in e;
      Ok(Outside(lines, b[0], e[0]))
  }

  lemma CutOne(lines: seq<string>, b: nat, e: nat)
    requires b <= e < |lines|
    ensures Cut(lines, [b], [e]) == Ok(lines[..b] + lines[e + 1..])
  {
  }

  /** The file's own lines: all but an installed block. */
  function Own(lines: seq<string>): Result<seq<string>, Problem> {
    var b, e := IndicesOf(lines, BEGIN), IndicesOf(lines, END);
    IndicesInRange(lines, BEGIN);
    IndicesInRange(lines, END);
    Cut(lines, b, e)
  }

  function InstallDoc(d: Doc, f: Fields): Result<Doc, Problem> {
    match Own(d.lines)
    case Err(p) => Err(p)
    case Ok(own) => Ok(d.(lines := Render(f) + own))
  }

  function Install(file: string, f: Fields): Result<string, Problem> {
    match InstallDoc(Read(file), f)
    case Err(p) => Err(p)
    case Ok(d) => Ok(Write(d))
  }

  /** Deleting the block. */
  function Uninstall(file: string): Result<string, Problem> {
    match Own(Read(file).lines)
    case Err(p) => Err(p)
    case Ok(own) => Ok(Write(Read(file).(lines := own)))
  }

  /** A block whose end precedes its begin: balanced in number, but enclosing nothing. */
  predicate Misordered(lines: seq<string>) {
    var b, e := IndicesOf(lines, BEGIN), IndicesOf(lines, END);
    |b| == 1 && |e| == 1 && e[0] < b[0]
  }

  // ----- Rendered lines ---------------------------------------------------------------------------------

  /** A value that fits on its line: no line break, and not itself a marker. */
  predicate Plain(value: string) {
    NoBreaks(value) && !Contains(value, BEGIN) && !Contains(value, END)
  }

  predicate PlainFields(f: Fields) {
    forall k: Key :: Plain(f.Get(k))
  }

  lemma NameFacts(k: Key)
    ensures 4 <= |Name(k)| <= 9 && forall i :: 0 <= i < |Name(k)| ==> 'A' <= Name(k)[i] <= 'Z'
  {
  }

  lemma PrefixFacts(name: string)
    requires forall i :: 0 <= i < |name| ==> 'A' <= name[i] <= 'Z'
    ensures var p := FieldPrefix(name);
            |p| > 0 && p[|p| - 1] == ' ' && NoBreaks(p) && forall c :: c in p ==> c != '-'
  {
  }

  /** A word with its first dash at column 5 cannot straddle a dash-free prefix that ends in a blank. */
  lemma NoStraddle(p: string, value: string, marker: string)
    requires |p| > 0 && p[|p| - 1] == ' ' && forall c :: c in p ==> c != '-'
    requires |marker| > 5 && marker[5] == '-' && forall j :: 0 <= j < 5 ==> marker[j] != ' '
    requires Contains(p + value, marker)
    ensures Contains(value, marker)
  {
    var l := p + value;
    var k :| 0 <= k <= |l| && marker <= l[k..];
    NotInPrefix(p, value, marker, k);
    assert l[k..] == value[k - |p|..];
  }

  lemma NotInPrefix(p: string, value: string, marker: string, k: nat)
    requires |p| > 0 && p[|p| - 1] == ' ' && forall c :: c in p ==> c != '-'
    requires |marker| > 5 && marker[5] == '-' && forall j :: 0 <= j < 5 ==> marker[j] != ' '
    requires k <= |p + value|
    ensures marker <= (p + value)[k..] ==> k >= |p|
  {
    var tail := (p + value)[k..];
    if k + 5 < |p| {
      assert tail[5] == p[k + 5] && p[k + 5] in p;
    } else if k < |p| {
      assert tail[|p| - 1 - k] == ' ';
    }
  }

  lemma MarkerShape()
    ensures |BEGIN| == 20 && BEGIN[5] == '-' && forall j :: 0 <= j < 5 ==> BEGIN[j] != ' '
    ensures |END| == 18 && END[5] == '-' && forall j :: 0 <= j < 5 ==> END[j] != ' '
    ensures forall j :: 0 <= j < 20 && j != 5 ==> BEGIN[j] != '-'
    ensures BEGIN[15] != END[15]
  {
  }

  lemma NoMarkerInField(k: Key, value: string)
    requires Plain(value)
    ensures !Contains(FieldLine(Name(k), value), BEGIN) && !Contains(FieldLine(Name(k), value), END)
    ensures NoBreaks(FieldLine(Name(k), value))
  {
    NameFacts(k);
    PrefixFacts(Name(k));
    MarkerShape();
    if Contains(FieldLine(Name(k), value), BEGIN) {
      NoStraddle(FieldPrefix(Name(k)), value, BEGIN);
    }
    if Contains(FieldLine(Name(k), value), END) {
      NoStraddle(FieldPrefix(Name(k)), value, END);
    }
  }

  lemma MarkersDiffer()
    ensures !Contains(BEGIN, END) && !Contains(END, BEGIN)
  {
    MarkerShape();
    forall k | 0 <= k <= |BEGIN| ensures !(END <= BEGIN[k..]) {
      if 0 < k <= 2 {
        assert BEGIN[k..][5] == BEGIN[k + 5];
      } else if k == 0 {
        assert BEGIN[k..][15] == BEGIN[15];
      }
    }
  }

  lemma MarkerLine(m: string, other: string)
    requires NoBreaks(m) && !Contains(m, other)
    requires |other| > 5 && other[5] == '-' && forall j :: 0 <= j < 5 ==> other[j] != ' '
    ensures Contains("//! " + m, m) && !Contains("//! " + m, other) && NoBreaks("//! " + m)
  {
    var p := "//! ";
    assert (p + m)[4..] == m;
    if Contains(p + m, other) {
      NoStraddle(p, m, other);
    }
  }

  lemma MarkerLines()
    ensures Contains("//! " + BEGIN, BEGIN) && !Contains("//! " + BEGIN, END)
    ensures Contains("//! " + END, END) && !Contains("//! " + END, BEGIN)
    ensures NoBreaks("//! " + BEGIN) && NoBreaks("//! " + END)
  {
    MarkerShape();
    MarkersDiffer();
    MarkerLine(BEGIN, END);
    MarkerLine(END, BEGIN);
  }

  // ----- What installing does ---------------------------------------------------------------------------

  lemma {:induction false} FieldLinesAreClean(f: Fields, n: nat)
    requires n <= |KEYS| && PlainFields(f)
    ensures |FieldLines(f, n)| == n
    ensures forall l :: l in FieldLines(f, n) ==> NoBreaks(l) && !Contains(l, BEGIN) && !Contains(l, END)
  {
    if n > 0 {
      FieldLinesAreClean(f, n - 1);
      NoMarkerInField(KEYS[n - 1], f.Get(KEYS[n - 1]));
    }
  }

  lemma {:induction false} NoIndices(lines: seq<string>, marker: string)
    requires forall l :: l in lines ==> !Contains(l, marker)
    ensures IndicesOf(lines, marker) == []
  {
    if lines != [] {
      NoIndices(lines[..|lines| - 1], marker);
    }
  }

  /** Line i and no other contains the marker. */
  predicate OnlyLine(lines: seq<string>, marker: string, i: nat) {
    i < |lines| && forall k :: 0 <= k < |lines| ==> (Contains(lines[k], marker) <==> k == i)
  }

  lemma {:induction false} OnlyLineIff(lines: seq<string>, marker: string, i: nat)
    ensures OnlyLine(lines, marker, i) <==> IndicesOf(lines, marker) == [i]
  {
    IndicesInRange(lines, marker);
    if OnlyLine(lines, marker, i) {
      var n := |lines| - 1;
      if i == n {
        forall l | l in lines[..n] ensures !Contains(l, marker) {
          var k :| 0 <= k < n && lines[k] == l;
        }
        NoIndices(lines[..n], marker);
      } else {
        OnlyLineIff(lines[..n], marker, i);
      }
    }
    if IndicesOf(lines, marker) == [i] {
      assert i in IndicesOf(lines, marker);
    }
  }

  /** A file is accepted exactly when it holds no marker at all, or each marker on exactly one line. */
  lemma {:induction false} InstallAcceptsIff(file: string, f: Fields)
    ensures var lines := Read(file).lines;
            Install(file, f).Ok? <==>
            (forall l :: l in lines ==> !Contains(l, BEGIN) && !Contains(l, END)) ||
            exists b: nat, e: nat :: OnlyLine(lines, BEGIN, b) && OnlyLine(lines, END, e)
  {
    var lines := Read(file).lines;
    var b, e := IndicesOf(lines, BEGIN), IndicesOf(lines, END);
    NoneIff(lines, BEGIN);
    NoneIff(lines, END);
    if |b| == 1 && |e| == 1 {
      OnlyLineIff(lines, BEGIN, b[0]);
      OnlyLineIff(lines, END, e[0]);
    }
    if x: nat, y: nat :| OnlyLine(lines, BEGIN, x) && OnlyLine(lines, END, y) {
      OnlyLineIff(lines, BEGIN, x);
      OnlyLineIff(lines, END, y);
    }
  }

  lemma {:induction false} NoneIff(lines: seq<string>, marker: string)
    ensures IndicesOf(lines, marker) == [] <==> forall l :: l in lines ==> !Contains(l, marker)
  {
    IndicesInRange(lines, marker);
    if forall l :: l in lines ==> !Contains(l, marker) {
      NoIndices(lines, marker);
    } else {
      var l :| l in lines && Contains(l, marker);
      var k :| 0 <= k < |lines| && lines[k] == l;
      assert k in IndicesOf(lines, marker);
    }
  }

  function Shift(indices: seq<nat>, offset: nat): seq<nat> {
    seq(|indices|, i requires 0 <= i < |indices| => indices[i] + offset)
  }

  lemma {:induction false} IndicesConcat(a: seq<string>, b: seq<string>, marker: string)
    ensures IndicesOf(a + b, marker) == IndicesOf(a, marker) + Shift(IndicesOf(b, marker), |a|)
    decreases |b|
  {
    if b == [] {
      assert a + b == a;
    } else {
      var n := |b| - 1;
      IndicesConcat(a, b[..n], marker);
      assert (a + b)[..|a| + n] == a + b[..n];
    }
  }

  lemma OneLineIndices(l: string, marker: string)
    ensures IndicesOf([l], marker) == if Contains(l, marker) then [0] else []
  {
    assert [l][..0] == [];
  }

  /** Between its first and its last line the block has no marker. */
  lemma BracketIndices(first: string, mid: seq<string>, last: string, marker: string)
    requires forall l :: l in mid ==> !Contains(l, marker)
    requires Contains(first, marker) != Contains(last, marker)
    ensures IndicesOf([first] + mid + [last], marker) == if Contains(first, marker) then [0] else [|mid| + 1]
  {
    NoIndices(mid, marker);
    OneLineIndices(first, marker);
    OneLineIndices(last, marker);
    IndicesConcat([first], mid, marker);
    IndicesConcat([first] + mid, [last], marker);
  }

  /** The rendered block has its one begin first and its one end last. */
  lemma RenderedIndices(f: Fields)
    requires PlainFields(f)
    ensures |Render(f)| == |KEYS| + 2
    ensures IndicesOf(Render(f), BEGIN) == [0] && IndicesOf(Render(f), END) == [|KEYS| + 1]
    ensures forall l :: l in Render(f) ==> NoBreaks(l)
  {
    MarkerLines();
    FieldLinesAreClean(f, |KEYS|);
    BracketIndices("//! " + BEGIN, FieldLines(f, |KEYS|), "//! " + END, BEGIN);
    BracketIndices("//! " + BEGIN, FieldLines(f, |KEYS|), "//! " + END, END);
  }

  /** What is left of a balanced, well-ordered file has no marker. */
  lemma OwnHasNoMarkers(lines: seq<string>)
    requires Own(lines).Ok? && !Misordered(lines)
    ensures IndicesOf(Own(lines).value, BEGIN) == [] && IndicesOf(Own(lines).value, END) == []
  {
    var b, e := IndicesOf(lines, BEGIN), IndicesOf(lines, END);
    IndicesInRange(lines, BEGIN);
    IndicesInRange(lines, END);
    if b != [] {
      assert b == [b[0]] && e == [e[0]] && b[0] in b && e[0] in e;
      forall l | l in Own(lines).value ensures !Contains(l, BEGIN) && !Contains(l, END) {
        var i :| 0 <= i < |Own(lines).value| && Own(lines).value[i] == l;
        var j := if i < b[0] then i else i + e[0] + 1 - b[0];
        assert lines[j] == l && j !in b && j !in e;
      }
      NoIndices(Own(lines).value, BEGIN);
      NoIndices(Own(lines).value, END);
    }
  }

  lemma OwnOfBlock(lines: seq<string>, b: nat, e: nat)
    requires IndicesOf(lines, BEGIN) == [b] && IndicesOf(lines, END) == [e] && b <= e < |lines|
    ensures Own(lines) == Ok(lines[..b] + lines[e + 1..])
  {
    CutOne(lines, b, e);
  }

  lemma RenderedThenOwnIndices(f: Fields, own: seq<string>)
    requires PlainFields(f)
    ensures IndicesOf(Render(f) + own, BEGIN) == [0] + Shift(IndicesOf(own, BEGIN), |KEYS| + 2)
    ensures IndicesOf(Render(f) + own, END) == [|KEYS| + 1] + Shift(IndicesOf(own, END), |KEYS| + 2)
  {
    RenderedIndices(f);
    IndicesConcat(Render(f), own, BEGIN);
    IndicesConcat(Render(f), own, END);
  }

  /** Removing the block from freshly rendered lines gives back what it was put before. */
  lemma OwnOfRendered(f: Fields, own: seq<string>)
    requires PlainFields(f) && IndicesOf(own, BEGIN) == [] && IndicesOf(own, END) == []
    ensures Own(Render(f) + own) == Ok(own)
  {
    RenderedIndices(f);
    RenderedThenOwnIndices(f, own);
    var lines := Render(f) + own;
    OwnOfBlock(lines, 0, |KEYS| + 1);
    assert lines[|KEYS| + 2..] == own && lines[..0] + own == own;
  }

  lemma MisorderedStaysUnbalanced(f: Fields, lines: seq<string>)
    requires PlainFields(f) && Misordered(lines)
    ensures Own(lines) == Ok(lines) && Own(Render(f) + lines) == Err(UnbalancedMarkers)
  {
    RenderedThenOwnIndices(f, lines);
  }

  lemma {:induction false} PlainLineUnbroken(l: string, eol: string)
    requires IsEol(eol) && NoBreaks(l)
    ensures Unbroken(l, eol)
  {
    forall k | 0 <= k < |l| ensures !(eol <= l[k..]) {
      assert l[k] in l && (l[k..] != "" ==> l[k..][0] == l[k]);
    }
  }

  /** The file's own lines are lines of the file, its last line last. */
  lemma OwnLines(lines: seq<string>)
    requires Own(lines).Ok?
    ensures forall l :: l in Own(lines).value ==> l in lines
    ensures NewlineLines(lines) ==> NewlineLines(Own(lines).value)
  {
    IndicesInRange(lines, BEGIN);
    IndicesInRange(lines, END);
    var b, e := IndicesOf(lines, BEGIN), IndicesOf(lines, END);
    if b != [] && b[0] <= e[0] {
      assert b[0] in b && e[0] in e;
      OutsideNewlineLines(lines, b[0], e[0]);
    }
  }

  lemma OutsideNewlineLines(lines: seq<string>, b: nat, e: nat)
    requires b <= e < |lines|
    ensures NewlineLines(lines) ==> NewlineLines(lines[..b] + lines[e + 1..])
  {
    var own := lines[..b] + lines[e + 1..];
    forall i | 0 <= i < |own| ensures own[i] == lines[if i < b then i else i + e + 1 - b] {
    }
  }

  lemma NewlineLinesConcat(a: seq<string>, b: seq<string>)
    requires (forall l :: l in a ==> NoBreaks(l)) && NewlineLines(b)
    ensures NewlineLines(a + b)
  {
    forall i | 0 <= i < |a + b|
      ensures '\n' !in (a + b)[i]
      ensures i < |a + b| - 1 ==> (a + b)[i] == "" || (a + b)[i][|(a + b)[i]| - 1] != '\r'
    {
      var l := (a + b)[i];
      if i < |a| {
        assert l in a && (l != "" ==> l[|l| - 1] in l);
      } else {
        assert l == b[i - |a|];
      }
    }
  }

  /** Installing keeps the shape of the file: BOM first, the same line ending, no stray break. */
  lemma InstallKeepsShape(d: Doc, f: Fields)
    requires WellFormed(d) && PlainFields(f) && InstallDoc(d, f).Ok?
    ensures WellFormed(InstallDoc(d, f).value)
  {
    RenderedIndices(f);
    OwnLines(d.lines);
    var own, r := Own(d.lines).value, Render(f);
    forall l | l in r + own ensures Unbroken(l, d.eol) {
      if l in r {
        PlainLineUnbroken(l, d.eol);
      }
    }
    if d.eol == "\n" {
      NewlineLinesConcat(r, own);
    }
    assert Join(r + own, d.eol)[0] == (r + own)[0][0] == '/';
  }

  // ----- Over whole files -------------------------------------------------------------------------------

  /**
   The installed file: the same BOM and line ending, the rendered block, then the file's own lines,
   character for character.
   */
  lemma InstalledFile(file: string, f: Fields)
    requires PlainFields(f) && Install(file, f).Ok?
    ensures var d, g := Read(file), Read(Install(file, f).value);
            Own(d.lines).Ok? && g == d.(lines := Render(f) + Own(d.lines).value)
  {
    ReadIsWellFormed(file);
    InstallKeepsShape(Read(file), f);
    ReadWrite(InstallDoc(Read(file), f).value);
  }

  /**
   Installing twice is installing once, on every file the first install accepts except those whose end
   marker precedes the begin marker: there the second install fails on two blocks.
   */
  lemma InstallIsIdempotentIff(file: string, f: Fields)
    requires PlainFields(f) && Install(file, f).Ok?
    ensures Install(Install(file, f).value, f) == Install(file, f) <==> !Misordered(Read(file).lines)
    ensures Misordered(Read(file).lines) ==> Install(Install(file, f).value, f) == Err(UnbalancedMarkers)
  {
    InstalledFile(file, f);
    var d := Read(file);
    if Misordered(d.lines) {
      MisorderedStaysUnbalanced(f, d.lines);
    } else {
      OwnHasNoMarkers(d.lines);
      OwnOfRendered(f, Own(d.lines).value);
    }
  }

  /** Refreshing with other fields leaves no trace of the first block. */
  lemma RefreshForgetsOldFields(file: string, f: Fields, g: Fields)
    requires PlainFields(f) && PlainFields(g) && Install(file, f).Ok? && !Misordered(Read(file).lines)
    ensures Install(Install(file, f).value, g) == Install(file, g)
  {
    InstalledFile(file, f);
    OwnHasNoMarkers(Read(file).lines);
    OwnOfRendered(f, Own(Read(file).lines).value);
  }

  /** Deleting the installed block undoes the installation: a file without a block is restored exactly. */
  lemma UninstallUndoesInstall(file: string, f: Fields)
    requires PlainFields(f) && Install(file, f).Ok? && !Misordered(Read(file).lines)
    ensures Uninstall(Install(file, f).value) == Uninstall(file)
    ensures IndicesOf(Read(file).lines, BEGIN) == [] ==> Uninstall(Install(file, f).value) == Ok(file)
  {
    InstalledFile(file, f);
    ReadIsWellFormed(file);
    OwnHasNoMarkers(Read(file).lines);
    OwnOfRendered(f, Own(Read(file).lines).value);
  }
}
