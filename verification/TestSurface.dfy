/**
 The test surface gate: which test sources Cargo would compile, found by a worklist over `mod` and
 `#[path]` declarations, and a registry that must name every silenced test file and nothing else.
 Paths are relative to the repository root and use forward slashes.
 */
module TestSurface {
  import opened Prelude
  import opened Graphs

  type Path = Node

  /** What the scanner reads in one source file. */
  datatype Body = Body(mods: seq<string>, attrs: seq<string>, muted: bool)

  /** The files on disk, the readable ones with their text, and path normalisation. */
  datatype Tree = Tree(files: set<Path>, bodies: map<Path, Body>, norm: Path -> Path)

  // ----- Targets ----------------------------------------------------------------------------------

  /** One `[[test]]` table; only one with a path makes a target here. */
  datatype Entry = Entry(name: Option<string>, path: Option<Path>)

  const NAMELESS := "?"

  function NameOf(e: Entry): string {
    if e.name.Some? then e.name.value else NAMELESS
  }

  function WithoutDot(p: Path): Path {
    if |p| >= 2 && p[0] == '.' && p[1] == '/' then p[2..] else p
  }

  /** The dictionary of declared targets: of two tables with one name the later wins. */
  function Declared(entries: seq<Entry>): map<string, Path> {
    if entries == [] then map[] else
    var before, e := Declared(entries[..|entries| - 1]), entries[|entries| - 1];
    if e.path.Some? then before[NameOf(e) := WithoutDot(e.path.value)] else before
  }

  predicate IsRust(file: string) {
    |file| >= 3 && file[|file| - 3..] == ".rs"
  }

  function InTests(file: string): Path {
    "tests/" + file
  }

  /** A top-level test file no table declares becomes the target named by its stem. */
  predicate Discovered(entries: seq<Entry>, listing: seq<string>, name: string) {
    name + ".rs" in listing && InTests(name + ".rs") !in Declared(entries).Values
  }

  ghost predicate IsTargets(entries: seq<Entry>, listing: seq<string>, targets: map<string, Path>) {
    && (forall k :: k in targets <==> Discovered(entries, listing, k) || k in Declared(entries))
    && (forall k :: k in targets ==>
          targets[k] == if Discovered(entries, listing, k) then InTests(k + ".rs") else Declared(entries)[k])
  }

  lemma StemAndSuffix(file: string)
    requires IsRust(file)
    ensures file[..|file| - 3] + ".rs" == file
  {
  }

  method ParseTargets(entries: seq<Entry>, listing: seq<string>) returns (targets: map<string, Path>)
    ensures IsTargets(entries, listing, targets)
  {
    targets := map[];
    for i := 0 to |entries|
      invariant targets == Declared(entries[..i])
    {
      var e := entries[i];
      assert entries[..i + 1][..i] == entries[..i];
      if e.path.Some? {
        targets := targets[NameOf(e) := WithoutDot(e.path.value)];
      }
    }
    assert entries[..|entries|] == entries;
    var declared := targets.Values;
    for i := 0 to |listing|
      invariant IsTargets(entries, listing[..i], targets)
    {
      targets := Discover(entries, listing, i, targets, declared);
    }
    assert listing[..|listing|] == listing;
  }

  method Discover(entries: seq<Entry>, listing: seq<string>, i: nat, before: map<string, Path>,
                  declared: set<Path>)
    returns (targets: map<string, Path>)
    requires i < |listing| && declared == Declared(entries).Values
    requires IsTargets(entries, listing[..i], before)
    ensures IsTargets(entries, listing[..i + 1], targets)
  {
    var file := listing[i];
    targets := before;
    assert listing[..i + 1] == listing[..i] + [file];
    if IsRust(file) {
      StemAndSuffix(file);
      var stem := file[..|file| - 3];
      if InTests(file) !in declared {
        targets := targets[stem := InTests(file)];
        assert Discovered(entries, listing[..i + 1], stem);
      }
      forall k | k != stem ensures Discovered(entries, listing[..i + 1], k) == Discovered(entries, listing[..i], k) {
        OtherStem(k, stem);
      }
      assert InTests(file) in declared ==> !Discovered(entries, listing[..i + 1], stem);
    } else {
      forall k ensures Discovered(entries, listing[..i + 1], k) == Discovered(entries, listing[..i], k) {
        assert IsRust(k + ".rs");
      }
    }
  }

  lemma OtherStem(k: string, stem: string)
    requires k != stem
    ensures k + ".rs" != stem + ".rs"
  {
    assert (k + ".rs")[..|k|] == k;
    assert (stem + ".rs")[..|stem|] == stem;
    assert |k + ".rs"| == |k| + 3 && |stem + ".rs"| == |stem| + 3;
  }

  /**
   A declared test source stays a target exactly when some table that names it is not displaced by an
   undeclared file of the same stem: a test `foo` declared at `tests/unit/foo.rs` is lost as soon as a
   `tests/foo.rs` exists beside it.
   */
  lemma DeclaredSourceSurvivesIff(entries: seq<Entry>, listing: seq<string>, targets: map<string, Path>, p: Path)
    ensures IsTargets(entries, listing, targets) && p in Declared(entries).Values ==>
              (p in targets.Values <==>
               exists k :: k in Declared(entries) && Declared(entries)[k] == p && !Discovered(entries, listing, k))
  {
    if IsTargets(entries, listing, targets) && p in Declared(entries).Values {
      if p in targets.Values {
        var k :| k in targets && targets[k] == p;
        assert !Discovered(entries, listing, k);
      }
      forall k | k in Declared(entries) && Declared(entries)[k] == p && !Discovered(entries, listing, k)
        ensures p in targets.Values
      {
        assert k in targets && targets[k] == p;
      }
    }
  }

  /** The table's name is `name`; a table without a name counts as "?". */
  predicate Names(e: Entry, name: string) {
    e.name == Some(name) || (e.name == None && name == "?")
  }

  /** The path as it is registered: a leading "./" is dropped, once. */
  predicate Undotted(declared: Path, p: Path) {
    if "./" <= declared then declared == "./" + p else declared == p
  }

  /** Table i gives the name its path, and no later table does. */
  predicate LastTable(entries: seq<Entry>, i: nat, name: string, p: Path)
    requires i < |entries|
  {
    && entries[i].path.Some? && Names(entries[i], name) && Undotted(entries[i].path.value, p)
    && forall j :: i < j < |entries| ==> !(entries[j].path.Some? && Names(entries[j], name))
  }

  lemma UndottedIff(declared: Path, p: Path)
    ensures Undotted(declared, p) <==> WithoutDot(declared) == p
  {
    assert "./" <= declared ==> declared == "./" + declared[2..];
    assert declared == "./" + p ==> declared[2..] == p;
  }

  lemma {:induction false} DeclaredIff(entries: seq<Entry>, name: string, p: Path)
    ensures name in Declared(entries) && Declared(entries)[name] == p <==>
            exists i :: 0 <= i < |entries| && LastTable(entries, i, name, p)
  {
    if entries != [] {
      var n := |entries| - 1;
      var before, e := entries[..n], entries[n];
      DeclaredIff(before, name, p);
      if e.path.Some? && Names(e, name) {
        UndottedIff(e.path.value, p);
        assert LastTable(entries, n, name, p) <==> Undotted(e.path.value, p);
      } else {
        forall i | 0 <= i < n ensures LastTable(entries, i, name, p) <==> LastTable(before, i, name, p) {
          forall j | i < j < n ensures entries[j] == before[j] {
          }
        }
        if i :| 0 <= i < n && LastTable(before, i, name, p) {
          assert LastTable(entries, i, name, p);
        }
        if i :| 0 <= i < |entries| && LastTable(entries, i, name, p) {
          assert i < n && LastTable(before, i, name, p);
        }
      }
    }
  }

  /** No table declares the path, under whatever name. */
  ghost predicate Undeclared(entries: seq<Entry>, p: Path) {
    forall i, name :: 0 <= i < |entries| ==> !LastTable(entries, i, name, p)
  }

  /**
   The dictionary in terms of tables and directory entries: an undeclared `tests/<name>.rs` stands for the name,
   else the last table of that name does.
   */
  lemma {:induction false} TargetsIff(entries: seq<Entry>, listing: seq<string>, targets: map<string, Path>,
                                      name: string, p: Path)
    requires IsTargets(entries, listing, targets)
    ensures var file := "tests/" + name + ".rs";
            name in targets && targets[name] == p <==>
              if name + ".rs" in listing && Undeclared(entries, file) then p == file
              else exists i :: 0 <= i < |entries| && LastTable(entries, i, name, p)
  {
    var file := "tests/" + name + ".rs";
    assert InTests(name + ".rs") == file;
    UndeclaredIff(entries, file);
    DeclaredIff(entries, name, p);
  }

  lemma {:induction false} UndeclaredIff(entries: seq<Entry>, p: Path)
    ensures Undeclared(entries, p) <==> p !in Declared(entries).Values
  {
    forall i, name | 0 <= i < |entries| && LastTable(entries, i, name, p) ensures p in Declared(entries).Values {
      DeclaredIff(entries, name, p);
    }
    if p in Declared(entries).Values {
      var name :| name in Declared(entries) && Declared(entries)[name] == p;
      DeclaredIff(entries, name, p);
    }
  }

  // ----- The module closure -----------------------------------------------------------------------

  /** The prefix of a path up to and including its last slash. */
  function Head(p: Path): Path {
    if p == [] || p[|p| - 1] == '/' then p else Head(p[..|p| - 1])
  }

  function WithoutTrailingSlashes(p: Path): Path {
    if p != [] && p[|p| - 1] == '/' then WithoutTrailingSlashes(p[..|p| - 1]) else p
  }

  function Dirname(p: Path): Path {
    var bare := WithoutTrailingSlashes(Head(p));
    if bare == [] then Head(p) else bare
  }

  /** Where a file's declarations may lead, before normalisation. */
  function Candidates(tree: Tree, cur: Path): seq<Path> {
    if cur !in tree.bodies then [] else
    var base, body := Dirname(cur), tree.bodies[cur];
    seq(|body.mods|, i requires 0 <= i < |body.mods| => base + "/" + body.mods[i] + ".rs") +
    seq(|body.mods|, i requires 0 <= i < |body.mods| => base + "/" + body.mods[i] + "/mod.rs") +
    seq(|body.attrs|, i requires 0 <= i < |body.attrs| => base + "/" + body.attrs[i])
  }

  /** The existing files one file declares. */
  function Declares(tree: Tree): Succ {
    n => set c | c in Candidates(tree, n) && tree.norm(c) in tree.files :: tree.norm(c)
  }

  lemma {:induction false} HeadOf(dir: Path, file: string)
    requires '/' !in file
    ensures Head(dir + "/" + file) == dir + "/" && Head(file) == ""
  {
    if file != "" {
      var n := |file| - 1;
      assert (dir + "/" + file)[..|dir| + 1 + n] == dir + "/" + file[..n];
      HeadOf(dir, file[..n]);
    } else {
      assert dir + "/" + file == dir + "/";
    }
  }

  /** The directory of a file in a directory, and of one at the root. */
  lemma {:induction false} DirnameOf(dir: Path, file: string)
    requires '/' !in file && dir != "" && dir[|dir| - 1] != '/'
    ensures Dirname(dir + "/" + file) == dir && Dirname(file) == ""
  {
    HeadOf(dir, file);
    assert (dir + "/")[..|dir|] == dir;
    assert WithoutTrailingSlashes(dir) == dir;
  }

  /**
   A file's declarations lead to the existing files `<dir>/<mod>.rs` and `<dir>/<mod>/mod.rs` for its modules, and
   to `<dir>/<path>` for its path attributes.
   */
  lemma {:induction false} DeclaresIff(tree: Tree, dir: Path, file: string, n: Path)
    requires '/' !in file && dir != "" && dir[|dir| - 1] != '/' && dir + "/" + file in tree.bodies
    ensures var body := tree.bodies[dir + "/" + file];
            n in Declares(tree)(dir + "/" + file) <==>
            n in tree.files &&
            ((exists i :: 0 <= i < |body.mods| && tree.norm(dir + "/" + body.mods[i] + ".rs") == n) ||
             (exists i :: 0 <= i < |body.mods| && tree.norm(dir + "/" + body.mods[i] + "/mod.rs") == n) ||
             (exists i :: 0 <= i < |body.attrs| && tree.norm(dir + "/" + body.attrs[i]) == n))
  {
    var cur := dir + "/" + file;
    var body := tree.bodies[cur];
    DirnameOf(dir, file);
    var a := seq(|body.mods|, i requires 0 <= i < |body.mods| => dir + "/" + body.mods[i] + ".rs");
    var b := seq(|body.mods|, i requires 0 <= i < |body.mods| => dir + "/" + body.mods[i] + "/mod.rs");
    var c := seq(|body.attrs|, i requires 0 <= i < |body.attrs| => dir + "/" + body.attrs[i]);
    assert Candidates(tree, cur) == a + b + c;
    LeadsIff(tree, a, b, c, n);
    assert forall i :: 0 <= i < |body.mods| ==> a[i] == dir + "/" + body.mods[i] + ".rs";
    assert forall i :: 0 <= i < |body.mods| ==> b[i] == dir + "/" + body.mods[i] + "/mod.rs";
    assert forall i :: 0 <= i < |body.attrs| ==> c[i] == dir + "/" + body.attrs[i];
  }

  lemma {:induction false} LeadsIff(tree: Tree, a: seq<Path>, b: seq<Path>, c: seq<Path>, n: Path)
    ensures (exists p :: p in a + b + c && tree.norm(p) == n) <==>
            (exists i :: 0 <= i < |a| && tree.norm(a[i]) == n) ||
            (exists i :: 0 <= i < |b| && tree.norm(b[i]) == n) ||
            (exists i :: 0 <= i < |c| && tree.norm(c[i]) == n)
  {
    if p :| p in a + b + c && tree.norm(p) == n {
      assert p in a || p in b || p in c;
    }
    if i :| 0 <= i < |a| && tree.norm(a[i]) == n {
      assert a[i] in a + b + c;
    }
    if i :| 0 <= i < |b| && tree.norm(b[i]) == n {
      assert b[i] in a + b + c;
    }
    if i :| 0 <= i < |c| && tree.norm(c[i]) == n {
      assert c[i] in a + b + c;
    }
  }

  function DeclaredBy(tree: Tree, mods: seq<Path>): set<Path> {
    set c | c in mods && tree.norm(c) in tree.files :: tree.norm(c)
  }

  /** What the worklist knows: only reached files are marked, and a marked file still owing its edges is queued. */
  ghost predicate Marked(succ: Succ, from: set<Path>, compiled: set<Path>, queue: seq<Path>) {
    && from <= compiled
    && (forall n :: n in queue ==> n in compiled)
    && (forall n :: n in compiled ==> Reaches(succ, from, n))
    && (forall n :: n in compiled && n !in queue ==> succ(n) <= compiled)
  }

  /** The files a target's declarations lead to are exactly the files marked as compiled. */
  method ModuleClosure(tree: Tree, targets: map<string, Path>) returns (compiled: set<Path>)
    ensures forall n :: n in compiled <==> Reaches(Declares(tree), targets.Values, n)
  {
    ghost var succ, from := Declares(tree), targets.Values;
    compiled := targets.Values;
    var queue := ListOf(targets.Values);
    forall n | n in compiled ensures Reaches(succ, from, n) {
      StartIsReached(succ, from, n);
    }
    while queue != []
      invariant Marked(succ, from, compiled, queue)
      decreases tree.files - compiled, |queue|
    {
      var cur := queue[|queue| - 1];
      var rest := queue[..|queue| - 1];
      assert queue == rest + [cur];
      compiled, queue := Follow(tree, from, compiled, rest, cur);
    }
    ClosedReachedIsReach(succ, from, compiled);
  }

  method Follow(tree: Tree, ghost from: set<Path>, marked: set<Path>, rest: seq<Path>, cur: Path)
    returns (compiled: set<Path>, queue: seq<Path>)
    requires Marked(Declares(tree), from, marked, rest + [cur])
    ensures Marked(Declares(tree), from, compiled, queue)
    ensures tree.files - compiled < tree.files - marked || (compiled == marked && queue == rest)
  {
    compiled, queue := AddDeclared(tree, Candidates(tree, cur), marked, rest);
    assert DeclaredBy(tree, Candidates(tree, cur)) == Declares(tree)(cur);
    Owed(Declares(tree), from, marked, rest, cur, compiled, queue);
    if compiled != marked {
      ghost var file :| file in compiled - marked;
      assert file in tree.files;
    }
  }

  method AddDeclared(tree: Tree, mods: seq<Path>, marked: set<Path>, rest: seq<Path>)
    returns (compiled: set<Path>, queue: seq<Path>)
    ensures compiled == marked + DeclaredBy(tree, mods)
    ensures forall n :: n in queue <==> n in rest || n in compiled - marked
    ensures compiled == marked ==> queue == rest
  {
    compiled, queue := marked, rest;
    for i := 0 to |mods|
      invariant compiled == marked + DeclaredBy(tree, mods[..i])
      invariant forall n :: n in queue <==> n in rest || n in compiled - marked
      invariant compiled == marked ==> queue == rest
    {
      var file := tree.norm(mods[i]);
      assert mods[..i + 1] == mods[..i] + [mods[i]];
      if file !in compiled && file in tree.files {
        compiled := compiled + {file};
        queue := queue + [file];
      }
    }
    assert mods[..|mods|] == mods;
  }

  lemma Owed(succ: Succ, from: set<Path>, marked: set<Path>, rest: seq<Path>, cur: Path,
             compiled: set<Path>, queue: seq<Path>)
    requires Marked(succ, from, marked, rest + [cur])
    requires compiled == marked + succ(cur)
    requires forall n :: n in queue <==> n in rest || n in compiled - marked
    ensures Marked(succ, from, compiled, queue)
  {
    assert cur in rest + [cur];
    forall n | n in compiled ensures Reaches(succ, from, n) {
      if n in succ(cur) {
        SuccessorIsReached(succ, from, cur, n);
      }
    }
    forall n | n in compiled && n !in queue ensures succ(n) <= compiled {
      assert n in marked && n !in rest;
      assert n != cur ==> n !in rest + [cur];
    }
    forall n | n in queue ensures n in compiled {
      assert n in rest ==> n in rest + [cur];
    }
  }

  // ----- The verdict ------------------------------------------------------------------------------

  datatype Kind = Muted | NeverCompiled

  datatype Key = Key(kind: Kind, path: Path)

  /** Below this many targets the parse is taken to have collapsed. */
  const MIN_TARGETS := 30

  datatype Root = Root(
    manifest: Option<seq<Entry>>,
    listing: seq<string>,
    tree: Tree,
    testFiles: set<Path>,
    registry: Option<map<Key, string>>)

  /** What must be registered: a silenced target, or a test file nothing compiles. */
  ghost predicate Found(r: Root, targets: map<string, Path>, key: Key) {
    match key
    case Key(Muted, p) => p in targets.Values && p in r.tree.bodies && r.tree.bodies[p].muted
    case Key(NeverCompiled, p) => p in r.testFiles && !Reaches(Declares(r.tree), targets.Values, p)
  }

  method Scan(r: Root, targets: map<string, Path>) returns (findings: set<Key>)
    ensures forall key :: key in findings <==> Found(r, targets, key)
    ensures forall p :: Key(Muted, p) in findings <==>
                        (exists name :: name in targets && targets[name] == p) &&
                        p in r.tree.bodies && r.tree.bodies[p].muted
    ensures forall p :: Key(NeverCompiled, p) in findings <==>
                        p in r.testFiles && !Reaches(Declares(r.tree), targets.Values, p)
  {
    var compiled := ModuleClosure(r.tree, targets);
    findings := (set p | p in targets.Values && p in r.tree.bodies && r.tree.bodies[p].muted :: Key(Muted, p)) +
                (set p | p in r.testFiles - compiled :: Key(NeverCompiled, p));
  }

  ghost predicate Balanced(r: Root, targets: map<string, Path>) {
    r.registry.Some? && forall key :: key in r.registry.value <==> Found(r, targets, key)
  }

  /** Green exactly when the registry names every finding and nothing else; 2 when nothing can be said. */
  method Judge(r: Root) returns (rc: nat, ghost targets: map<string, Path>)
    ensures r.manifest.None? ==> rc == 2
    ensures r.manifest.Some? ==>
              && IsTargets(r.manifest.value, r.listing, targets)
              && rc == (if |targets| < 30 || r.registry.None? then 2
                        else if Balanced(r, targets) then 0 else 1)
  {
    targets := map[];
    if r.manifest.None? {
      return 2, targets;
    }
    var parsed := ParseTargets(r.manifest.value, r.listing);
    targets := parsed;
    if |parsed| < MIN_TARGETS {
      return 2, targets;
    }
    var findings := Scan(r, parsed);
    if r.registry.None? {
      return 2, targets;
    }
    var unregistered := findings - r.registry.value.Keys;
    var stale := r.registry.value.Keys - findings;
    rc := if unregistered != {} || stale != {} then 1 else 0;
    if rc == 0 {
      forall key ensures key in r.registry.value <==> Found(r, targets, key) {
        assert key !in unregistered && key !in stale;
      }
    } else {
      ghost var key :| key in unregistered || key in stale;
    }
  }

  /** The same tree with more module declarations, or with more files for them to lead to. */
  ghost predicate CompilesMore(tree: Tree, more: Tree) {
    forall n :: Declares(tree)(n) <= Declares(more)(n)
  }

  /**
   Declaring more modules can only silence findings: after a green run the one thing it can bring up is a
   registration that has become stale, of a file that is now compiled.
   */
  lemma MoreModulesOnlyStale(r: Root, tree: Tree, targets: map<string, Path>, key: Key)
    requires CompilesMore(r.tree, tree) && Balanced(r, targets)
    requires forall p :: p in targets.Values ==> (p in tree.bodies && tree.bodies[p].muted <==>
                                                  p in r.tree.bodies && r.tree.bodies[p].muted)
    ensures Found(r.(tree := tree), targets, key) ==> key in r.registry.value
    ensures key in r.registry.value && !Found(r.(tree := tree), targets, key) ==>
              key.kind == NeverCompiled && Reaches(Declares(tree), targets.Values, key.path)
  {
    if Reaches(Declares(r.tree), targets.Values, key.path) {
      ReachIsMonotone(Declares(r.tree), Declares(tree), targets.Values, key.path);
    }
  }
}
