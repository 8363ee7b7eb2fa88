/**
 * scripts/check-workspace-deps.ts: the files a production script reaches by relative imports,
 * the workspaces its image installs, and the gate that holds every reached file to its owner's
 * dependencies. Reading imports out of a text is a given function here.
 */
module Workspace {
  import opened Text

  /** `relative` and `bare` are the specifiers relativeImportsIn and importsIn find in a text. */
  datatype Fs = Fs(files: map<string, string>, relative: string -> seq<string>, bare: string -> seq<string>)

  // ----- paths -----

  /** `s.split("/")`. */
  function Split(s: string): (parts: seq<string>)
    ensures parts != []
    ensures forall p :: p in parts ==> '/' !in p
  {
    if s == "" then [""]
    else
      var rest := Split(s[1..]);
      if s[0] == '/' then [""] + rest
      else
        assert rest[0] in rest;
        [[s[0]] + rest[0]] + rest[1..]
  }

  /** `parts.join("/")`. */
  function Join(parts: seq<string>): string {
    if parts == [] then ""
    else if |parts| == 1 then parts[0]
    else parts[0] + "/" + Join(parts[1..])
  }

  lemma JoinHead(head: string, rest: seq<string>)
    requires rest != []
    ensures Join([head] + rest) == head + "/" + Join(rest)
  {
    assert ([head] + rest)[1..] == rest;
  }

  lemma JoinOne(head: string)
    ensures Join([head]) == head
  {}

  lemma JoinPrepended(c: char, head: string, tail: seq<string>)
    ensures Join([[c] + head] + tail) == [c] + Join([head] + tail)
  {}

  lemma {:induction false} JoinUndoesSplit(s: string)
    ensures Join(Split(s)) == s
  {
    hide Join;
    if s != "" {
      JoinUndoesSplit(s[1..]);
      var rest := Split(s[1..]);
      if s[0] == '/' { JoinHead("", rest); } else { JoinPrepended(s[0], rest[0], rest[1..]); }
      assert rest == [rest[0]] + rest[1..] && "" + "/" + Join(rest) == "/" + Join(rest);
      assert s == [s[0]] + s[1..];
    } else {
      JoinOne("");
    }
  }

  /** The segments of `spec` walked from `parts`: `..` drops one, and nothing at the root. */
  function Walk(parts: seq<string>, segments: seq<string>): seq<string>
    decreases segments
  {
    if segments == [] then parts
    else if segments[0] == ".." then Walk(if parts == [] then [] else parts[..|parts| - 1], segments[1..])
    else if segments[0] == "." then Walk(parts, segments[1..])
    else Walk(parts + [segments[0]], segments[1..])
  }

  /** Where a relative specifier in `file` points. */
  function Target(file: string, spec: string): string {
    var parts := Split(file);
    Join(Walk(parts[..|parts| - 1], Split(spec)))
  }

  predicate Plain(parts: seq<string>) {
    forall p :: p in parts ==> p != "." && p != ".."
  }

  /** Walking leaves no dots behind. */
  lemma {:induction false} WalkIsPlain(parts: seq<string>, segments: seq<string>)
    requires Plain(parts)
    ensures Plain(Walk(parts, segments))
    decreases segments
  {
    if segments != [] {
      if segments[0] == ".." {
        var up := if parts == [] then [] else parts[..|parts| - 1];
        assert forall p :: p in up ==> p in parts;
        WalkIsPlain(up, segments[1..]);
      } else if segments[0] == "." {
        WalkIsPlain(parts, segments[1..]);
      } else {
        WalkIsPlain(parts + [segments[0]], segments[1..]);
      }
    }
  }

  /** Climbing stops at the root, however many `..` there are. */
  lemma {:induction false} ClimbingClamps(parts: seq<string>, climbs: nat, segments: seq<string>)
    requires climbs <= |segments| && forall i :: 0 <= i < climbs ==> segments[i] == ".."
    ensures Walk(parts, segments)
         == Walk(if climbs <= |parts| then parts[..|parts| - climbs] else [], segments[climbs..])
    decreases climbs
  {
    if climbs > 0 {
      var up := if parts == [] then [] else parts[..|parts| - 1];
      ClimbingClamps(up, climbs - 1, segments[1..]);
      assert segments[1..][climbs - 1..] == segments[climbs..];
      if climbs <= |parts| { assert up[..|up| - (climbs - 1)] == parts[..|parts| - climbs]; }
    } else {
      assert segments[0..] == segments && parts[..|parts|] == parts;
    }
  }

  // ----- where a specifier points, in paths -----

  lemma {:induction false} SplitOne(name: string)
    requires '/' !in name
    ensures Split(name) == [name]
  {
    if name != "" {
      assert name[0] in name;
      assert forall c :: c in name[1..] ==> c in name;
      SplitOne(name[1..]);
      assert name == [name[0]] + name[1..];
    }
  }

  lemma {:induction false} SplitAppend(a: string, b: string)
    ensures Split(a + "/" + b) == Split(a) + Split(b)
  {
    hide Split;
    if a == "" {
      SplitFirst('/', b);
      assert "" + "/" + b == ['/'] + b;
      SplitOne("");
    } else {
      SplitAppend(a[1..], b);
      SplitFirst(a[0], a[1..]);
      SplitFirst(a[0], a[1..] + "/" + b);
      assert a == [a[0]] + a[1..];
      Regroup(a[0], a[1..], b);
      FirstOfBoth(Split(a[1..]), Split(b));
    }
  }

  lemma Regroup(c: char, a: string, b: string)
    ensures [c] + a + "/" + b == [c] + (a + "/" + b)
  {}

  lemma FirstOfBoth(a: seq<string>, b: seq<string>)
    requires a != []
    ensures (a + b)[0] == a[0] && (a + b)[1..] == a[1..] + b
  {}

  lemma SplitFirst(c: char, s: string)
    ensures Split([c] + s) == if c == '/' then [""] + Split(s) else [[c] + Split(s)[0]] + Split(s)[1..]
  {
    assert ([c] + s)[1..] == s;
  }

  lemma {:induction false} JoinAppend(a: seq<string>, b: seq<string>)
    requires a != [] && b != []
    ensures Join(a + b) == Join(a) + "/" + Join(b)
  {
    hide Join;
    if |a| == 1 {
      JoinHead(a[0], b);
      JoinOne(a[0]);
      assert a + b == [a[0]] + b && a == [a[0]];
    } else {
      JoinAppend(a[1..], b);
      JoinHead(a[0], a[1..] + b);
      JoinHead(a[0], a[1..]);
      assert a + b == [a[0]] + (a[1..] + b) && a == [a[0]] + a[1..];
      assert a[0] + "/" + (Join(a[1..]) + "/" + Join(b)) == a[0] + "/" + Join(a[1..]) + "/" + Join(b);
    }
  }

  lemma {:induction false} WalkPlain(parts: seq<string>, segments: seq<string>)
    requires Plain(segments)
    ensures Walk(parts, segments) == parts + segments
    decreases segments
  {
    if segments != [] {
      assert segments[0] in segments && forall p :: p in segments[1..] ==> p in segments;
      WalkPlain(parts + [segments[0]], segments[1..]);
      assert parts + [segments[0]] + segments[1..] == parts + segments;
    }
  }

  /** A segment of a path is plain: one name, no dots. */
  predicate PlainPath(path: string) {
    Plain(Split(path))
  }

  lemma SameDirectory(parts: seq<string>, rest: string)
    requires PlainPath(rest)
    ensures Walk(parts, Split("./" + rest)) == parts + Split(rest)
  {
    hide Split;
    SplitOne(".");
    SplitAppend(".", rest);
    assert "." + "/" + rest == "./" + rest;
    WalkPlain(parts, Split(rest));
    assert ([ "." ] + Split(rest))[1..] == Split(rest);
  }

  lemma ParentDirectory(parts: seq<string>, rest: string)
    requires PlainPath(rest)
    ensures Walk(parts, Split("../" + rest))
         == (if parts == [] then [] else parts[..|parts| - 1]) + Split(rest)
  {
    hide Split;
    SplitOne("..");
    SplitAppend("..", rest);
    assert ".." + "/" + rest == "../" + rest;
    WalkPlain(if parts == [] then [] else parts[..|parts| - 1], Split(rest));
    assert ([ ".." ] + Split(rest))[1..] == Split(rest);
  }

  /** `./x` is x beside the importing file, whatever directory that is in. */
  lemma SiblingTarget(dir: string, name: string, rest: string)
    requires '/' !in name && PlainPath(rest)
    ensures Target(dir + "/" + name, "./" + rest) == dir + "/" + rest
    ensures Target(name, "./" + rest) == rest
  {
    hide Split, Walk, Join, PlainPath;
    SplitOne(name);
    SplitAppend(dir, name);
    assert (Split(dir) + [name])[..|Split(dir)|] == Split(dir);
    SameDirectory(Split(dir), rest);
    SameDirectory([], rest);
    JoinAppend(Split(dir), Split(rest));
    JoinUndoesSplit(dir);
    JoinUndoesSplit(rest);
    assert [name][..0] == [] && [] + Split(rest) == Split(rest);
  }

  /** `../x` is x in the directory above; there is none above the root. */
  lemma ParentTarget(dir: string, sub: string, name: string, rest: string)
    requires '/' !in name && '/' !in sub && PlainPath(rest)
    ensures Target(dir + "/" + sub + "/" + name, "../" + rest) == dir + "/" + rest
    ensures Target(sub + "/" + name, "../" + rest) == rest
    ensures Target(name, "../" + rest) == rest
  {
    hide Split, Walk, Join, PlainPath;
    SplitOne(name);
    SplitOne(sub);
    SplitAppend(dir, sub);
    SplitAppend(dir + "/" + sub, name);
    SplitAppend(sub, name);
    assert (Split(dir) + [sub] + [name])[..|Split(dir)| + 1] == Split(dir) + [sub];
    assert (Split(dir) + [sub])[..|Split(dir)|] == Split(dir);
    ParentDirectory(Split(dir) + [sub], rest);
    ParentDirectory([sub], rest);
    ParentDirectory([], rest);
    JoinAppend(Split(dir), Split(rest));
    JoinUndoesSplit(dir);
    JoinUndoesSplit(rest);
    assert ([sub] + [name])[..1] == [sub] && [sub][..0] == [] && [name][..0] == [];
    assert [] + Split(rest) == Split(rest);
  }

  // ----- least closed sets -----

  /** Holds the roots that exist, and with each member what it leads to that exists. */
  ghost predicate Closed(universe: set<string>, roots: seq<string>, leads: string -> seq<string>, s: set<string>) {
    && (forall r :: r in roots && r in universe ==> r in s)
    && (forall f, t :: f in s && t in leads(f) && t in universe ==> t in s)
  }

  /** In every closed set. */
  ghost predicate InLeast(universe: set<string>, roots: seq<string>, leads: string -> seq<string>, f: string) {
    forall s: set<string> :: Closed(universe, roots, leads, s) ==> f in s
  }

  /** The worklist: what is seen or queued is enough, and none of it too much. */
  ghost predicate Frontier(universe: set<string>, roots: seq<string>, leads: string -> seq<string>,
                           seen: set<string>, queue: seq<string>) {
    && seen <= universe
    && (forall r :: r in roots && r in universe ==> r in seen || r in queue)
    && (forall f, t :: f in seen && t in leads(f) && t in universe ==> t in seen || t in queue)
    && (forall f :: f in seen ==> InLeast(universe, roots, leads, f))
    && (forall f :: f in queue && f in universe ==> InLeast(universe, roots, leads, f))
  }

  lemma FrontierStarts(universe: set<string>, roots: seq<string>, leads: string -> seq<string>)
    ensures Frontier(universe, roots, leads, {}, roots)
  {}

  /** Taking the first of the queue: dropped when it is seen or does not exist, else followed. */
  lemma FrontierMoves(universe: set<string>, roots: seq<string>, leads: string -> seq<string>,
                      seen: set<string>, queue: seq<string>)
    requires Frontier(universe, roots, leads, seen, queue) && queue != []
    ensures queue[0] in seen || queue[0] !in universe ==> Frontier(universe, roots, leads, seen, queue[1..])
    ensures queue[0] !in seen && queue[0] in universe ==>
              Frontier(universe, roots, leads, seen + {queue[0]}, queue[1..] + leads(queue[0]))
              && |universe - (seen + {queue[0]})| < |universe - seen|
  {
    var file, rest := queue[0], queue[1..];
    assert forall f :: f in queue <==> f == file || f in rest;
    if file !in seen && file in universe {
      assert universe - (seen + {file}) == (universe - seen) - {file};
      forall t | t in leads(file) && t in universe ensures InLeast(universe, roots, leads, t) {
        assert InLeast(universe, roots, leads, file);
      }
    }
  }

  lemma FrontierEnds(universe: set<string>, roots: seq<string>, leads: string -> seq<string>, seen: set<string>)
    requires Frontier(universe, roots, leads, seen, [])
    ensures forall f :: f in seen <==> InLeast(universe, roots, leads, f)
  {
    assert Closed(universe, roots, leads, seen);
  }

  /** A member of the least set is a root, or something another member leads to; and it exists. */
  lemma LeastIff(universe: set<string>, roots: seq<string>, leads: string -> seq<string>, f: string)
    ensures InLeast(universe, roots, leads, f)
            <==> f in universe && (f in roots || exists g :: InLeast(universe, roots, leads, g) && f in leads(g))
  {
    var least := set x | x in universe && InLeast(universe, roots, leads, x);
    assert Closed(universe, roots, leads, universe);
    assert Closed(universe, roots, leads, least) by { LeastIsClosed(universe, roots, leads, least); }
    if InLeast(universe, roots, leads, f) {
      assert f in universe;
      if f !in roots && !exists g :: InLeast(universe, roots, leads, g) && f in leads(g) {
        assert Closed(universe, roots, leads, least - {f});
      }
    }
  }

  lemma LeastIsClosed(universe: set<string>, roots: seq<string>, leads: string -> seq<string>, least: set<string>)
    requires forall x :: x in least <==> x in universe && InLeast(universe, roots, leads, x)
    ensures Closed(universe, roots, leads, least)
    ensures forall x, g :: x in universe && x in leads(g) && InLeast(universe, roots, leads, g) ==>
              InLeast(universe, roots, leads, x)
    ensures forall x :: x in universe && x in roots ==> InLeast(universe, roots, leads, x)
  {}

  // ----- the closure of relative imports -----

  /** Where the relative imports of a readable file point. */
  function Imports(fs: Fs): string -> seq<string> {
    file =>
      if file !in fs.files then []
      else
        var specs := fs.relative(fs.files[file]);
        seq(|specs|, i requires 0 <= i < |specs| => Target(file, specs[i]))
  }

  method EnqueueImports(queue: seq<string>, fs: Fs, file: string) returns (longer: seq<string>)
    requires file in fs.files
    ensures longer == queue + Imports(fs)(file)
  {
    longer := queue;
    var specs := fs.relative(fs.files[file]);
    for i := 0 to |specs|
      invariant longer == queue + Imports(fs)(file)[..i]
    {
      longer := longer + [Target(file, specs[i])];
    }
  }

  /** Readable, and reached from the readable entries by relative imports. */
  ghost predicate Reached(fs: Fs, entries: seq<string>, f: string) {
    InLeast(fs.files.Keys, entries, Imports(fs), f)
  }

  /**
   * Terminates whatever imports whatever, and lists in order the least set of readable files that
   * holds the readable entries and what its members import.
   */
  method ClosureOf(entries: seq<string>, fs: Fs) returns (files: seq<string>)
    ensures StrictlySorted(files)
    ensures forall f :: f in files <==> Reached(fs, entries, f)
    ensures forall f :: f in files ==> f in fs.files
  {
    hide Frontier, Imports;
    var seen: set<string> := {};
    var queue := entries;
    ghost var universe, leads := fs.files.Keys, Imports(fs);
    FrontierStarts(universe, entries, leads);
    while |queue| > 0
      invariant Frontier(universe, entries, leads, seen, queue)
      decreases |universe - seen|, |queue|
    {
      FrontierMoves(universe, entries, leads, seen, queue);
      var file := queue[0];
      queue := queue[1..];
      if file in seen {
        continue;
      }
      if file !in fs.files {
        continue;
      }
      seen := seen + {file};
      queue := EnqueueImports(queue, fs, file);
    }
    FrontierEnds(universe, entries, leads, seen);
    FrontierInside(universe, entries, leads, seen, queue);
    files := SortedListing(seen);
  }

  lemma FrontierInside(universe: set<string>, roots: seq<string>, leads: string -> seq<string>,
                       seen: set<string>, queue: seq<string>)
    requires Frontier(universe, roots, leads, seen, queue)
    ensures seen <= universe
  {}

  /**
   * Exactly what is reached: a readable entry, or a readable file at which a relative specifier of a reached
   * file points.
   */
  lemma ReachedIff(fs: Fs, entries: seq<string>, f: string)
    ensures Reached(fs, entries, f)
            <==> f in fs.files &&
                 (f in entries
                  || exists g, spec :: Reached(fs, entries, g) && g in fs.files
                                       && spec in fs.relative(fs.files[g]) && Target(g, spec) == f)
  {
    LeastIff(fs.files.Keys, entries, Imports(fs), f);
    forall g | Reached(fs, entries, g) ensures g in fs.files { LeastIff(fs.files.Keys, entries, Imports(fs), g); }
    hide Target;
    forall g | g in fs.files
      ensures f in Imports(fs)(g) <==> exists spec :: spec in fs.relative(fs.files[g]) && Target(g, spec) == f
    {
      ImportsAre(fs, g, f);
    }
  }

  lemma ImportsAre(fs: Fs, g: string, f: string)
    requires g in fs.files
    ensures f in Imports(fs)(g) <==> exists spec :: spec in fs.relative(fs.files[g]) && Target(g, spec) == f
  {
    hide Target;
    var specs := fs.relative(fs.files[g]);
    if spec :| spec in specs && Target(g, spec) == f {
      var i :| 0 <= i < |specs| && specs[i] == spec;
      assert Imports(fs)(g)[i] == f;
    }
  }

  /** A reached script that imports a readable neighbour, or one in the directory above, reaches it. */
  lemma NeighboursAreReached(fs: Fs, entries: seq<string>, dir: string, sub: string, name: string, rest: string)
    requires '/' !in name && '/' !in sub && PlainPath(rest)
    ensures var g, f := dir + "/" + name, dir + "/" + rest;
            Reached(fs, entries, g) && g in fs.files && f in fs.files && "./" + rest in fs.relative(fs.files[g]) ==>
              Reached(fs, entries, f)
    ensures var g, f := dir + "/" + sub + "/" + name, dir + "/" + rest;
            Reached(fs, entries, g) && g in fs.files && f in fs.files && "../" + rest in fs.relative(fs.files[g]) ==>
              Reached(fs, entries, f)
  {
    hide Reached, Target, PlainPath;
    SiblingTarget(dir, name, rest);
    ParentTarget(dir, sub, name, rest);
    ReachedIff(fs, entries, dir + "/" + rest);
  }

  /** The answer depends on which entries can be read, not on their order or repetition. */
  lemma EntriesAreASet(fs: Fs, a: seq<string>, b: seq<string>, ra: seq<string>, rb: seq<string>)
    requires forall e :: e in fs.files ==> (e in a <==> e in b)
    requires StrictlySorted(ra) && forall f :: f in ra <==> Reached(fs, a, f)
    requires StrictlySorted(rb) && forall f :: f in rb <==> Reached(fs, b, f)
    ensures ra == rb
  {
    forall s: set<string>
      ensures Closed(fs.files.Keys, a, Imports(fs), s) == Closed(fs.files.Keys, b, Imports(fs), s) {}
    SortedUnique(ra, rb);
  }

  // ----- what the image installs -----

  datatype Manifest = Manifest(name: Option<string>, dependencies: seq<string>)

  /** The workspaces by directory, in the order they were read. */
  type Manifests = seq<(string, Manifest)>

  /** `byName`: a later workspace of the same name takes the name over. */
  function DirOf(ms: Manifests, name: string): Option<string> {
    if ms == [] then None
    else if ms[|ms| - 1].1.name == Some(name) then Some(ms[|ms| - 1].0)
    else DirOf(ms[..|ms| - 1], name)
  }

  function ManifestAt(ms: Manifests, dir: string): Option<Manifest> {
    if ms == [] then None
    else if ms[|ms| - 1].0 == dir then Some(ms[|ms| - 1].1)
    else ManifestAt(ms[..|ms| - 1], dir)
  }

  function DependenciesAt(ms: Manifests, dir: string): seq<string> {
    var m := ManifestAt(ms, dir);
    if m.None? then [] else m.value.dependencies
  }

  const API := "apps/api"

  /** The workspace directories among `deps`, in order. */
  function DirsOf(ms: Manifests, deps: seq<string>): (dirs: seq<string>) {
    if deps == [] then []
    else
      var d := DirOf(ms, deps[|deps| - 1]);
      DirsOf(ms, deps[..|deps| - 1]) + (if d.Some? then [d.value] else [])
  }

  lemma {:induction false} DirsOfMembers(ms: Manifests, deps: seq<string>, d: string)
    ensures d in DirsOf(ms, deps) <==> exists dep :: dep in deps && DirOf(ms, dep) == Some(d)
  {
    if deps != [] {
      var init, last := deps[..|deps| - 1], deps[|deps| - 1];
      DirsOfMembers(ms, init, d);
      assert deps == init + [last];
      hide DirOf;
      if DirOf(ms, last) == Some(d) { assert last in deps; }
    }
  }

  function AllDirs(ms: Manifests): set<string> {
    {API} + set m | m in ms :: m.0
  }

  function FirstDirs(ms: Manifests, root: Manifest): seq<string> {
    [API] + DirsOf(ms, root.dependencies)
  }

  function Needs(ms: Manifests): string -> seq<string> {
    dir => DirsOf(ms, DependenciesAt(ms, dir))
  }

  /** The api, the root's workspaces, and the workspaces those depend on. */
  ghost predicate Installed(ms: Manifests, root: Manifest, dir: string) {
    InLeast(AllDirs(ms), FirstDirs(ms, root), Needs(ms), dir)
  }

  lemma {:induction false} DirIsListed(ms: Manifests, name: string)
    requires DirOf(ms, name).Some?
    ensures DirOf(ms, name).value in AllDirs(ms)
  {
    var last := ms[|ms| - 1];
    if last.1.name == Some(name) {
      assert last in ms;
    } else {
      DirIsListed(ms[..|ms| - 1], name);
      assert forall m :: m in ms[..|ms| - 1] ==> m in ms;
    }
  }

  lemma DirsAreListed(ms: Manifests, deps: seq<string>)
    ensures forall d :: d in DirsOf(ms, deps) ==> d in AllDirs(ms)
  {
    forall d | d in DirsOf(ms, deps) ensures d in AllDirs(ms) {
      DirsOfMembers(ms, deps, d);
      var dep :| dep in deps && DirOf(ms, dep) == Some(d);
      DirIsListed(ms, dep);
    }
  }

  /** Pushing the workspace directories among `deps`. */
  method Enqueue(queue: seq<string>, ms: Manifests, deps: seq<string>) returns (longer: seq<string>)
    ensures longer == queue + DirsOf(ms, deps)
  {
    longer := queue;
    for i := 0 to |deps|
      invariant longer == queue + DirsOf(ms, deps[..i])
    {
      assert deps[..i + 1][..i] == deps[..i];
      var d := DirOf(ms, deps[i]);
      if d.Some? {
        longer := longer + [d.value];
      }
    }
    assert deps[..|deps|] == deps;
  }

  method ImageWorkspaces(ms: Manifests, root: Manifest) returns (result: set<string>)
    ensures forall dir :: dir in result <==> Installed(ms, root, dir)
  {
    hide Frontier, DirsOf;
    result := {};
    var queue := Enqueue([API], ms, root.dependencies);
    ghost var universe, roots, leads := AllDirs(ms), FirstDirs(ms, root), Needs(ms);
    FrontierStarts(universe, roots, leads);
    DirsAreListed(ms, root.dependencies);
    while |queue| > 0
      invariant Frontier(universe, roots, leads, result, queue)
      invariant forall d :: d in queue ==> d in universe
      decreases |universe - result|, |queue|
    {
      FrontierMoves(universe, roots, leads, result, queue);
      var dir := queue[0];
      queue := queue[1..];
      if dir in result {
        continue;
      }
      result := result + {dir};
      DirsAreListed(ms, DependenciesAt(ms, dir));
      queue := Enqueue(queue, ms, DependenciesAt(ms, dir));
    }
    FrontierEnds(universe, roots, leads, result);
  }

  // ----- the gate -----

  datatype Owner = Root | InWorkspace(dir: string)

  /** `apps/<x>/…` and `packages/<x>/…` belong to their workspace, everything else to the root. */
  function OwnerOf(file: string): Owner {
    var parts := Split(file);
    if |parts| >= 3 && (parts[0] == "apps" || parts[0] == "packages") && parts[1] != ""
    then InWorkspace(parts[0] + "/" + parts[1]) else Root
  }

  /** A file has an owner other than the root exactly when it lies inside a directory under one of the two. */
  lemma OwnerOfIff(file: string, dir: string)
    ensures OwnerOf(file) == InWorkspace(dir)
            <==> exists top, x, rest :: (top == "apps" || top == "packages") && x != "" && '/' !in x
                                        && dir == top + "/" + x && file == top + "/" + x + "/" + rest
  {
    hide Split;
    if OwnerOf(file) == InWorkspace(dir) {
      var parts := Split(file);
      assert parts[0] in parts && parts[1] in parts;
      assert parts == [parts[0], parts[1]] + parts[2..];
      JoinUndoesSplit(file);
      JoinTwo(parts[0], parts[1], parts[2..]);
    }
    if top, x, rest :| (top == "apps" || top == "packages") && x != "" && '/' !in x
                       && dir == top + "/" + x && file == top + "/" + x + "/" + rest {
      SplitOne(top);
      SplitOne(x);
      SplitAppend(top, x);
      SplitAppend(top + "/" + x, rest);
      assert Split(file) == [top, x] + Split(rest);
    }
  }

  lemma JoinTwo(a: string, b: string, rest: seq<string>)
    requires rest != []
    ensures Join([a, b] + rest) == a + "/" + b + "/" + Join(rest)
  {
    hide Join;
    assert [a, b] + rest == [a] + ([b] + rest);
    JoinHead(a, [b] + rest);
    JoinHead(b, rest);
    assert a + "/" + (b + "/" + Join(rest)) == a + "/" + b + "/" + Join(rest);
  }

  datatype Problem = OutsideImage(file: string, dir: string) | NotDeclared(file: string, pkg: string)

  /** The owner has the package in `dependencies`, or is that package. */
  predicate Declares(ms: Manifests, root: Manifest, owner: Owner, pkg: string) {
    match owner
    case Root => pkg in root.dependencies
    case InWorkspace(dir) =>
      pkg in DependenciesAt(ms, dir) || (ManifestAt(ms, dir).Some? && ManifestAt(ms, dir).value.name == Some(pkg))
  }

  /** Each workspace directory is read once. */
  ghost predicate DirsOnce(ms: Manifests) {
    forall i, j :: 0 <= i < j < |ms| ==> ms[i].0 != ms[j].0
  }

  lemma {:induction false} ManifestAtIff(ms: Manifests, dir: string, m: Manifest)
    requires DirsOnce(ms)
    ensures ManifestAt(ms, dir) == Some(m) <==> (dir, m) in ms
  {
    if ms != [] {
      var init, last := ms[..|ms| - 1], ms[|ms| - 1];
      ManifestAtIff(init, dir, m);
      assert ms == init + [last];
      forall i | 0 <= i < |init| ensures init[i].0 != last.0 { assert ms[i].0 != ms[|init|].0; }
    }
  }

  /** The last workspace read under a name has it. */
  lemma {:induction false} DirOfIff(ms: Manifests, name: string, dir: string)
    ensures DirOf(ms, name) == Some(dir) <==> LastNamed(ms, name, dir)
    ensures DirOf(ms, name) == Some(dir)
            <==> exists i :: 0 <= i < |ms| && ms[i].0 == dir && ms[i].1.name == Some(name)
                             && forall j :: i < j < |ms| ==> ms[j].1.name != Some(name)
  {
    hide LastNamed;
    if ms == [] {
      assert !LastNamed(ms, name, dir) by { NoneNamed(name, dir); }
    } else {
      DirOfIff(ms[..|ms| - 1], name, dir);
      LastNamedStep(ms, name, dir);
    }
    LastNamedIs(ms, name, dir);
  }

  ghost predicate LastNamed(ms: Manifests, name: string, dir: string) {
    exists i :: 0 <= i < |ms| && ms[i].0 == dir && ms[i].1.name == Some(name)
                && forall j :: i < j < |ms| ==> ms[j].1.name != Some(name)
  }

  lemma LastNamedIs(ms: Manifests, name: string, dir: string)
    ensures LastNamed(ms, name, dir)
            <==> exists i :: 0 <= i < |ms| && ms[i].0 == dir && ms[i].1.name == Some(name)
                             && forall j :: i < j < |ms| ==> ms[j].1.name != Some(name)
  {}

  lemma NoneNamed(name: string, dir: string)
    ensures !LastNamed([], name, dir)
  {}

  lemma LastNamedStep(ms: Manifests, name: string, dir: string)
    requires ms != []
    ensures var last := ms[|ms| - 1];
            LastNamed(ms, name, dir)
            <==> if last.1.name == Some(name) then last.0 == dir else LastNamed(ms[..|ms| - 1], name, dir)
  {
    var init, last := ms[..|ms| - 1], ms[|ms| - 1];
    if last.1.name != Some(name) {
      if i :| 0 <= i < |init| && init[i].0 == dir && init[i].1.name == Some(name)
              && forall j :: i < j < |init| ==> init[j].1.name != Some(name) {
        assert ms[i] == init[i] && forall j :: i < j < |init| ==> ms[j] == init[j];
      }
      if i :| 0 <= i < |ms| && ms[i].0 == dir && ms[i].1.name == Some(name)
              && forall j :: i < j < |ms| ==> ms[j].1.name != Some(name) {
        assert i < |init| && init[i] == ms[i] && forall j :: i < j < |init| ==> init[j] == ms[j];
      }
    }
  }

  /** What a file may import: the root's own dependencies, or those of its workspace and the workspace itself. */
  lemma DeclaresIff(ms: Manifests, root: Manifest, dir: string, pkg: string)
    requires DirsOnce(ms)
    ensures Declares(ms, root, Root, pkg) <==> pkg in root.dependencies
    ensures Declares(ms, root, InWorkspace(dir), pkg)
            <==> exists m :: (dir, m) in ms && (pkg in m.dependencies || m.name == Some(pkg))
  {
    forall m { ManifestAtIff(ms, dir, m); }
  }

  /**
   * Exactly what the image holds: the api, a workspace the root depends on, or one that an installed
   * workspace depends on, by name.
   */
  lemma InstalledIff(ms: Manifests, root: Manifest, dir: string)
    ensures Installed(ms, root, dir)
            <==> || dir == "apps/api"
                 || (exists dep :: dep in root.dependencies && DirOf(ms, dep) == Some(dir))
                 || (exists d, dep :: Installed(ms, root, d) && dep in DependenciesAt(ms, d)
                                      && DirOf(ms, dep) == Some(dir))
  {
    hide InLeast, DirOf, DependenciesAt, DirsOf, Needs, AllDirs, FirstDirs;
    LeastIff(AllDirs(ms), FirstDirs(ms, root), Needs(ms), dir);
    FirstDirsIff(ms, root, dir);
    if g :| InLeast(AllDirs(ms), FirstDirs(ms, root), Needs(ms), g) && dir in Needs(ms)(g) {
      NeedsIff(ms, g, dir);
      assert Installed(ms, root, g);
    }
    if d, dep :| Installed(ms, root, d) && dep in DependenciesAt(ms, d) && DirOf(ms, dep) == Some(dir) {
      NeedsIff(ms, d, dir);
      assert dir in Needs(ms)(d);
    }
    forall dep | DirOf(ms, dep) == Some(dir) ensures dir in AllDirs(ms) { DirIsListed(ms, dep); }
    ApiIsListed(ms);
  }

  lemma ApiIsListed(ms: Manifests)
    ensures "apps/api" in AllDirs(ms)
  {}

  lemma FirstDirsIff(ms: Manifests, root: Manifest, dir: string)
    ensures dir in FirstDirs(ms, root)
            <==> dir == "apps/api" || exists dep :: dep in root.dependencies && DirOf(ms, dep) == Some(dir)
  {
    hide DirOf, DirsOf;
    DirsOfMembers(ms, root.dependencies, dir);
  }

  lemma NeedsIff(ms: Manifests, d: string, dir: string)
    ensures dir in Needs(ms)(d) <==> exists dep :: dep in DependenciesAt(ms, d) && DirOf(ms, dep) == Some(dir)
  {
    hide DirOf, DirsOf, DependenciesAt;
    DirsOfMembers(ms, DependenciesAt(ms, d), dir);
  }

  ghost predicate OutOfImage(ms: Manifests, root: Manifest, file: string) {
    OwnerOf(file).InWorkspace? && !Installed(ms, root, OwnerOf(file).dir)
  }

  /** What the gate asks of a file that can be read. */
  ghost predicate FileOk(fs: Fs, ms: Manifests, root: Manifest, file: string) {
    file in fs.files ==>
      !OutOfImage(ms, root, file)
      && forall pkg :: pkg in fs.bare(fs.files[file]) ==> Declares(ms, root, OwnerOf(file), pkg)
  }

  ghost predicate IsProblem(fs: Fs, ms: Manifests, root: Manifest, p: Problem) {
    p.file in fs.files &&
    match p
    case OutsideImage(file, dir) => OutOfImage(ms, root, file) && OwnerOf(file) == InWorkspace(dir)
    case NotDeclared(file, pkg) =>
      !OutOfImage(ms, root, file) && pkg in fs.bare(fs.files[file]) && !Declares(ms, root, OwnerOf(file), pkg)
  }

  /** Exactly the problems of the listed files: none missed, none made up. */
  method CheckProductionClosure(files: seq<string>, fs: Fs, root: Manifest, ms: Manifests)
    returns (problems: seq<Problem>)
    ensures forall p :: p in problems <==> p.file in files && IsProblem(fs, ms, root, p)
    ensures problems == [] <==> forall f :: f in files ==> FileOk(fs, ms, root, f)
  {
    var inImage := ImageWorkspaces(ms, root);
    problems := [];
    for i := 0 to |files|
      invariant forall p :: p in problems <==> p.file in files[..i] && IsProblem(fs, ms, root, p)
    {
      var file := files[i];
      assert forall f :: f in files[..i + 1] <==> f in files[..i] || f == file;
      if file !in fs.files {
        continue;
      }
      var found := FileProblems(file, fs, root, ms, inImage);
      problems := problems + found;
    }
    assert files[..|files|] == files;
    NoProblemsIffAllOk(files, fs, ms, root, problems);
  }

  method FileProblems(file: string, fs: Fs, root: Manifest, ms: Manifests, inImage: set<string>)
    returns (problems: seq<Problem>)
    requires file in fs.files && forall dir :: dir in inImage <==> Installed(ms, root, dir)
    ensures forall p :: p in problems <==> p.file == file && IsProblem(fs, ms, root, p)
  {
    hide OwnerOf, Declares, Installed, InLeast;
    problems := [];
    var owner := OwnerOf(file);
    if owner.InWorkspace? && owner.dir !in inImage {
      problems := [OutsideImage(file, owner.dir)];
      return;
    }
    var pkgs := fs.bare(fs.files[file]);
    for i := 0 to |pkgs|
      invariant forall p :: p in problems <==>
                  p.NotDeclared? && p.file == file && p.pkg in pkgs[..i] && !Declares(ms, root, owner, p.pkg)
    {
      assert pkgs[..i + 1] == pkgs[..i] + [pkgs[i]];
      if !Declares(ms, root, owner, pkgs[i]) {
        problems := problems + [NotDeclared(file, pkgs[i])];
      }
    }
    assert pkgs[..|pkgs|] == pkgs;
  }

  lemma NoProblemsIffAllOk(files: seq<string>, fs: Fs, ms: Manifests, root: Manifest, problems: seq<Problem>)
    requires forall p :: p in problems <==> p.file in files && IsProblem(fs, ms, root, p)
    ensures problems == [] <==> forall f :: f in files ==> FileOk(fs, ms, root, f)
  {
    if problems == [] {
      forall f | f in files ensures FileOk(fs, ms, root, f) {
        if f in fs.files {
          if OwnerOf(f).InWorkspace? {
            assert !IsProblem(fs, ms, root, OutsideImage(f, OwnerOf(f).dir));
          }
          forall pkg | pkg in fs.bare(fs.files[f]) ensures Declares(ms, root, OwnerOf(f), pkg) {
            assert !IsProblem(fs, ms, root, NotDeclared(f, pkg));
          }
        }
      }
    } else {
      var p := problems[0];
      assert p in problems;
      assert !FileOk(fs, ms, root, p.file);
    }
  }

  /** The gate over a set of production scripts: silent just when everything they reach is in order. */
  method Gate(scripts: seq<string>, fs: Fs, root: Manifest, ms: Manifests) returns (problems: seq<Problem>)
    ensures problems == [] <==> forall f :: Reached(fs, scripts, f) ==> FileOk(fs, ms, root, f)
  {
    var closure := ClosureOf(scripts, fs);
    problems := CheckProductionClosure(closure, fs, root, ms);
  }

  // ----- declaring more never hurts -----

  /** The same workspaces and names; dependencies only added. */
  ghost predicate Grown(ms: Manifests, root: Manifest, ms': Manifests, root': Manifest) {
    && (forall d :: d in root.dependencies ==> d in root'.dependencies)
    && |ms| == |ms'|
    && forall i :: 0 <= i < |ms| ==>
         ms[i].0 == ms'[i].0 && ms[i].1.name == ms'[i].1.name
         && forall d :: d in ms[i].1.dependencies ==> d in ms'[i].1.dependencies
  }

  lemma {:induction false} GrownLookups(ms: Manifests, ms': Manifests, root: Manifest, root': Manifest, name: string,
                                        dir: string)
    requires Grown(ms, root, ms', root')
    ensures DirOf(ms, name) == DirOf(ms', name)
    ensures ManifestAt(ms, dir).Some? == ManifestAt(ms', dir).Some?
    ensures ManifestAt(ms, dir).Some? ==>
              ManifestAt(ms, dir).value.name == ManifestAt(ms', dir).value.name
              && forall d :: d in ManifestAt(ms, dir).value.dependencies ==>
                   d in ManifestAt(ms', dir).value.dependencies
  {
    if ms != [] {
      GrownLookups(ms[..|ms| - 1], ms'[..|ms| - 1], root, root', name, dir);
    }
  }

  lemma GrownDirs(ms: Manifests, ms': Manifests, root: Manifest, root': Manifest, deps: seq<string>, deps': seq<string>)
    requires Grown(ms, root, ms', root') && forall d :: d in deps ==> d in deps'
    ensures forall d :: d in DirsOf(ms, deps) ==> d in DirsOf(ms', deps')
  {
    forall d | d in DirsOf(ms, deps) ensures d in DirsOf(ms', deps') {
      DirsOfMembers(ms, deps, d);
      DirsOfMembers(ms', deps', d);
      var dep :| dep in deps && DirOf(ms, dep) == Some(d);
      GrownLookups(ms, ms', root, root', dep, "");
    }
  }

  lemma SameDirs(ms: Manifests, ms': Manifests, root: Manifest, root': Manifest)
    requires Grown(ms, root, ms', root')
    ensures AllDirs(ms) == AllDirs(ms')
  {}

  lemma GrownNeeds(ms: Manifests, ms': Manifests, root: Manifest, root': Manifest, dir: string)
    requires Grown(ms, root, ms', root')
    ensures forall d :: d in Needs(ms)(dir) ==> d in Needs(ms')(dir)
  {
    GrownLookups(ms, ms', root, root', "", dir);
    GrownDirs(ms, ms', root, root', DependenciesAt(ms, dir), DependenciesAt(ms', dir));
  }

  lemma GrownFirstDirs(ms: Manifests, ms': Manifests, root: Manifest, root': Manifest)
    requires Grown(ms, root, ms', root')
    ensures forall d :: d in FirstDirs(ms, root) ==> d in FirstDirs(ms', root')
  {
    GrownDirs(ms, ms', root, root', root.dependencies, root'.dependencies);
  }

  lemma InstalledStays(ms: Manifests, ms': Manifests, root: Manifest, root': Manifest, dir: string)
    requires Grown(ms, root, ms', root') && Installed(ms, root, dir)
    ensures Installed(ms', root', dir)
  {
    SameDirs(ms, ms', root, root');
    GrownFirstDirs(ms, ms', root, root');
    forall f { GrownNeeds(ms, ms', root, root', f); }
    hide Grown, FirstDirs, Needs, AllDirs;
    forall s: set<string> | Closed(AllDirs(ms'), FirstDirs(ms', root'), Needs(ms'), s) ensures dir in s {
      assert Closed(AllDirs(ms), FirstDirs(ms, root), Needs(ms), s);
    }
  }

  /** Adding a dependency to any manifest never turns a green file red. */
  lemma GreenStaysGreen(fs: Fs, ms: Manifests, ms': Manifests, root: Manifest, root': Manifest, file: string)
    requires Grown(ms, root, ms', root') && FileOk(fs, ms, root, file)
    ensures FileOk(fs, ms', root', file)
  {
    if file in fs.files && OwnerOf(file).InWorkspace? {
      var dir := OwnerOf(file).dir;
      InstalledStays(ms, ms', root, root', dir);
      GrownLookups(ms, ms', root, root', "", dir);
    }
  }
}
