/**
 * scripts/infra-check-proxy.ts: the nginx locations generated from the api's prefixes, and the
 * gate that compares the prefixes with the registered routes. The gate works on path segments,
 * nginx on raw string prefixes; both relations are kept and compared.
 */
module Proxy {
  import opened Text

  datatype Zone = Zone(zone: string, burst: nat)

  /** One `location` block; every one of them passes to the api. */
  datatype Block = Block(name: string, limit: Option<Zone>)

  /** The gate's relation: the prefix itself or something under it. */
  predicate Covers(prefix: string, route: string) {
    route == prefix || StartsWith(route, prefix + "/")
  }

  // ----- the generator -----

  function Insert(x: string, xs: seq<string>): (r: seq<string>)
    ensures multiset(r) == multiset(xs) + multiset{x}
  {
    if xs == [] then [x]
    else if Less(x, xs[0]) then [x] + xs
    else
      assert xs == [xs[0]] + xs[1..];
      [xs[0]] + Insert(x, xs[1..])
  }

  function Sorted(xs: seq<string>): (r: seq<string>)
    ensures multiset(r) == multiset(xs)
  {
    if xs == [] then []
    else
      assert xs == [xs[0]] + xs[1..];
      Insert(xs[0], Sorted(xs[1..]))
  }

  /** No name comes before one that sorts below it. */
  ghost predicate Ascending(xs: seq<string>) {
    forall i, j :: 0 <= i < j < |xs| ==> !Less(xs[j], xs[i])
  }

  lemma {:induction false} InsertAscends(x: string, xs: seq<string>)
    requires Ascending(xs)
    ensures Ascending(Insert(x, xs))
  {
    hide Less;
    if xs != [] {
      LessTotal(x, xs[0]);
      if Less(x, xs[0]) {
        LessTotal(xs[0], xs[0]);
        forall j | 0 <= j < |xs| ensures !Less(xs[j], x) { NotBelow(x, xs[0], xs[j]); }
      } else {
        InsertAscends(x, xs[1..]);
        var rest := Insert(x, xs[1..]);
        forall j | 0 <= j < |rest| ensures !Less(rest[j], xs[0]) {
          assert rest[j] in multiset(rest);
          assert rest[j] == x || rest[j] in xs[1..];
        }
      }
    }
  }

  lemma NotBelow(a: string, b: string, c: string)
    requires Less(a, b) && !Less(c, b)
    ensures !Less(c, a)
  {
    hide Less;
    if Less(c, a) { LessTransitive(c, a, b); }
  }

  lemma {:induction false} SortedAscends(xs: seq<string>)
    ensures Ascending(Sorted(xs))
  {
    if xs != [] {
      SortedAscends(xs[1..]);
      InsertAscends(xs[0], Sorted(xs[1..]));
    }
  }

  function Without(xs: seq<string>, out: seq<string>): (r: seq<string>)
    ensures forall x :: x in r <==> x in xs && x !in out
    ensures forall x :: multiset(r)[x] == if x in out then 0 else multiset(xs)[x]
  {
    if xs == [] then []
    else
      assert xs == [xs[0]] + xs[1..];
      (if xs[0] in out then [] else [xs[0]]) + Without(xs[1..], out)
  }

  function BlocksOf(names: seq<string>, zones: map<string, Zone>): (blocks: seq<Block>)
    ensures |blocks| == |names|
    ensures forall i :: 0 <= i < |names| ==>
              blocks[i] == Block(names[i], if names[i] in zones then Some(zones[names[i]]) else None)
  {
    seq(|names|, i requires 0 <= i < |names| =>
      Block(names[i], if names[i] in zones then Some(zones[names[i]]) else None))
  }

  /**
   * A block for each prefix, merged with the zone of the same name, then a block for each zone
   * that is no prefix. `zoneKeys` is `Object.keys(zones)`.
   */
  function RenderLocations(prefixes: seq<string>, zones: map<string, Zone>, zoneKeys: seq<string>): seq<Block> {
    BlocksOf(Sorted(prefixes), zones) + BlocksOf(Sorted(Without(zoneKeys, prefixes)), zones)
  }

  function Names(blocks: seq<Block>): (names: seq<string>)
    ensures |names| == |blocks| && forall i :: 0 <= i < |blocks| ==> names[i] == blocks[i].name
  {
    seq(|blocks|, i requires 0 <= i < |blocks| => blocks[i].name)
  }

  ghost predicate Once(xs: seq<string>) {
    forall x :: multiset(xs)[x] <= 1
  }

  ghost predicate KeysOf(zoneKeys: seq<string>, zones: map<string, Zone>) {
    Once(zoneKeys) && forall k :: k in zoneKeys <==> k in zones
  }

  lemma NamesOfBlocks(names: seq<string>, zones: map<string, Zone>)
    ensures Names(BlocksOf(names, zones)) == names
  {}

  lemma NamesOfBoth(a: seq<Block>, b: seq<Block>)
    ensures Names(a + b) == Names(a) + Names(b)
  {}

  /** The blocks' names are the prefixes and the other zone keys, each as often as it is listed. */
  lemma NamesAreExact(prefixes: seq<string>, zones: map<string, Zone>, zoneKeys: seq<string>)
    ensures multiset(Names(RenderLocations(prefixes, zones, zoneKeys)))
         == multiset(prefixes) + multiset(Without(zoneKeys, prefixes))
  {
    hide Names, BlocksOf, Sorted, Without;
    var a, b := Sorted(prefixes), Sorted(Without(zoneKeys, prefixes));
    NamesOfBoth(BlocksOf(a, zones), BlocksOf(b, zones));
    NamesOfBlocks(a, zones);
    NamesOfBlocks(b, zones);
    assert multiset(a + b) == multiset(a) + multiset(b);
  }

  /** The text does not depend on the order of either list: prefixes come first, in order, then the rest, in order. */
  lemma NamesInOrder(prefixes: seq<string>, zones: map<string, Zone>, zoneKeys: seq<string>)
    ensures var names := Names(RenderLocations(prefixes, zones, zoneKeys));
            |names| >= |prefixes| && Ascending(names[..|prefixes|]) && Ascending(names[|prefixes|..])
            && multiset(names[..|prefixes|]) == multiset(prefixes)
  {
    hide Names, BlocksOf, Sorted, Without, Less;
    var a, b := Sorted(prefixes), Sorted(Without(zoneKeys, prefixes));
    NamesOfBoth(BlocksOf(a, zones), BlocksOf(b, zones));
    NamesOfBlocks(a, zones);
    NamesOfBlocks(b, zones);
    SortedAscends(prefixes);
    SortedAscends(Without(zoneKeys, prefixes));
    assert |multiset(a)| == |multiset(prefixes)|;
    assert (a + b)[..|a|] == a && (a + b)[|a|..] == b;
  }

  /** nginx refuses two locations of one name: it boots exactly when no prefix is listed twice. */
  lemma NoDuplicateLocation(prefixes: seq<string>, zones: map<string, Zone>, zoneKeys: seq<string>)
    requires KeysOf(zoneKeys, zones)
    ensures Once(Names(RenderLocations(prefixes, zones, zoneKeys))) <==> Once(prefixes)
  {
    NamesAreExact(prefixes, zones, zoneKeys);
    var all := Names(RenderLocations(prefixes, zones, zoneKeys));
    forall x ensures multiset(all)[x] == if x in prefixes then multiset(prefixes)[x] else multiset(zoneKeys)[x] {
      assert multiset(all)[x] == multiset(prefixes)[x] + multiset(Without(zoneKeys, prefixes))[x];
    }
    if Once(all) {
      forall x ensures multiset(prefixes)[x] <= 1 { assert multiset(all)[x] <= 1; }
    }
  }

  lemma BlockLimit(prefixes: seq<string>, zones: map<string, Zone>, zoneKeys: seq<string>, i: nat)
    requires i < |RenderLocations(prefixes, zones, zoneKeys)|
    ensures var b := RenderLocations(prefixes, zones, zoneKeys)[i];
            b.limit == if b.name in zones then Some(zones[b.name]) else None
  {
    hide Sorted, Without, BlocksOf;
  }

  lemma BlockMeaning(prefixes: seq<string>, zones: map<string, Zone>, zoneKeys: seq<string>)
    requires KeysOf(zoneKeys, zones)
    ensures var blocks := RenderLocations(prefixes, zones, zoneKeys);
            (forall b :: b in blocks ==> (b.name in prefixes || b.name in zones)
                                         && b.limit == if b.name in zones then Some(zones[b.name]) else None) &&
            (forall n :: n in prefixes || n in zones ==> exists b :: b in blocks && b.name == n)
  {
    hide RenderLocations, Without, Names;
    var blocks := RenderLocations(prefixes, zones, zoneKeys);
    NamesAreExact(prefixes, zones, zoneKeys);
    forall b | b in blocks
      ensures (b.name in prefixes || b.name in zones)
              && b.limit == if b.name in zones then Some(zones[b.name]) else None
    {
      var i :| 0 <= i < |blocks| && blocks[i] == b;
      BlockLimit(prefixes, zones, zoneKeys, i);
      assert Names(blocks)[i] in multiset(Names(blocks));
    }
    forall n | n in prefixes || n in zones ensures exists b :: b in blocks && b.name == n {
      assert n in multiset(Names(blocks)) by {
        if n !in prefixes { assert n in Without(zoneKeys, prefixes); }
      }
      var i :| 0 <= i < |blocks| && Names(blocks)[i] == n;
      assert blocks[i] in blocks;
    }
  }

  // ----- how nginx routes -----

  /** The block of the longest name that begins the URL, against the server's own locations too. */
  ghost predicate Serves(blocks: seq<Block>, others: set<string>, b: Block, url: string) {
    b in blocks && StartsWith(url, b.name)
    && (forall c :: c in blocks && StartsWith(url, c.name) ==> |c.name| <= |b.name|)
    && (forall o :: o in others && StartsWith(url, o) ==> |o| < |b.name|)
  }

  ghost predicate ReachesApi(blocks: seq<Block>, others: set<string>, url: string) {
    exists b :: Serves(blocks, others, b, url)
  }

  /** Among names that begin the URL there is a longest. */
  lemma {:induction false} LongestName(blocks: seq<Block>, url: string) returns (b: Block)
    requires exists c :: c in blocks && StartsWith(url, c.name)
    ensures b in blocks && StartsWith(url, b.name)
    ensures forall c :: c in blocks && StartsWith(url, c.name) ==> |c.name| <= |b.name|
  {
    var init, last := blocks[..|blocks| - 1], blocks[|blocks| - 1];
    assert blocks == init + [last];
    if exists c :: c in init && StartsWith(url, c.name) {
      b := LongestName(init, url);
      if StartsWith(url, last.name) && |last.name| > |b.name| { b := last; }
    } else {
      b := last;
    }
  }

  /** A URL goes to the api exactly when a generated name begins it and no hand-written one as long does. */
  lemma ReachesApiIff(prefixes: seq<string>, zones: map<string, Zone>, zoneKeys: seq<string>, others: set<string>,
                      url: string)
    requires KeysOf(zoneKeys, zones)
    ensures ReachesApi(RenderLocations(prefixes, zones, zoneKeys), others, url)
            <==> exists n :: (n in prefixes || n in zones) && StartsWith(url, n)
                             && forall o :: o in others && StartsWith(url, o) ==> |o| < |n|
  {
    var blocks := RenderLocations(prefixes, zones, zoneKeys);
    BlockMeaning(prefixes, zones, zoneKeys);
    if n :| (n in prefixes || n in zones) && StartsWith(url, n)
            && forall o :: o in others && StartsWith(url, o) ==> |o| < |n| {
      var c :| c in blocks && c.name == n;
      var b := LongestName(blocks, url);
      assert Serves(blocks, others, b, url);
    }
    if b :| Serves(blocks, others, b, url) {
      assert b.name in prefixes || b.name in zones;
    }
  }

  // ----- the gate -----

  datatype Problem =
    | DeadExclusion(names: seq<string>)
    | Uncovered(urls: seq<string>)
    | DeadPrefix(names: seq<string>)
    | LimitOutside(names: seq<string>)
    | DeadLimit(names: seq<string>)

  /** `r.slice(r.indexOf(" ") + 1)`. */
  function UrlOf(route: string): string {
    if ' ' !in route then route
    else if route[0] == ' ' then route[1..] else UrlOf(route[1..])
  }

  function UrlSet(routes: seq<string>): set<string> {
    set r | r in routes :: UrlOf(r)
  }

  predicate SomeCovers(prefixes: seq<string>, url: string) {
    exists p :: p in prefixes && Covers(p, url)
  }

  predicate CoversSome(name: string, urls: set<string>) {
    exists u :: u in urls && Covers(name, u)
  }

  /** The names that fail `ok`, in order. */
  function CoveringNone(names: seq<string>, urls: set<string>): (r: seq<string>)
    ensures forall x :: x in r <==> x in names && !CoversSome(x, urls)
  {
    if names == [] then []
    else (if CoversSome(names[0], urls) then [] else [names[0]]) + CoveringNone(names[1..], urls)
  }

  function CoveredByNone(urls: seq<string>, prefixes: seq<string>, excluded: seq<string>): (r: seq<string>)
    ensures forall u :: u in r <==> u in urls && !SomeCovers(prefixes, u) && !SomeCovers(excluded, u)
  {
    if urls == [] then []
    else
      (if SomeCovers(prefixes, urls[0]) || SomeCovers(excluded, urls[0]) then [] else [urls[0]])
      + CoveredByNone(urls[1..], prefixes, excluded)
  }

  /** The gate's claim: routes and lists fit, with no exclusion, prefix or limit left dead. */
  ghost predicate Fits(prefixes: seq<string>, urls: set<string>, excluded: seq<string>, rateLimited: seq<string>) {
    && (forall e :: e in excluded ==> CoversSome(e, urls))
    && (forall u :: u in urls ==> SomeCovers(prefixes, u) || SomeCovers(excluded, u))
    && (forall p :: p in prefixes ==> CoversSome(p, urls))
    && (forall r :: r in rateLimited ==> SomeCovers(prefixes, r) && CoversSome(r, urls))
  }

  /** The claim in paths: a name reaches a URL that is the name itself or goes on with a slash after it. */
  lemma FitsInPaths(prefixes: seq<string>, urls: set<string>, excluded: seq<string>, rateLimited: seq<string>)
    ensures Fits(prefixes, urls, excluded, rateLimited)
            <==> && (forall e :: e in excluded ==> exists u :: u in urls && (u == e || e + "/" <= u))
                 && (forall u :: u in urls ==>
                       exists p :: (p in prefixes || p in excluded) && (u == p || p + "/" <= u))
                 && (forall p :: p in prefixes ==> exists u :: u in urls && (u == p || p + "/" <= u))
                 && (forall r :: r in rateLimited ==>
                       && (exists p :: p in prefixes && (r == p || p + "/" <= r))
                       && (exists u :: u in urls && (u == r || r + "/" <= u)))
  {
    forall n, u ensures Covers(n, u) <==> u == n || n + "/" <= u {}
    hide Covers;
  }

  /** Each list that is not empty is one problem, and nothing else is. */
  ghost predicate Reports(problems: seq<Problem>, a: seq<string>, b: seq<string>, c: seq<string>, d: seq<string>,
                          e: seq<string>) {
    forall q :: q in problems
                <==> || (q == DeadExclusion(a) && a != []) || (q == Uncovered(b) && b != [])
                     || (q == DeadPrefix(c) && c != []) || (q == LimitOutside(d) && d != [])
                     || (q == DeadLimit(e) && e != [])
  }

  lemma Kinds(problems: seq<Problem>, a: seq<string>, b: seq<string>, c: seq<string>, d: seq<string>, e: seq<string>)
    requires Reports(problems, a, b, c, d, e)
    ensures problems == [] <==> a == [] && b == [] && c == [] && d == [] && e == []
    ensures (forall l :: DeadExclusion(l) in problems ==> l == a) && (forall l :: Uncovered(l) in problems ==> l == b)
    ensures (forall l :: DeadPrefix(l) in problems ==> l == c) && (forall l :: LimitOutside(l) in problems ==> l == d)
    ensures forall l :: DeadLimit(l) in problems ==> l == e
    ensures (a != [] ==> DeadExclusion(a) in problems) && (b != [] ==> Uncovered(b) in problems)
    ensures (c != [] ==> DeadPrefix(c) in problems) && (d != [] ==> LimitOutside(d) in problems)
    ensures e != [] ==> DeadLimit(e) in problems
  {
    assert problems != [] ==> problems[0] in problems;
    assert problems == [] ==> DeadExclusion(a) !in problems && Uncovered(b) !in problems && DeadPrefix(c) !in problems
                              && LimitOutside(d) !in problems && DeadLimit(e) !in problems;
  }

  method CheckPrefixesAgainstRoutes(prefixes: seq<string>, routes: seq<string>, excluded: seq<string>,
                                    rateLimited: seq<string>)
    returns (problems: seq<Problem>)
    ensures problems == [] <==> Fits(prefixes, UrlSet(routes), excluded, rateLimited)
    ensures (exists l :: DeadExclusion(l) in problems) <==> exists e :: e in excluded && !CoversSome(e, UrlSet(routes))
    ensures (exists l :: Uncovered(l) in problems)
            <==> exists u :: u in UrlSet(routes) && !SomeCovers(prefixes, u) && !SomeCovers(excluded, u)
    ensures (exists l :: DeadPrefix(l) in problems) <==> exists p :: p in prefixes && !CoversSome(p, UrlSet(routes))
    ensures (exists l :: LimitOutside(l) in problems) <==> exists r :: r in rateLimited && !SomeCovers(prefixes, r)
    ensures (exists l :: DeadLimit(l) in problems) <==> exists r :: r in rateLimited && !CoversSome(r, UrlSet(routes))
    ensures forall l :: DeadExclusion(l) in problems ==>
              forall e :: e in l <==> e in excluded && !CoversSome(e, UrlSet(routes))
    ensures forall l :: Uncovered(l) in problems ==>
              forall u :: u in l <==> u in UrlSet(routes) && !SomeCovers(prefixes, u) && !SomeCovers(excluded, u)
    ensures forall l :: DeadPrefix(l) in problems ==>
              forall p :: p in l <==> p in prefixes && !CoversSome(p, UrlSet(routes))
    ensures forall l :: LimitOutside(l) in problems ==>
              forall r :: r in l <==> r in rateLimited && !SomeCovers(prefixes, r)
    ensures forall l :: DeadLimit(l) in problems ==>
              forall r :: r in l <==> r in rateLimited && !CoversSome(r, UrlSet(routes))
  {
    hide SomeCovers, CoversSome, CoveringNone, CoveredByNone, UrlSet, StrictlySorted, Fits, Reports;
    NoneOfNothing();
    var urlSet := UrlSet(routes);
    var urls := SortedListing(urlSet);
    var deadExclusions := CoveringNone(excluded, urlSet);
    var uncovered := CoveredByNone(urls, prefixes, excluded);
    var dead := CoveringNone(prefixes, urlSet);
    var outside := CoveredByNone(rateLimited, prefixes, []);
    var deadLimits := CoveringNone(rateLimited, urlSet);
    problems := Report(deadExclusions, uncovered, dead, outside, deadLimits);
    NoneFails(prefixes, urlSet, excluded, rateLimited);
    Kinds(problems, deadExclusions, uncovered, dead, outside, deadLimits);
    EmptyMeansNone(deadExclusions);
    EmptyMeansNone(uncovered);
    EmptyMeansNone(dead);
    EmptyMeansNone(outside);
    EmptyMeansNone(deadLimits);
  }

  /** Each list that is not empty becomes one problem. */
  method Report(deadExclusions: seq<string>, uncovered: seq<string>, dead: seq<string>, outside: seq<string>,
                deadLimits: seq<string>)
    returns (problems: seq<Problem>)
    ensures Reports(problems, deadExclusions, uncovered, dead, outside, deadLimits)
  {
    problems := [];
    if |deadExclusions| > 0 {
      problems := problems + [DeadExclusion(deadExclusions)];
    }
    if |uncovered| > 0 {
      problems := problems + [Uncovered(uncovered)];
    }
    if |dead| > 0 {
      problems := problems + [DeadPrefix(dead)];
    }
    if |outside| > 0 {
      problems := problems + [LimitOutside(outside)];
    }
    if |deadLimits| > 0 {
      problems := problems + [DeadLimit(deadLimits)];
    }
  }

  lemma NoneOfNothing()
    ensures forall u :: !SomeCovers([], u)
  {}

  lemma NoneFails(prefixes: seq<string>, urls: set<string>, excluded: seq<string>, rateLimited: seq<string>)
    ensures Fits(prefixes, urls, excluded, rateLimited)
            <==> (forall e :: e in excluded ==> CoversSome(e, urls))
                 && (forall u :: u in urls ==> SomeCovers(prefixes, u) || SomeCovers(excluded, u))
                 && (forall p :: p in prefixes ==> CoversSome(p, urls))
                 && (forall r :: r in rateLimited ==> SomeCovers(prefixes, r))
                 && (forall r :: r in rateLimited ==> CoversSome(r, urls))
  {
    hide SomeCovers, CoversSome;
  }

  lemma EmptyMeansNone(xs: seq<string>)
    ensures |xs| > 0 <==> exists x :: x in xs
  {
    if |xs| > 0 { assert xs[0] in xs; }
  }

  // ----- what the gate is worth to nginx -----

  /**
   * A silent gate: every registered URL that is not excluded reaches the api, unless a hand-written
   * location that begins it is as long as every prefix that covers it.
   */
  lemma SilentGateRoutes(prefixes: seq<string>, zones: map<string, Zone>, zoneKeys: seq<string>, others: set<string>,
                         urls: set<string>, excluded: seq<string>, url: string)
    requires KeysOf(zoneKeys, zones) && Fits(prefixes, urls, excluded, zoneKeys)
    requires url in urls && !SomeCovers(excluded, url)
    ensures || ReachesApi(RenderLocations(prefixes, zones, zoneKeys), others, url)
            || forall p :: p in prefixes && Covers(p, url) ==>
                 exists o :: o in others && StartsWith(url, o) && |p| <= |o|
    ensures exists p :: p in prefixes && Covers(p, url)
  {
    hide RenderLocations, ReachesApi, StartsWith;
    ReachesApiIff(prefixes, zones, zoneKeys, others, url);
    forall p | p in prefixes && Covers(p, url) ensures StartsWith(url, p) { CoversIsStringPrefix(p, url); }
  }

  lemma CoversIsStringPrefix(p: string, url: string)
    requires Covers(p, url)
    ensures StartsWith(url, p)
  {}

  lemma LongerOfTwoPrefixes(a: string, b: string, url: string)
    requires StartsWith(url, a) && StartsWith(url, b) && |a| <= |b|
    ensures StartsWith(b, a)
  {
    assert url[..|a|] == a && url[..|b|] == b && b[..|a|] == a;
  }

  /** A URL under a zone key is limited unless some prefix strictly longer than the key begins it. */
  lemma LimitHolds(prefixes: seq<string>, zones: map<string, Zone>, zoneKeys: seq<string>, others: set<string>,
                   key: string, url: string, b: Block)
    requires KeysOf(zoneKeys, zones) && key in zones && Covers(key, url)
    requires Serves(RenderLocations(prefixes, zones, zoneKeys), others, b, url)
    requires forall p :: p in prefixes && StartsWith(p, key) && p != key ==> !StartsWith(url, p)
    ensures b.limit.Some? && StartsWith(b.name, key)
  {
    BlockMeaning(prefixes, zones, zoneKeys);
    CoversIsStringPrefix(key, url);
    var k :| k in RenderLocations(prefixes, zones, zoneKeys) && k.name == key;
    LongerOfTwoPrefixes(key, b.name, url);
  }

  /**
   * Exactly which served URLs are limited: some zone key begins the URL, and no prefix longer than that key
   * does. The gate's own relation between names plays no part in it.
   */
  lemma LimitIff(prefixes: seq<string>, zones: map<string, Zone>, zoneKeys: seq<string>, others: set<string>,
                 url: string, b: Block)
    requires KeysOf(zoneKeys, zones) && Serves(RenderLocations(prefixes, zones, zoneKeys), others, b, url)
    ensures b.limit.Some?
            <==> exists key :: key in zones && StartsWith(url, key)
                               && forall p :: p in prefixes && StartsWith(url, p) ==> |p| <= |key|
  {
    hide RenderLocations, StartsWith;
    var blocks := RenderLocations(prefixes, zones, zoneKeys);
    BlockMeaning(prefixes, zones, zoneKeys);
    if key :| key in zones && StartsWith(url, key) && forall p :: p in prefixes && StartsWith(url, p) ==> |p| <= |key| {
      var k :| k in blocks && k.name == key;
      if b.name !in zones { SameLength(key, b.name, url); }
    }
    if b.limit.Some? {
      assert b.name in zones;
      forall p | p in prefixes && StartsWith(url, p) ensures |p| <= |b.name| {
        var k :| k in blocks && k.name == p;
      }
    }
  }

  /** A URL begins with one name of each length. */
  lemma SameLength(a: string, b: string, url: string)
    requires StartsWith(url, a) && StartsWith(url, b)
    ensures |a| == |b| ==> a == b
  {}

  /** Where the two relations part: the URL goes on after the name with something other than a slash. */
  predicate RunsOn(name: string, url: string) {
    StartsWith(url, name) && |url| > |name| && url[|name|] != '/'
  }

  lemma SegmentVersusString(name: string, url: string)
    ensures Covers(name, url) <==> StartsWith(url, name) && !RunsOn(name, url)
  {}

  /** Segment and string matching agree on all of them exactly when no URL runs on past a name. */
  lemma RelationsAgreeIff(names: set<string>, urls: set<string>)
    ensures (forall n, u :: n in names && u in urls ==> (Covers(n, u) <==> StartsWith(u, n)))
            <==> forall n, u :: n in names && u in urls ==> !RunsOn(n, u)
  {}

  /** The excluded `/metrics` begins with the prefix `/me`: the gate is silent and nginx passes it on. */
  lemma ExclusionIsNotKept()
    ensures Fits(["/me"], UrlSet(["GET /me", "GET /metrics"]), ["/metrics"], [])
    ensures ReachesApi(RenderLocations(["/me"], map[], []), {"/", "/rt"}, "/metrics")
  {
    hide UrlSet, ReachesApi, RenderLocations, StartsWith, Covers;
    UrlsOfExample();
    MetricsCoverage();
    MetricsIsUnderMe();
    assert "/me" in ["/me"];
    ReachesApiIff(["/me"], map[], [], {"/", "/rt"}, "/metrics");
  }

  lemma MetricsCoverage()
    ensures Fits(["/me"], {"/me", "/metrics"}, ["/metrics"], [])
  {
    hide StartsWith;
    assert Covers("/me", "/me") && Covers("/metrics", "/metrics");
    assert "/me" in ["/me"] && "/metrics" in ["/metrics"];
    assert "/me" in {"/me", "/metrics"} && "/metrics" in {"/me", "/metrics"};
  }

  lemma MetricsIsUnderMe()
    ensures StartsWith("/metrics", "/me") && !StartsWith("/metrics", "/rt")
  {
    assert "/metrics"[..3] == "/me";
    assert "/metrics"[1] != "/rt"[1];
  }

  lemma UrlsOfExample()
    ensures UrlSet(["GET /me", "GET /metrics"]) == {"/me", "/metrics"}
  {
    hide UrlOf;
    UrlAfterMethod("GET", "/me");
    UrlAfterMethod("GET", "/metrics");
    var routes := ["GET /me", "GET /metrics"];
    assert "GET" + " " + "/me" == routes[0] && "GET" + " " + "/metrics" == routes[1];
    assert routes[0] in routes && routes[1] in routes;
  }

  lemma RouteWithoutMethod(route: string)
    requires ' ' !in route
    ensures UrlOf(route) == route
  {}

  lemma {:induction false} UrlAfterMethod(method_: string, url: string)
    requires ' ' !in method_
    ensures UrlOf(method_ + " " + url) == url
  {
    var route := method_ + " " + url;
    assert route[|method_|] == ' ';
    if method_ == "" {
      assert route[1..] == url;
    } else {
      UrlAfterMethod(method_[1..], url);
      assert route[1..] == method_[1..] + " " + url;
      assert route[0] == method_[0] && method_[0] in method_;
    }
  }

  /**
   * What keeping a URL off the api takes, whatever the hand-written locations: every prefix and zone key
   * that begins it as a string must be met by one of them, just as long or longer, that begins it too.
   */
  lemma ExclusionIsKeptIff(prefixes: seq<string>, zones: map<string, Zone>, zoneKeys: seq<string>,
                           others: set<string>, url: string)
    requires KeysOf(zoneKeys, zones)
    ensures !ReachesApi(RenderLocations(prefixes, zones, zoneKeys), others, url)
            <==> forall n :: (n in prefixes || n in zones) && StartsWith(url, n) ==>
                   exists o :: o in others && StartsWith(url, o) && |n| <= |o|
  {
    hide RenderLocations, ReachesApi, StartsWith;
    ReachesApiIff(prefixes, zones, zoneKeys, others, url);
  }
}
