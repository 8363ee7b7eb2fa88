/**
 * What the mirror's skip rule cannot see: which patterns of crashes, and of manifests older than the
 * newest, can leave a run with a false manifest; and that a rewrite of equal size is never copied.
 */
module MirrorLimits {
  import opened Text
  import opened ObjectStore
  import opened Mirror
  import opened MirrorChain

  const K := "k"

  function Shown(body: Bytes): Sighting {
    Sighting(K, Some(|body|), Some(body), Acknowledged)
  }

  function Fresh(bucket: string): MirrorResult {
    MirrorResult(bucket, 0, 0, [], [])
  }

  lemma OneVisit(job: Job, objects: Objects, s: Sighting)
    ensures VisitAll(job, objects, [s]) == Visit(job, Progress(objects, Fresh(job.bucket)), s)
    ensures VisitAll(job, objects, []) == Progress(objects, Fresh(job.bucket))
  {}

  /** The manifest listing the one key of the snapshots bucket. */
  function OneEntry(n: Names, e: Entry): Manifest {
    Manifest("", map[n.snapshots := [e]][n.assets := []], None)
  }

  lemma PreviousOfOneEntry(n: Names, e: Entry)
    requires Named(n)
    ensures PreviousOf(Some(OneEntry(n, e)), n.snapshots) == map[e.key := e]
  {}

  /** Visiting the one key: skipped when sizes agree with the manifest, copied otherwise. */
  lemma VisitBothOne(codec: Codec, n: Names, prior: Option<Manifest>, clock: Option<int>, objects: Objects, body: Bytes)
    requires Named(n)
    ensures var both := VisitBoth(codec, n, false, prior, clock, objects, [Shown(body)], []);
            var job := JobOf(codec, n.snapshots, false, prior, clock);
            both.0 == Visit(job, Progress(objects, Fresh(n.snapshots)), Shown(body)) &&
            both.1 == Progress(both.0.objects, Fresh(n.assets))
  {
    OneVisit(JobOf(codec, n.snapshots, false, prior, clock), objects, Shown(body));
    var mid := VisitAll(JobOf(codec, n.snapshots, false, prior, clock), objects, [Shown(body)]).objects;
    OneVisit(JobOf(codec, n.assets, false, prior, clock), mid, Shown(body));
  }

  /** Three source contents: the first and third of one size. */
  const A: Bytes := [0]
  const B: Bytes := [0, 0]
  const C: Bytes := [1]

  function Listed(codec: Codec, n: Names): Manifest {
    OneEntry(n, Entry(K, 1, Some(codec.sha(A))))
  }

  /** A bucket whose manifest lists the first content and whose mirror holds `held`. */
  function Bucket(codec: Codec, n: Names, clock: Option<int>, held: Bytes): Objects {
    WithManifest(codec, map[], "1", Listed(codec, n), clock)[MirrorKeyOf(n.snapshots, K) := Object(held, clock)]
  }

  function RunOf(crashes: bool, body: Bytes): Run {
    if crashes then Crashed([Shown(body)], []) else Completed([Shown(body)], [], "1", "", None)
  }

  lemma BucketPrior(codec: Codec, n: Names, clock: Option<int>, held: Bytes)
    requires RoundTrips(codec) && Named(n)
    ensures IsPrior(codec, Bucket(codec, n, clock, held), Some(Listed(codec, n)))
    ensures forall k :: k in Bucket(codec, n, clock, held) && IsManifestKey(k) ==> k == ManifestKeyOf("1")
  {
    MirrorKeyIsNoManifest(n.snapshots, K);
    assert Newest(Bucket(codec, n, clock, held), ManifestKeyOf("1"));
  }

  lemma PreviousListed(codec: Codec, n: Names)
    requires Named(n)
    ensures PreviousOf(Some(Listed(codec, n)), n.snapshots) == map[K := Entry(K, 1, Some(codec.sha(A)))]
  {
    PreviousOfOneEntry(n, Entry(K, 1, Some(codec.sha(A))));
  }

  /** Of one byte over one byte: skipped, and listed as before. */
  lemma VisitSkips(codec: Codec, n: Names, clock: Option<int>, held: Bytes, body: Bytes)
    requires Named(n) && |held| == |body| == 1
    ensures var both := VisitBoth(codec, n, false, Some(Listed(codec, n)), clock,
                                  Bucket(codec, n, clock, held), [Shown(body)], []);
            both.1.objects == Bucket(codec, n, clock, held)
            && Manifest("", Buckets(both.0.result, both.1.result), None) == Listed(codec, n)
  {
    hide VisitBoth, ManifestKeyOf, PreviousOf;
    PreviousListed(codec, n);
    VisitBothOne(codec, n, Some(Listed(codec, n)), clock, Bucket(codec, n, clock, held), body);
    var prior, bucket := Some(Listed(codec, n)), Bucket(codec, n, clock, held);
    var both := VisitBoth(codec, n, false, prior, clock, bucket, [Shown(body)], []);
    assert both.0.result.entries == [Entry(K, 1, Some(codec.sha(A)))] && both.1.result.entries == [];
    assert Buckets(both.0.result, both.1.result) == Listed(codec, n).buckets;
  }

  /** Of another size: copied. */
  lemma VisitCopies(codec: Codec, n: Names, clock: Option<int>, held: Bytes, body: Bytes)
    requires Named(n) && |held| != |body|
    ensures VisitBoth(codec, n, false, Some(Listed(codec, n)), clock,
                      Bucket(codec, n, clock, held), [Shown(body)], []).1.objects
         == Bucket(codec, n, clock, body)
  {
    hide VisitBoth, ManifestKeyOf, PreviousOf, Listed;
    var o := Bucket(codec, n, clock, held);
    VisitBothOne(codec, n, Some(Listed(codec, n)), clock, o, body);
    assert o[MirrorKeyOf(n.snapshots, K) := Object(body, clock)] == Bucket(codec, n, clock, body);
  }

  /** What such a run leaves, and that its manifest is the newest if it completes. */
  lemma OneRun(codec: Codec, n: Names, clock: Option<int>, crashes: bool, held: Bytes, body: Bytes)
    requires RoundTrips(codec) && Named(n)
    requires |held| == |body| == 1 || (crashes && |held| != |body|)
    ensures var o := Bucket(codec, n, clock, held);
            Regular(RunOf(crashes, body)) && (Tells(o, RunOf(crashes, body)) <==> !crashes) &&
            Leaves(codec, n, clock, o, RunOf(crashes, body),
                   Bucket(codec, n, clock, if |held| == |body| then held else body))
  {
    hide IsPrior, VisitBoth, IsManifestKey, ManifestKeyOf, Less, Listed;
    BucketPrior(codec, n, clock, held);
    if |held| == |body| { VisitSkips(codec, n, clock, held, body); } else { VisitCopies(codec, n, clock, held, body); }
    var o := Bucket(codec, n, clock, held);
    assert WithManifest(codec, o, "1", Listed(codec, n), clock) == o by { MirrorKeyIsNoManifest(n.snapshots, K); }
  }

  // ----- every pattern of crashes -----

  /** `pattern` says which runs of the history crash, or complete without writing the newest manifest. */
  ghost predicate Fits(pattern: seq<bool>, states: seq<Objects>, runs: seq<Run>) {
    |pattern| == |runs| && |states| == |runs| + 1
    && forall i :: 0 <= i < |runs| ==> (pattern[i] <==> !Tells(states[i], runs[i]))
  }

  /** Two such runs one right after the other, and later one that tells. */
  ghost predicate PairThenCompletion(pattern: seq<bool>) {
    exists a, b :: 0 <= a && a + 1 < b < |pattern| && pattern[a] && pattern[a + 1] && !pattern[b]
  }

  /** Whatever the sources do, a history of that pattern has a true manifest after every run that tells. */
  ghost predicate KeepsTrue(codec: Codec, n: Names, clock: Option<int>, pattern: seq<bool>) {
    forall states: seq<Objects>, runs: seq<Run>, i: nat ::
      (IsHistory(codec, n, clock, states, runs) && Fits(pattern, states, runs) && ChainTrue(codec, n, states[0])
       && i < |runs| && Tells(states[i], runs[i]))
      ==> ChainTrue(codec, n, states[i + 1])
  }

  /** What run `j` sees when the pair is at `a`: the first content, then the second, then the third. */
  function BodyOf(a: nat, j: nat): Bytes {
    if j < a then A else if j == a then B else C
  }

  function HeldBefore(a: nat, j: nat): Bytes {
    if j <= a then A else if j == a + 1 then B else C
  }

  function RunsOf(pattern: seq<bool>, a: nat): (runs: seq<Run>)
    ensures |runs| == |pattern| && forall j :: 0 <= j < |runs| ==> runs[j] == RunOf(pattern[j], BodyOf(a, j))
  {
    seq(|pattern|, j requires 0 <= j < |pattern| => RunOf(pattern[j], BodyOf(a, j)))
  }

  function StatesOf(codec: Codec, n: Names, clock: Option<int>, length: nat, a: nat): (states: seq<Objects>)
    ensures |states| == length + 1
    ensures forall j :: 0 <= j <= length ==> states[j] == Bucket(codec, n, clock, HeldBefore(a, j))
  {
    seq(length + 1, j requires 0 <= j <= length => Bucket(codec, n, clock, HeldBefore(a, j)))
  }

  lemma PairIsAHistory(codec: Codec, n: Names, clock: Option<int>, pattern: seq<bool>, a: nat)
    requires RoundTrips(codec) && Named(n) && a + 1 < |pattern| && pattern[a] && pattern[a + 1]
    ensures IsHistory(codec, n, clock, StatesOf(codec, n, clock, |pattern|, a), RunsOf(pattern, a))
    ensures Fits(pattern, StatesOf(codec, n, clock, |pattern|, a), RunsOf(pattern, a))
  {
    hide Leaves, Regular, Bucket, Tells;
    forall j | 0 <= j < |pattern|
      ensures var o, run := Bucket(codec, n, clock, HeldBefore(a, j)), RunOf(pattern[j], BodyOf(a, j));
              Regular(run) && (Tells(o, run) <==> !pattern[j]) &&
              Leaves(codec, n, clock, o, run, Bucket(codec, n, clock, HeldBefore(a, j + 1)))
    {
      OneRun(codec, n, clock, pattern[j], HeldBefore(a, j), BodyOf(a, j));
    }
    var states, runs := StatesOf(codec, n, clock, |pattern|, a), RunsOf(pattern, a);
    forall j | 0 <= j < |runs|
      ensures Regular(runs[j]) && Leaves(codec, n, clock, states[j], runs[j], states[j + 1])
      ensures pattern[j] <==> !Tells(states[j], runs[j])
    {
      assert runs[j] == RunOf(pattern[j], BodyOf(a, j));
      assert states[j] == Bucket(codec, n, clock, HeldBefore(a, j));
      assert states[j + 1] == Bucket(codec, n, clock, HeldBefore(a, j + 1));
    }
  }

  lemma TrueAtFirst(codec: Codec, n: Names, clock: Option<int>)
    requires RoundTrips(codec) && Named(n)
    ensures ChainTrue(codec, n, Bucket(codec, n, clock, A))
  {
    hide IsPrior;
    BucketPrior(codec, n, clock, A);
    forall m | IsPrior(codec, Bucket(codec, n, clock, A), Some(m)) ensures m == Listed(codec, n) {
      PriorUnique(codec, Bucket(codec, n, clock, A), Some(m), Some(Listed(codec, n)));
    }
    MirrorKeyIsNoManifest(n.snapshots, K);
  }

  lemma FalseAtLast(codec: Codec, n: Names, clock: Option<int>)
    requires RoundTrips(codec) && Named(n) && codec.sha(A) != codec.sha(C)
    ensures !ChainTrue(codec, n, Bucket(codec, n, clock, C))
  {
    hide IsPrior;
    var e, last := Entry(K, 1, Some(codec.sha(A))), Bucket(codec, n, clock, C);
    BucketPrior(codec, n, clock, C);
    assert last[MirrorKeyOf(n.snapshots, K)].bytes == C;
    assert !Backed(codec.sha, last, n.snapshots, e);
    assert e in EntriesOf(Listed(codec, n), n.snapshots);
  }

  /**
   * Two crashes in a row, wherever they are, over a key rewritten twice: the next run that completes
   * gives the first content's hash for the third content's bytes.
   */
  lemma TwoCrashesCanFoolTheChain(codec: Codec, n: Names, clock: Option<int>, pattern: seq<bool>, a: nat, b: nat)
    requires RoundTrips(codec) && Named(n) && codec.sha(A) != codec.sha(C)
    requires a + 1 < b < |pattern| && pattern[a] && pattern[a + 1] && !pattern[b]
    ensures var states, runs := StatesOf(codec, n, clock, |pattern|, a), RunsOf(pattern, a);
            IsHistory(codec, n, clock, states, runs) && Fits(pattern, states, runs) && ChainTrue(codec, n, states[0])
            && Tells(states[b], runs[b]) && !ChainTrue(codec, n, states[b + 1])
  {
    hide IsHistory, ChainTrue, Bucket, Tells;
    PairIsAHistory(codec, n, clock, pattern, a);
    TrueAtFirst(codec, n, clock);
    FalseAtLast(codec, n, clock);
  }

  lemma NoPairKeepsTrue(codec: Codec, n: Names, clock: Option<int>, pattern: seq<bool>,
                        states: seq<Objects>, runs: seq<Run>, i: nat)
    requires RoundTrips(codec) && Named(n) && !PairThenCompletion(pattern)
    requires IsHistory(codec, n, clock, states, runs) && Fits(pattern, states, runs) && ChainTrue(codec, n, states[0])
    requires i < |runs| && Tells(states[i], runs[i])
    ensures ChainTrue(codec, n, states[i + 1])
  {
    hide Leaves, Regular, ChainTrue, RoundTrips, Named, Tells;
    var first, upto := runs[..i + 1], states[..i + 2];
    forall j | 0 < j < |first| ensures Tells(upto[j - 1], first[j - 1]) || Tells(upto[j], first[j]) {
      assert !(pattern[j - 1] && pattern[j - 1 + 1] && j - 1 + 1 < i);
    }
    ChainHolds(codec, n, clock, upto, first, i + 1);
  }

  lemma PairBreaks(codec: Codec, n: Names, clock: Option<int>, pattern: seq<bool>)
    requires RoundTrips(codec) && Named(n) && codec.sha(A) != codec.sha(C) && PairThenCompletion(pattern)
    ensures !KeepsTrue(codec, n, clock, pattern)
  {
    hide IsHistory, ChainTrue, Named, RoundTrips, RunsOf, StatesOf, Fits, Tells;
    var a, b :| 0 <= a && a + 1 < b < |pattern| && pattern[a] && pattern[a + 1] && !pattern[b];
    TwoCrashesCanFoolTheChain(codec, n, clock, pattern, a, b);
    var states, runs := StatesOf(codec, n, clock, |pattern|, a), RunsOf(pattern, a);
    assert b < |runs| && Tells(states[b], runs[b]) && !ChainTrue(codec, n, states[b + 1]);
  }

  lemma NoPairKeeps(codec: Codec, n: Names, clock: Option<int>, pattern: seq<bool>)
    requires RoundTrips(codec) && Named(n) && !PairThenCompletion(pattern)
    ensures KeepsTrue(codec, n, clock, pattern)
  {
    hide Leaves, Regular, ChainTrue, Named, RoundTrips, Fits, PairThenCompletion, Tells;
    forall states: seq<Objects>, runs: seq<Run>, i: nat
      | IsHistory(codec, n, clock, states, runs) && Fits(pattern, states, runs) && ChainTrue(codec, n, states[0])
        && i < |runs| && Tells(states[i], runs[i])
      ensures ChainTrue(codec, n, states[i + 1])
    {
      NoPairKeepsTrue(codec, n, clock, pattern, states, runs, i);
    }
  }

  /**
   * Exactly which patterns keep the manifest true after every run that tells, over all histories: those
   * in which no two runs in a row that crash or do not tell come before one that does.
   */
  lemma TrueExactlyWithoutPairs(codec: Codec, n: Names, clock: Option<int>, pattern: seq<bool>)
    requires RoundTrips(codec) && Named(n) && codec.sha(A) != codec.sha(C)
    ensures KeepsTrue(codec, n, clock, pattern) <==> !PairThenCompletion(pattern)
  {
    hide *;
    if PairThenCompletion(pattern) {
      PairBreaks(codec, n, clock, pattern);
    } else {
      NoPairKeeps(codec, n, clock, pattern);
    }
  }

  /** A rewrite of equal size is skipped: the mirror keeps the old bytes and the manifest vouches for them. */
  lemma EqualSizeRewriteIsMissed(job: Job, objects: Objects, was: Bytes, now: Bytes)
    requires |was| == |now| && K in job.previous && job.previous[K] == Entry(K, |was|, Some(job.sha(was)))
    requires MirrorKeyOf(job.bucket, K) in objects && objects[MirrorKeyOf(job.bucket, K)].bytes == was
    ensures var p := VisitAll(job, objects, [Shown(now)]);
            p.objects == objects && p.result.entries == [Entry(K, |now|, Some(job.sha(was)))]
            && p.result.failed == []
  {
    OneVisit(job, objects, Shown(now));
  }
}
