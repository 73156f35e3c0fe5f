/** Offline point-in-time replay: sorted snapshots behind a binary search. */
module Replay {
  import opened Wrappers
  import opened IsoTime
  import opened StableSort

  datatype SourceKind = EXCHANGE | AGGREGATOR | MACRO | NEWS | MARKET_INDEX

  datatype Quality = VALID | STALE | INCOMPLETE | GAPPED | CONFLICTING | INVALID | UNAVAILABLE

  datatype Provenance = Provenance(source: string, reference: string, schemaVersion: string)

  datatype Metadata = Metadata(sourceKind: SourceKind, topic: string, receivedAt: Instant, observedAt: Option<Instant>,
                               publishedAt: Option<Instant>, effectiveAt: Option<Instant>, availableAt: Option<Instant>,
                               quality: Quality, provenance: Option<Provenance>)

  datatype Snapshot = Snapshot(metadata: Metadata, values: map<string, string>)

  datatype BuildError = NO_SNAPSHOTS | MISSING_AVAILABLE_AT | NOT_STRICTLY_INCREASING

  /** When a snapshot became available; only asked of snapshots that say so. */
  function Available(s: Snapshot): int
  {
    match s.metadata.availableAt case Some(t) => t case None => 0
  }

  predicate AllTimed(snapshots: seq<Snapshot>)
  {
    forall i :: 0 <= i < |snapshots| ==> snapshots[i].metadata.availableAt.Some?
  }

  predicate StrictNext(sorted: seq<Snapshot>)
  {
    forall i :: 0 <= i < |sorted| - 1 ==> Available(sorted[i]) < Available(sorted[i + 1])
  }

  /** `ReplayFixtureDataSource.__init__`: the sorted snapshots, or the ValueError. */
  function Source(snapshots: seq<Snapshot>): Result<seq<Snapshot>, BuildError>
  {
    if |snapshots| == 0 then Err(NO_SNAPSHOTS)
    else if !AllTimed(snapshots) then Err(MISSING_AVAILABLE_AT)
    else if !StrictNext(SortBy(Available, snapshots)) then Err(NOT_STRICTLY_INCREASING)
    else Ok(SortBy(Available, snapshots))
  }

  method Build(snapshots: seq<Snapshot>) returns (r: Result<seq<Snapshot>, BuildError>)
    ensures r == Source(snapshots)
  {
    if |snapshots| == 0 {
      return Err(NO_SNAPSHOTS);
    }
    var copied := [];
    for i := 0 to |snapshots|
      invariant copied == snapshots[..i] && AllTimed(copied)
    {
      if snapshots[i].metadata.availableAt.None? {
        return Err(MISSING_AVAILABLE_AT);
      }
      copied := copied + [snapshots[i]];
    }
    assert copied == snapshots;
    copied := SortBy(Available, copied);
    if !StrictNext(copied) {
      return Err(NOT_STRICTLY_INCREASING);
    }
    r := Ok(copied);
  }

  // ---------------------------------------------------------------- lookup

  /** `bisect_right(times, x)` between `lo` and `hi`. */
  function BisectRight(times: seq<int>, x: int, lo: nat, hi: nat): (r: nat)
    requires lo <= hi <= |times|
    ensures lo <= r <= hi
    decreases hi - lo
  {
    if lo == hi then lo
    else
      var mid := (lo + hi) / 2;
      if x < times[mid] then BisectRight(times, x, lo, mid) else BisectRight(times, x, mid + 1, hi)
  }

  function Times(sorted: seq<Snapshot>): seq<int>
  {
    seq(|sorted|, i requires 0 <= i < |sorted| => Available(sorted[i]))
  }

  /** How many snapshots the search finds available by `asOf`. */
  function CountAvailable(sorted: seq<Snapshot>, asOf: Instant): (k: nat)
    ensures k <= |sorted|
  {
    BisectRight(Times(sorted), asOf, 0, |sorted|)
  }

  function SourceId(provenance: Option<Provenance>): string
  {
    match provenance case Some(p) => p.source case None => "replay-fixture"
  }

  /** The answer when nothing was available yet. */
  function Unavailable(first: Snapshot, asOf: Instant): Snapshot
  {
    Snapshot(Metadata(first.metadata.sourceKind, first.metadata.topic, asOf, None, None, None, Some(asOf),
                      UNAVAILABLE, first.metadata.provenance),
             map["source_id" := SourceId(first.metadata.provenance),
                 "error_class" := "pit_unavailable",
                 "error_detail" := "no_snapshot_available_at_or_before_as_of"])
  }

  /** `fetch_snapshot`. */
  function Fetch(sorted: seq<Snapshot>, asOf: Option<Instant>): Snapshot
    requires |sorted| > 0
  {
    match asOf
    case None => sorted[|sorted| - 1]
    case Some(t) =>
      var index := CountAvailable(sorted, t) - 1;
      if index < 0 then Unavailable(sorted[0], t) else sorted[index]
  }

  // ---------------------------------------------------------------- the simple form

  /** One pass over the snapshots in any order: the latest of those available by `asOf`. */
  function Scan(snapshots: seq<Snapshot>, asOf: Instant): Option<Snapshot>
  {
    if |snapshots| == 0 then None
    else
      var n := |snapshots| - 1;
      var s, best := snapshots[n], Scan(snapshots[..n], asOf);
      if Available(s) > asOf then best
      else if best.Some? && Available(best.value) > Available(s) then best
      else Some(s)
  }

  predicate Strict(sorted: seq<Snapshot>)
  {
    forall i, j :: 0 <= i < j < |sorted| ==> Available(sorted[i]) < Available(sorted[j])
  }

  lemma {:induction false} NextMeansStrict(sorted: seq<Snapshot>)
    requires StrictNext(sorted)
    ensures Strict(sorted)
    decreases |sorted|
  {
    if |sorted| > 0 {
      var n := |sorted| - 1;
      NextMeansStrict(sorted[..n]);
      assert forall i, j :: 0 <= i < j < n ==> sorted[..n][i] == sorted[i] && sorted[..n][j] == sorted[j];
      assert n > 0 ==> Available(sorted[n - 1]) < Available(sorted[n]);
    }
  }

  predicate SplitsAt(times: seq<int>, x: int, k: nat)
  {
    k <= |times| && forall i :: 0 <= i < |times| ==> (times[i] <= x <==> i < k)
  }

  predicate TimesStrict(times: seq<int>)
  {
    forall i, j :: 0 <= i < j < |times| ==> times[i] < times[j]
  }

  /** On ascending times, halving finds the one split point. */
  lemma {:induction false} BisectSplits(times: seq<int>, x: int, lo: nat, hi: nat)
    requires TimesStrict(times) && lo <= hi <= |times|
    requires forall i :: 0 <= i < lo ==> times[i] <= x
    requires forall i :: hi <= i < |times| ==> times[i] > x
    ensures SplitsAt(times, x, BisectRight(times, x, lo, hi))
    decreases hi - lo
  {
    if lo < hi {
      var mid := (lo + hi) / 2;
      if x < times[mid] { BisectSplits(times, x, lo, mid); } else { BisectSplits(times, x, mid + 1, hi); }
    }
  }

  ghost predicate IsLatest(snapshots: multiset<Snapshot>, asOf: Instant, s: Snapshot)
  {
    && s in snapshots && Available(s) <= asOf
    && forall u :: u in snapshots && Available(u) <= asOf ==> u == s || Available(u) < Available(s)
  }

  ghost predicate NoneAvailable(snapshots: multiset<Snapshot>, asOf: Instant)
  {
    forall u :: u in snapshots ==> Available(u) > asOf
  }

  /** No two different snapshots became available at the same time. */
  ghost predicate TimesDiffer(snapshots: multiset<Snapshot>)
  {
    forall s, u :: s in snapshots && u in snapshots && Available(s) == Available(u) ==> s == u
  }

  lemma {:induction false} ScanMeans(snapshots: seq<Snapshot>, asOf: Instant)
    requires TimesDiffer(multiset(snapshots))
    ensures match Scan(snapshots, asOf)
            case None => NoneAvailable(multiset(snapshots), asOf)
            case Some(s) => IsLatest(multiset(snapshots), asOf, s)
    decreases |snapshots|
  {
    hide Available;
    if |snapshots| > 0 {
      var n := |snapshots| - 1;
      assert snapshots == snapshots[..n] + [snapshots[n]];
      ScanMeans(snapshots[..n], asOf);
    }
  }

  lemma StrictDiffer(sorted: seq<Snapshot>)
    requires Strict(sorted)
    ensures TimesDiffer(multiset(sorted))
  {
    forall s, u | s in multiset(sorted) && u in multiset(sorted) && Available(s) == Available(u) ensures s == u {
      var i :| 0 <= i < |sorted| && sorted[i] == s;
      var j :| 0 <= j < |sorted| && sorted[j] == u;
    }
  }

  lemma CountSplits(sorted: seq<Snapshot>, asOf: Instant)
    requires Strict(sorted)
    ensures forall i :: 0 <= i < |sorted| ==> (Available(sorted[i]) <= asOf <==> i < CountAvailable(sorted, asOf))
  {
    var times := Times(sorted);
    hide BisectRight, Available;
    BisectSplits(times, asOf, 0, |times|);
    assert forall i :: 0 <= i < |sorted| ==> Available(sorted[i]) == times[i];
  }

  /** What a lookup returns, on any accepted input: the latest snapshot available by `asOf`
      when there is one, and otherwise the stand-in built from the earliest. */
  lemma FetchMeans(sorted: seq<Snapshot>, asOf: Instant)
    requires |sorted| > 0 && Strict(sorted)
    ensures var s := Fetch(sorted, Some(asOf));
            if NoneAvailable(multiset(sorted), asOf) then s == Unavailable(sorted[0], asOf)
            else IsLatest(multiset(sorted), asOf, s)
  {
    hide Available, CountAvailable, Unavailable;
    var k := CountAvailable(sorted, asOf);
    CountSplits(sorted, asOf);
    if k == 0 {
      assert NoneAvailable(multiset(sorted), asOf);
    } else {
      assert sorted[k - 1] in multiset(sorted);
      forall u | u in multiset(sorted) && Available(u) <= asOf
        ensures u == sorted[k - 1] || Available(u) < Available(sorted[k - 1]) {
        var i :| 0 <= i < |sorted| && sorted[i] == u;
        assert i < k;
      }
    }
  }

  lemma SourceIsSorted(snapshots: seq<Snapshot>)
    requires Source(snapshots).Ok?
    ensures var sorted := Source(snapshots).value;
            |sorted| == |snapshots| > 0 && Strict(sorted) && multiset(sorted) == multiset(snapshots)
  {
    SortPermutes(Available, snapshots);
    NextMeansStrict(SortBy(Available, snapshots));
  }

  /** Sorting and halving is the plain scan of the snapshots as they were given. */
  lemma FetchIsScan(snapshots: seq<Snapshot>, asOf: Instant)
    requires Source(snapshots).Ok?
    ensures Fetch(Source(snapshots).value, Some(asOf))
            == match Scan(snapshots, asOf)
               case Some(s) => s
               case None => Unavailable(Source(snapshots).value[0], asOf)
  {
    hide Source, Fetch, Scan;
    var sorted := Source(snapshots).value;
    SourceIsSorted(snapshots);
    StrictDiffer(sorted);
    FetchMeans(sorted, asOf);
    ScanMeans(snapshots, asOf);
    LatestUnique(multiset(snapshots), asOf);
  }

  lemma LatestUnique(snapshots: multiset<Snapshot>, asOf: Instant)
    ensures forall s, u :: IsLatest(snapshots, asOf, s) && IsLatest(snapshots, asOf, u) ==> s == u
    ensures forall s :: IsLatest(snapshots, asOf, s) ==> !NoneAvailable(snapshots, asOf)
  {
  }

  // ---------------------------------------------------------------- consequences

  /** Never from the future, and never backwards: a later `asOf` never gets an earlier
      snapshot, nor falls back to the stand-in. */
  lemma FetchIsMonotone(snapshots: seq<Snapshot>, earlier: Instant, later: Instant)
    requires Source(snapshots).Ok? && earlier <= later
    ensures var sorted := Source(snapshots).value;
            var e, l := Fetch(sorted, Some(earlier)), Fetch(sorted, Some(later));
            && Available(e) <= earlier && Available(e) <= Available(l) <= later
            && (e in snapshots ==> l in snapshots)
  {
    hide Source, Fetch;
    var sorted := Source(snapshots).value;
    SourceIsSorted(snapshots);
    FetchMeans(sorted, earlier);
    FetchMeans(sorted, later);
    var e, l := Fetch(sorted, Some(earlier)), Fetch(sorted, Some(later));
    assert forall s: Snapshot :: s in snapshots <==> s in multiset(snapshots);
  }

  lemma TimesOfLast(snapshots: seq<Snapshot>)
    requires Source(snapshots).Ok?
    ensures var last := Fetch(Source(snapshots).value, None);
            && last in multiset(snapshots)
            && forall s :: s in multiset(snapshots) ==> s == last || Available(s) < Available(last)
  {
    hide Source;
    var sorted := Source(snapshots).value;
    SourceIsSorted(snapshots);
    var last := sorted[|sorted| - 1];
    assert last in multiset(sorted);
    forall s | s in multiset(sorted) ensures s == last || Available(s) < Available(last) {
      var i :| 0 <= i < |sorted| && sorted[i] == s;
    }
  }

  lemma LastsAgree(strict: seq<Snapshot>, other: seq<Snapshot>)
    requires Strict(strict) && AscendsBy(Available, other) && multiset(strict) == multiset(other)
    requires |strict| == |other| > 0
    ensures strict[|strict| - 1] == other[|other| - 1]
  {
    hide Available;
    var n := |strict| - 1;
    LastIsLargest(Available, other);
    assert strict[n] in multiset(other) && other[n] in multiset(strict);
    var i :| 0 <= i < |other| && other[i] == strict[n];
    var j :| 0 <= j < |strict| && strict[j] == other[n];
  }

  lemma WithoutLast(a: seq<Snapshot>, b: seq<Snapshot>)
    requires |a| == |b| > 0 && a[|a| - 1] == b[|b| - 1] && multiset(a) == multiset(b)
    ensures multiset(a[..|a| - 1]) == multiset(b[..|b| - 1])
  {
    var n := |a| - 1;
    assert a == a[..n] + [a[n]] && b == b[..n] + [b[n]];
    assert multiset(a[..n]) == multiset(a) - multiset{a[n]};
    assert multiset(b[..n]) == multiset(b) - multiset{b[n]};
  }

  lemma {:induction false} SortedOnce(strict: seq<Snapshot>, other: seq<Snapshot>)
    requires Strict(strict) && AscendsBy(Available, other) && multiset(strict) == multiset(other)
    ensures strict == other
    decreases |strict|
  {
    hide Available;
    assert |strict| == |multiset(strict)| == |other|;
    if |strict| > 0 {
      var n := |strict| - 1;
      LastsAgree(strict, other);
      WithoutLast(strict, other);
      SortedOnce(strict[..n], other[..n]);
    }
  }

  lemma StrictAscends(sorted: seq<Snapshot>)
    requires StrictNext(sorted)
    ensures Strict(sorted) && AscendsBy(Available, sorted)
  {
    NextMeansStrict(sorted);
  }

  /** The order in which snapshots are given does not matter: the same source, or the same
      refusal. */
  lemma InputOrderIrrelevant(a: seq<Snapshot>, b: seq<Snapshot>)
    requires multiset(a) == multiset(b)
    ensures Source(a) == Source(b)
  {
    assert |a| == |multiset(a)| == |b|;
    SameTimed(a, b);
    SameTimed(b, a);
    hide AllTimed;
    var x, y := SortBy(Available, a), SortBy(Available, b);
    SortPermutes(Available, a);
    SortPermutes(Available, b);
    SortOrders(Available, a);
    SortOrders(Available, b);
    if StrictNext(x) {
      StrictAscends(x);
      SortedOnce(x, y);
    } else if StrictNext(y) {
      StrictAscends(y);
      SortedOnce(y, x);
    }
  }

  lemma SameTimed(a: seq<Snapshot>, b: seq<Snapshot>)
    requires multiset(a) == multiset(b)
    ensures AllTimed(a) ==> AllTimed(b)
  {
    if AllTimed(a) {
      forall i | 0 <= i < |b| ensures b[i].metadata.availableAt.Some? {
        assert b[i] in multiset(a);
      }
    }
  }

  predicate DistinctTimes(snapshots: seq<Snapshot>)
  {
    forall i, j :: 0 <= i < j < |snapshots| ==> Available(snapshots[i]) != Available(snapshots[j])
  }

  lemma {:induction false} DistinctTimesCountOnce(snapshots: seq<Snapshot>, s: Snapshot)
    requires DistinctTimes(snapshots)
    ensures multiset(snapshots)[s] <= 1
    decreases |snapshots|
  {
    if |snapshots| > 0 {
      var n := |snapshots| - 1;
      DistinctTimesCountOnce(snapshots[..n], s);
      assert snapshots == snapshots[..n] + [snapshots[n]];
      if s == snapshots[n] {
        assert forall i :: 0 <= i < n ==> snapshots[..n][i] == snapshots[i];
        assert s !in snapshots[..n];
        assert s !in multiset(snapshots[..n]);
      }
    }
  }

  lemma RepeatedCountsTwice(snapshots: seq<Snapshot>, i: nat, j: nat)
    requires i < j < |snapshots| && snapshots[i] == snapshots[j]
    ensures multiset(snapshots)[snapshots[i]] >= 2
  {
    assert snapshots == snapshots[..j] + [snapshots[j]] + snapshots[j + 1..];
    assert snapshots[..j][i] == snapshots[i];
    assert snapshots[i] in multiset(snapshots[..j]);
  }

  lemma DistinctTimesPermute(a: seq<Snapshot>, b: seq<Snapshot>)
    requires multiset(a) == multiset(b) && DistinctTimes(a)
    ensures DistinctTimes(b)
  {
    forall i, j | 0 <= i < j < |b| ensures Available(b[i]) != Available(b[j]) {
      assert b[i] in multiset(a) && b[j] in multiset(a);
      var p :| 0 <= p < |a| && a[p] == b[i];
      var q :| 0 <= q < |a| && a[q] == b[j];
      if p == q {
        RepeatedCountsTwice(b, i, j);
        DistinctTimesCountOnce(a, b[i]);
      }
    }
  }

  /** A source exists exactly when there are snapshots, each says when it became available,
      and no two say the same. */
  lemma SourceExistsIff(snapshots: seq<Snapshot>)
    ensures Source(snapshots).Ok? <==> |snapshots| > 0 && AllTimed(snapshots) && DistinctTimes(snapshots)
  {
    hide AllTimed;
    var sorted := SortBy(Available, snapshots);
    SortPermutes(Available, snapshots);
    SortOrders(Available, snapshots);
    if StrictNext(sorted) {
      NextMeansStrict(sorted);
      DistinctTimesPermute(sorted, snapshots);
    }
    if DistinctTimes(snapshots) {
      DistinctTimesPermute(snapshots, sorted);
    }
  }

  /** What the stand-in takes over from a snapshot. */
  predicate SameOrigin(a: Snapshot, b: Snapshot)
  {
    && a.metadata.sourceKind == b.metadata.sourceKind && a.metadata.topic == b.metadata.topic
    && a.metadata.provenance == b.metadata.provenance
  }

  lemma StandInsAgree(a: Snapshot, b: Snapshot, asOf: Instant)
    ensures Unavailable(a, asOf) == Unavailable(b, asOf) <==> SameOrigin(a, b)
  {
  }

  predicate SomeAvailable(snapshots: seq<Snapshot>, asOf: Instant)
  {
    exists i :: 0 <= i < |snapshots| && Available(snapshots[i]) <= asOf
  }

  lemma SomeOrNone(snapshots: seq<Snapshot>, asOf: Instant)
    ensures SomeAvailable(snapshots, asOf) <==> !NoneAvailable(multiset(snapshots), asOf)
  {
    if SomeAvailable(snapshots, asOf) {
      var i :| 0 <= i < |snapshots| && Available(snapshots[i]) <= asOf;
      assert snapshots[i] in multiset(snapshots);
    }
  }

  lemma LatestAmongLater(snapshots: seq<Snapshot>, later: seq<Snapshot>, asOf: Instant, s: Snapshot)
    requires forall u :: u in later ==> Available(u) > asOf
    ensures IsLatest(multiset(snapshots + later), asOf, s) <==> IsLatest(multiset(snapshots), asOf, s)
    ensures NoneAvailable(multiset(snapshots + later), asOf) <==> NoneAvailable(multiset(snapshots), asOf)
  {
    hide Available;
    assert multiset(snapshots + later) == multiset(snapshots) + multiset(later);
    assert forall u :: u in multiset(later) ==> u in later;
    assert forall u :: u in multiset(snapshots) ==> u in multiset(snapshots + later);
  }

  /** Point in time: adding snapshots that became available later leaves an answer as it was if
      and only if some snapshot was available by then, or the stand-ins agree because the
      earliest snapshot of either source has the same kind, topic and provenance. */
  lemma LaterSnapshotsChangeNothing(snapshots: seq<Snapshot>, later: seq<Snapshot>, asOf: Instant)
    requires Source(snapshots).Ok? && Source(snapshots + later).Ok?
    requires forall s :: s in later ==> Available(s) > asOf
    ensures var few, all := Source(snapshots).value, Source(snapshots + later).value;
            && |few| > 0 && |all| > 0
            && (Fetch(all, Some(asOf)) == Fetch(few, Some(asOf))
                <==> SomeAvailable(snapshots, asOf) || SameOrigin(few[0], all[0]))
  {
    hide Source, Fetch, Available, IsLatest, NoneAvailable, SomeAvailable, Unavailable, SameOrigin;
    var few, all := Source(snapshots).value, Source(snapshots + later).value;
    SourceIsSorted(snapshots);
    SourceIsSorted(snapshots + later);
    FetchMeans(few, asOf);
    FetchMeans(all, asOf);
    SomeOrNone(snapshots, asOf);
    LatestAmongLater(snapshots, later, asOf, Fetch(few, Some(asOf)));
    LatestUnique(multiset(snapshots + later), asOf);
    StandInsAgree(few[0], all[0], asOf);
  }

  function SampleSnapshot(topic: string, available: Instant): Snapshot
  {
    Snapshot(Metadata(EXCHANGE, topic, available, None, None, None, Some(available), VALID, None), map[])
  }

  /** It does change: asked for time 1, a source of one snapshot that becomes available at 10
      answers otherwise once a snapshot that becomes available at 5 is added. */
  lemma StandInLooksAhead()
    ensures var few := [SampleSnapshot("a", 10)];
            var all := few + [SampleSnapshot("b", 5)];
            && Source(few).Ok? && Source(all).Ok? && |Source(few).value| > 0 && |Source(all).value| > 0
            && Fetch(Source(all).value, Some(1)) != Fetch(Source(few).value, Some(1))
  {
    var few, later := [SampleSnapshot("a", 10)], [SampleSnapshot("b", 5)];
    SamplesAccepted();
    hide Source, Fetch, SampleSnapshot;
    LaterSnapshotsChangeNothing(few, later, 1);
    SampleHeads();
    assert forall s :: s in later ==> s == SampleSnapshot("b", 5);
  }

  lemma SamplesAccepted()
    ensures Source([SampleSnapshot("a", 10)]).Ok?
    ensures Source([SampleSnapshot("a", 10)] + [SampleSnapshot("b", 5)]).Ok?
    ensures !SomeAvailable([SampleSnapshot("a", 10)], 1) && Available(SampleSnapshot("b", 5)) == 5
  {
    SourceExistsIff([SampleSnapshot("a", 10)]);
    SourceExistsIff([SampleSnapshot("a", 10)] + [SampleSnapshot("b", 5)]);
    hide Source;
  }

  /** The two sources start with different snapshots. */
  lemma SampleHeads()
    ensures var few := Source([SampleSnapshot("a", 10)]);
            var all := Source([SampleSnapshot("a", 10)] + [SampleSnapshot("b", 5)]);
            && few.Ok? && all.Ok? && |few.value| > 0 && |all.value| > 0
            && !SameOrigin(few.value[0], all.value[0])
  {
    var a, b := SampleSnapshot("a", 10), SampleSnapshot("b", 5);
    SamplesAccepted();
    SourceIsSorted([a]);
    SourceIsSorted([a] + [b]);
    hide Source, SomeAvailable;
    var one, two := Source([a]).value, Source([a] + [b]).value;
    assert multiset([a] + [b]) == multiset{a, b};
    assert one[0] in multiset(one) && two[0] in multiset(two) && two[1] in multiset(two);
    assert a.metadata.topic[0] != b.metadata.topic[0];
  }

  // ---------------------------------------------------------------- answers in fields

  predicate AvailableBy(s: Snapshot, asOf: Instant)
  {
    s.metadata.availableAt.Some? && s.metadata.availableAt.value <= asOf
  }

  /** `a` became available before `b`. */
  predicate Earlier(a: Snapshot, b: Snapshot)
  {
    && a.metadata.availableAt.Some? && b.metadata.availableAt.Some?
    && a.metadata.availableAt.value < b.metadata.availableAt.value
  }

  /** The stand-in for a time at which nothing was available. */
  predicate IsStandIn(s: Snapshot, first: Snapshot, asOf: Instant)
  {
    && s.metadata.sourceKind == first.metadata.sourceKind && s.metadata.topic == first.metadata.topic
    && s.metadata.provenance == first.metadata.provenance && s.metadata.quality == UNAVAILABLE
    && s.metadata.receivedAt == asOf && s.metadata.availableAt == Some(asOf)
    && s.metadata.observedAt.None? && s.metadata.publishedAt.None? && s.metadata.effectiveAt.None?
    && s.values.Keys == {"source_id", "error_class", "error_detail"}
    && s.values["error_class"] == "pit_unavailable"
    && s.values["error_detail"] == "no_snapshot_available_at_or_before_as_of"
    && s.values["source_id"] == match first.metadata.provenance
                                case Some(p) => p.source
                                case None => "replay-fixture"
  }

  lemma StandInMeans(first: Snapshot, asOf: Instant)
    ensures IsStandIn(Unavailable(first, asOf), first, asOf)
  {
    assert "source_id"[0] != "error_class"[0] && "source_id"[0] != "error_detail"[0];
    assert |"error_class"| != |"error_detail"|;
  }

  /** Which error refuses a source: none given, a time missing, or two at one time. */
  lemma SourceAnswers(snapshots: seq<Snapshot>)
    ensures Source(snapshots) == Err(NO_SNAPSHOTS) <==> |snapshots| == 0
    ensures Source(snapshots) == Err(MISSING_AVAILABLE_AT) <==>
              exists i :: 0 <= i < |snapshots| && snapshots[i].metadata.availableAt.None?
    ensures Source(snapshots) == Err(NOT_STRICTLY_INCREASING) <==>
              && |snapshots| > 0
              && (forall i :: 0 <= i < |snapshots| ==> snapshots[i].metadata.availableAt.Some?)
              && exists i, j :: && 0 <= i < j < |snapshots|
                                && snapshots[i].metadata.availableAt == snapshots[j].metadata.availableAt
  {
    SourceExistsIff(snapshots);
    if AllTimed(snapshots) {
      assert DistinctTimes(snapshots) <==>
        forall i, j :: 0 <= i < j < |snapshots| ==>
          snapshots[i].metadata.availableAt != snapshots[j].metadata.availableAt by {
        forall i: nat, j: nat | i < j < |snapshots|
          ensures Available(snapshots[i]) == Available(snapshots[j]) <==>
                    snapshots[i].metadata.availableAt == snapshots[j].metadata.availableAt
        {
          assert snapshots[i].metadata.availableAt.Some? && snapshots[j].metadata.availableAt.Some?;
        }
      }
    }
  }

  /** The answer of an accepted source at a time, in the times of the snapshots it was given: the
      latest one available by then, or the stand-in made from the earliest of all. */
  lemma FetchAnswers(snapshots: seq<Snapshot>, asOf: Instant)
    requires Source(snapshots).Ok?
    ensures |Source(snapshots).value| > 0
    ensures var s := Fetch(Source(snapshots).value, Some(asOf));
            if exists u :: u in snapshots && AvailableBy(u, asOf) then
              && s in snapshots && AvailableBy(s, asOf)
              && forall u :: u in snapshots && AvailableBy(u, asOf) ==> u == s || Earlier(u, s)
            else
              exists first :: && first in snapshots && IsStandIn(s, first, asOf)
                              && forall u :: u in snapshots ==> u == first || Earlier(first, u)
  {
    var sorted := Source(snapshots).value;
    SourceIsSorted(snapshots);
    SourceExistsIff(snapshots);
    FetchMeans(sorted, asOf);
    StandInMeans(sorted[0], asOf);
    SameElements(sorted, snapshots);
    FirstIsEarliest(sorted, snapshots);
    hide Source, Fetch, Unavailable, IsStandIn, Strict;
    assert NoneAvailable(multiset(sorted), asOf) <==> !exists u :: u in snapshots && AvailableBy(u, asOf);
  }

  lemma FirstIsEarliest(sorted: seq<Snapshot>, snapshots: seq<Snapshot>)
    requires |sorted| > 0 && Strict(sorted) && AllTimed(snapshots) && multiset(sorted) == multiset(snapshots)
    ensures sorted[0] in snapshots
    ensures forall u :: u in snapshots ==> u.metadata.availableAt.Some? && (u == sorted[0] || Earlier(sorted[0], u))
  {
    SameElements(sorted, snapshots);
    assert sorted[0] in sorted;
    forall u | u in snapshots
      ensures u.metadata.availableAt.Some? && (u == sorted[0] || Earlier(sorted[0], u))
    {
      var i :| 0 <= i < |sorted| && sorted[i] == u;
    }
  }

  lemma SameElements(sorted: seq<Snapshot>, snapshots: seq<Snapshot>)
    requires multiset(sorted) == multiset(snapshots)
    ensures forall u :: u in sorted <==> u in snapshots
    ensures forall u :: u in multiset(sorted) <==> u in snapshots
  {
    forall u ensures u in sorted <==> u in snapshots {
      assert u in sorted <==> u in multiset(sorted);
      assert u in snapshots <==> u in multiset(snapshots);
    }
  }
}
