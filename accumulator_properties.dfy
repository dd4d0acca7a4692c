/**
 * The accumulator filters over a sequence of accept calls: IfAccumulatedFileCount and
 * IfAccumulatedFileSize add every file they are shown to their running total, accept only
 * once the total is strictly above the threshold, and ask their nested conditions only then.
 */
module AccumulatorProperties {
  import opened Paths
  import opened PathConditions
  import opened ConditionProperties
  import Durations

  /** The state after showing the files of vs to c, one accept call each, in order. */
  function Walk(c: Condition, s: State, vs: seq<Visit>, m: Matcher): State
    decreases |vs|
  {
    if vs == [] then s else Accept(c, Walk(c, s, vs[..|vs| - 1], m), vs[|vs| - 1], m).after
  }

  /** The total size in bytes of the files of vs. */
  function SumSizes(vs: seq<Visit>): nat
    decreases |vs|
  {
    if vs == [] then 0 else SumSizes(vs[..|vs| - 1]) + vs[|vs| - 1].attrs.size
  }

  /** The state after showing the same file to c k times in a row. */
  function Repeat(c: Condition, s: State, v: Visit, m: Matcher, k: nat): State
    decreases k
  {
    if k == 0 then s else Accept(c, Repeat(c, s, v, m, k - 1), v, m).after
  }

  /** Showing the same file k times is the walk over k copies of it. */
  lemma {:induction false} RepeatIsWalk(c: Condition, s: State, v: Visit, m: Matcher, k: nat)
    ensures Repeat(c, s, v, m, k) == Walk(c, s, seq(k, _ => v), m)
    decreases k
  {
    if k > 0 {
      assert seq(k, _ => v)[..k - 1] == seq(k - 1, _ => v);
      RepeatIsWalk(c, s, v, m, k - 1);
    }
  }

  /** k files of one size weigh k times that size. */
  lemma {:induction false} SumSizesOfRepeat(v: Visit, k: nat)
    ensures SumSizes(seq(k, _ => v)) == k * v.attrs.size
  {
    if k > 0 {
      assert seq(k, _ => v)[..k - 1] == seq(k - 1, _ => v);
      SumSizesOfRepeat(v, k - 1);
    }
  }

  /** Whether call i + 1 of a run showing the same file accepts it. */
  predicate AcceptsAt(c: Condition, s: State, v: Visit, m: Matcher, i: nat) {
    Accept(c, Repeat(c, s, v, m, i), v, m).accepted
  }

  /** How many of those k calls c accepted. */
  function AcceptedAmong(c: Condition, s: State, v: Visit, m: Matcher, k: nat): (n: nat)
    ensures n <= k
    decreases k
  {
    if k == 0 then 0
    else AcceptedAmong(c, s, v, m, k - 1) + if AcceptsAt(c, s, v, m, k - 1) then 1 else 0
  }

  /** AcceptedAmong is zero exactly when none of the k calls accepted. */
  lemma {:induction false} AcceptedAmongNone(c: Condition, s: State, v: Visit, m: Matcher, k: nat)
    ensures AcceptedAmong(c, s, v, m, k) == 0 <==> forall i | 0 <= i < k :: !AcceptsAt(c, s, v, m, i)
    decreases k
  {
    if k > 0 {
      AcceptedAmongNone(c, s, v, m, k - 1);
      if forall i | 0 <= i < k - 1 :: !AcceptsAt(c, s, v, m, i) {
        if !AcceptsAt(c, s, v, m, k - 1) {
          assert forall i | 0 <= i < k :: !AcceptsAt(c, s, v, m, i);
        }
      }
    }
  }

  /** AcceptedAmong is k exactly when every one of the k calls accepted. */
  lemma {:induction false} AcceptedAmongAll(c: Condition, s: State, v: Visit, m: Matcher, k: nat)
    ensures AcceptedAmong(c, s, v, m, k) == k <==> forall i | 0 <= i < k :: AcceptsAt(c, s, v, m, i)
    decreases k
  {
    if k > 0 {
      AcceptedAmongAll(c, s, v, m, k - 1);
      if forall i | 0 <= i < k - 1 :: AcceptsAt(c, s, v, m, i) {
        if AcceptsAt(c, s, v, m, k - 1) {
          assert forall i | 0 <= i < k :: AcceptsAt(c, s, v, m, i);
        }
      }
    }
  }

  /** Over any walk, the size filter's byte total grows by the sizes of the files shown; nested conditions do not disturb it. */
  lemma {:induction false} SizeWalkTotal(id: NodeId, threshold: nat, nested: seq<Condition>, s: State, vs: seq<Visit>, m: Matcher)
    requires id !in AccumulatorIdsIn(nested)
    ensures Walk(AccumulatedSize(id, threshold, nested), s, vs, m).Total(id) == s.Total(id) + SumSizes(vs)
    decreases |vs|
  {
    var c := AccumulatedSize(id, threshold, nested);
    if vs != [] {
      var prefix, last := vs[..|vs| - 1], vs[|vs| - 1];
      SizeWalkTotal(id, threshold, nested, s, prefix, m);
      var before := Walk(c, s, prefix, m);
      AcceptAllKeepsOtherTotals(nested, before.(accumulated := before.accumulated[id := Accumulate(c, before, last)]), last, m, id);
    }
  }

  /**
   * On any walk, call i of the size filter passes its own test exactly when the sizes of the first
   * i + 1 files take the total strictly above the threshold; without that the call rejects.
   */
  lemma SizeWalkTest(id: NodeId, threshold: nat, nested: seq<Condition>, s: State, vs: seq<Visit>, m: Matcher, i: nat)
    requires id !in AccumulatorIdsIn(nested) && i < |vs|
    ensures var c := AccumulatedSize(id, threshold, nested);
      && (SelfAccepts(c, Walk(c, s, vs[..i], m), vs[i], m) <==> s.Total(id) + SumSizes(vs[..i + 1]) > threshold)
      && (Accept(c, Walk(c, s, vs[..i], m), vs[i], m).accepted ==> s.Total(id) + SumSizes(vs[..i + 1]) > threshold)
  {
    var c := AccumulatedSize(id, threshold, nested);
    SizeWalkTotal(id, threshold, nested, s, vs[..i], m);
    assert vs[..i + 1][..i] == vs[..i];
    if !SelfAccepts(c, Walk(c, s, vs[..i], m), vs[i], m) {
      RejectingFilterSkipsNested(c, Walk(c, s, vs[..i], m), vs[i], m);
    }
  }

  /** Over any walk, the count filter's total grows by the number of files shown; nested conditions do not disturb it. */
  lemma {:induction false} CountWalkTotal(id: NodeId, threshold: nat, nested: seq<Condition>, s: State, vs: seq<Visit>, m: Matcher)
    requires id !in AccumulatorIdsIn(nested)
    ensures Walk(AccumulatedCount(id, threshold, nested), s, vs, m).Total(id) == s.Total(id) + |vs|
    decreases |vs|
  {
    var c := AccumulatedCount(id, threshold, nested);
    if vs != [] {
      var prefix, last := vs[..|vs| - 1], vs[|vs| - 1];
      CountWalkTotal(id, threshold, nested, s, prefix, m);
      var before := Walk(c, s, prefix, m);
      AcceptAllKeepsOtherTotals(nested, before.(accumulated := before.accumulated[id := Accumulate(c, before, last)]), last, m, id);
    }
  }

  /** On any walk, call i of the count filter passes its own test exactly when i + 1 files take the count strictly above the threshold. */
  lemma CountWalkTest(id: NodeId, threshold: nat, nested: seq<Condition>, s: State, vs: seq<Visit>, m: Matcher, i: nat)
    requires id !in AccumulatorIdsIn(nested) && i < |vs|
    ensures var c := AccumulatedCount(id, threshold, nested);
      && (SelfAccepts(c, Walk(c, s, vs[..i], m), vs[i], m) <==> s.Total(id) + i + 1 > threshold)
      && (Accept(c, Walk(c, s, vs[..i], m), vs[i], m).accepted ==> s.Total(id) + i + 1 > threshold)
  {
    var c := AccumulatedCount(id, threshold, nested);
    CountWalkTotal(id, threshold, nested, s, vs[..i], m);
    if !SelfAccepts(c, Walk(c, s, vs[..i], m), vs[i], m) {
      RejectingFilterSkipsNested(c, Walk(c, s, vs[..i], m), vs[i], m);
    }
  }

  /** The relative paths of the files of vs that c accepted, in the order they were shown. */
  function AcceptedPaths(c: Condition, s: State, vs: seq<Visit>, m: Matcher): seq<Path>
    decreases |vs|
  {
    if vs == [] then []
    else
      var last := vs[|vs| - 1];
      AcceptedPaths(c, s, vs[..|vs| - 1], m) + if Accept(c, Walk(c, s, vs[..|vs| - 1], m), last, m).accepted then [last.relativePath] else []
  }

  /**
   * Over any walk, a nested probe that always agrees is called with the relative path of every
   * file the filter above it accepts, in order, and with no other.
   */
  lemma {:induction false} ProbeSeesAcceptedCalls(c: Condition, pid: NodeId, s: State, vs: seq<Visit>, m: Matcher)
    requires c.IsFilter() && c.Nested() == [Probe(pid, true)]
    ensures Walk(c, s, vs, m).Calls(pid) == s.Calls(pid) + AcceptedPaths(c, s, vs, m)
    decreases |vs|
  {
    if vs != [] {
      var init, last := vs[..|vs| - 1], vs[|vs| - 1];
      ProbeSeesAcceptedCalls(c, pid, s, init, m);
      NestedProbeCalledOnlyOnOwnAcceptance(c, pid, true, Walk(c, s, init, m), last, m);
      var extra := if Accept(c, Walk(c, s, init, m), last, m).accepted then [last.relativePath] else [];
      assert s.Calls(pid) + AcceptedPaths(c, s, init, m) + extra == s.Calls(pid) + (AcceptedPaths(c, s, init, m) + extra);
    }
  }

  /** The relative paths of the files of vs at least age old, in order. */
  function OldEnoughPaths(age: Durations.Duration, vs: seq<Visit>): seq<Path>
    decreases |vs|
  {
    if vs == [] then []
    else OldEnoughPaths(age, vs[..|vs| - 1]) + if OldEnough(age, vs[|vs| - 1]) then [vs[|vs| - 1].relativePath] else []
  }

  /** Showing one more file adds its path exactly when it is old enough. */
  lemma OldEnoughPathsSnoc(age: Durations.Duration, vs: seq<Visit>, v: Visit)
    ensures OldEnoughPaths(age, vs + [v]) == OldEnoughPaths(age, vs) + if OldEnough(age, v) then [v.relativePath] else []
  {
    assert (vs + [v])[..|vs|] == vs;
  }

  /** Over any walk, IfLastModified with an agreeing nested probe accepts exactly the files at least its age old. */
  lemma {:induction false} LastModifiedAcceptsOldEnough(age: Durations.Duration, pid: NodeId, s: State, vs: seq<Visit>, m: Matcher)
    ensures AcceptedPaths(LastModified(age, [Probe(pid, true)]), s, vs, m) == OldEnoughPaths(age, vs)
    decreases |vs|
  {
    if vs != [] {
      var c := LastModified(age, [Probe(pid, true)]);
      LastModifiedAcceptsOldEnough(age, pid, s, vs[..|vs| - 1], m);
      NestedProbeCalledOnlyOnOwnAcceptance(c, pid, true, Walk(c, s, vs[..|vs| - 1], m), vs[|vs| - 1], m);
    }
  }

  /**
   * IfLastModified PT33S over a nested probe, shown three files 33.005 seconds old and then three
   * files 32.995 seconds old: the probe is called for the first three and not again.
   */
  lemma AgeSwitchProbeCalls(pid: NodeId, s: State, base: Path, rel: Path, size: nat, now: int, m: Matcher)
    ensures var c := LastModified(Durations.Duration(33), [Probe(pid, true)]);
      var aged := Visit(base, rel, Attributes(size, now - 33005), now);
      var young := Visit(base, rel, Attributes(size, now - 32995), now);
      Walk(c, s, [aged, aged, aged, young, young, young], m).Calls(pid) == s.Calls(pid) + [rel, rel, rel]
  {
    var age := Durations.Duration(33);
    var c := LastModified(age, [Probe(pid, true)]);
    var aged := Visit(base, rel, Attributes(size, now - 33005), now);
    var young := Visit(base, rel, Attributes(size, now - 32995), now);
    var vs := [aged, aged, aged, young, young, young];
    assert age.ToMillis() == 33000;
    assert OldEnough(age, aged) && !OldEnough(age, young);
    var prefix := [aged, aged, aged];
    OldEnoughPathsSnoc(age, [], aged);
    assert [] + [aged] == [aged];
    OldEnoughPathsSnoc(age, [aged], aged);
    assert [aged] + [aged] == [aged, aged];
    OldEnoughPathsSnoc(age, [aged, aged], aged);
    assert [aged, aged] + [aged] == prefix;
    assert OldEnoughPaths(age, prefix) == [rel, rel, rel];
    OldEnoughPathsSnoc(age, prefix, young);
    OldEnoughPathsSnoc(age, prefix + [young], young);
    OldEnoughPathsSnoc(age, prefix + [young, young], young);
    assert prefix + [young] + [young] == prefix + [young, young];
    assert prefix + [young, young] + [young] == vs;
    assert OldEnoughPaths(age, vs) == [rel, rel, rel];
    ProbeSeesAcceptedCalls(c, pid, s, vs, m);
    LastModifiedAcceptsOldEnough(age, pid, s, vs, m);
  }

  /** The same file shown k times: a nested probe that always agrees is called once for every call the filter above it accepts, and for no other. */
  lemma {:induction false} ProbeSeesRepeatedAcceptedCalls(c: Condition, pid: NodeId, s: State, v: Visit, m: Matcher, k: nat)
    requires c.IsFilter() && c.Nested() == [Probe(pid, true)]
    ensures Repeat(c, s, v, m, k).Calls(pid) == s.Calls(pid) + seq(AcceptedAmong(c, s, v, m, k), _ => v.relativePath)
    decreases k
  {
    if k > 0 {
      var before := Repeat(c, s, v, m, k - 1);
      ProbeSeesRepeatedAcceptedCalls(c, pid, s, v, m, k - 1);
      NestedProbeCalledOnlyOnOwnAcceptance(c, pid, true, before, v, m);
      var n := AcceptedAmong(c, s, v, m, k - 1);
      var accepted := Accept(c, before, v, m).accepted;
      assert AcceptedAmong(c, s, v, m, k) == n + if accepted then 1 else 0;
      assert accepted == SelfAccepts(c, before, v, m);
      if accepted {
        assert seq(n, _ => v.relativePath) + [v.relativePath] == seq(n + 1, _ => v.relativePath);
      }
    }
  }

  /** After k calls the file count has grown by k, and the next call passes its own test exactly when the count goes strictly above the threshold. */
  lemma CountAboveThreshold(id: NodeId, threshold: nat, nested: seq<Condition>, s: State, v: Visit, m: Matcher, k: nat)
    requires id !in AccumulatorIdsIn(nested)
    ensures var c := AccumulatedCount(id, threshold, nested);
      && Repeat(c, s, v, m, k).Total(id) == s.Total(id) + k
      && (SelfAccepts(c, Repeat(c, s, v, m, k), v, m) <==> s.Total(id) + k + 1 > threshold)
      && (Accept(c, Repeat(c, s, v, m, k), v, m).accepted ==> s.Total(id) + k + 1 > threshold)
      && (nested == [] ==> (Accept(c, Repeat(c, s, v, m, k), v, m).accepted <==> s.Total(id) + k + 1 > threshold))
  {
    var vs := seq(k + 1, _ => v);
    assert vs[..k] == seq(k, _ => v) && vs[k] == v;
    RepeatIsWalk(AccumulatedCount(id, threshold, nested), s, v, m, k);
    CountWalkTotal(id, threshold, nested, s, vs[..k], m);
    CountWalkTest(id, threshold, nested, s, vs, m, k);
  }

  /**
   * A fresh IfAccumulatedFileCount with threshold T and an always-agreeing nested probe rejects its
   * first T files without calling the probe, then accepts every further file and passes it on.
   */
  lemma {:induction false} CountProbeCalls(id: NodeId, threshold: nat, pid: NodeId, s: State, v: Visit, m: Matcher, k: nat)
    requires s.Total(id) == 0
    ensures var c := AccumulatedCount(id, threshold, [Probe(pid, true)]);
      && AcceptedAmong(c, s, v, m, k) == (if k > threshold then k - threshold else 0)
      && |Repeat(c, s, v, m, k).Calls(pid)| == |s.Calls(pid)| + if k > threshold then k - threshold else 0
    decreases k
  {
    var c := AccumulatedCount(id, threshold, [Probe(pid, true)]);
    if k > 0 {
      CountProbeCalls(id, threshold, pid, s, v, m, k - 1);
      CountAboveThreshold(id, threshold, [Probe(pid, true)], s, v, m, k - 1);
      NestedProbeCalledOnlyOnOwnAcceptance(c, pid, true, Repeat(c, s, v, m, k - 1), v, m);
    }
    ProbeSeesRepeatedAcceptedCalls(c, pid, s, v, m, k);
  }

  /** After k calls on files of one size the byte total has grown by k times that size; the next call passes its own test exactly when the total goes strictly above the threshold. */
  lemma SizeAboveThreshold(id: NodeId, threshold: nat, nested: seq<Condition>, s: State, v: Visit, m: Matcher, k: nat)
    requires id !in AccumulatorIdsIn(nested)
    ensures var c := AccumulatedSize(id, threshold, nested);
      && Repeat(c, s, v, m, k).Total(id) == s.Total(id) + k * v.attrs.size
      && (SelfAccepts(c, Repeat(c, s, v, m, k), v, m) <==> s.Total(id) + (k + 1) * v.attrs.size > threshold)
      && (Accept(c, Repeat(c, s, v, m, k), v, m).accepted ==> s.Total(id) + (k + 1) * v.attrs.size > threshold)
      && (nested == [] ==> (Accept(c, Repeat(c, s, v, m, k), v, m).accepted <==> s.Total(id) + (k + 1) * v.attrs.size > threshold))
  {
    var vs := seq(k + 1, _ => v);
    assert vs[..k] == seq(k, _ => v) && vs[..k + 1] == vs && vs[k] == v;
    RepeatIsWalk(AccumulatedSize(id, threshold, nested), s, v, m, k);
    SizeWalkTotal(id, threshold, nested, s, vs[..k], m);
    SizeWalkTest(id, threshold, nested, s, vs, m, k);
    SumSizesOfRepeat(v, k);
    SumSizesOfRepeat(v, k + 1);
  }

  /** A single file on a fresh IfAccumulatedFileSize is accepted exactly when it is strictly larger than the threshold: one byte more accepts, the exact size and one byte less reject. */
  lemma SingleFileAgainstThreshold(id: NodeId, threshold: nat, s: State, v: Visit, m: Matcher)
    requires s.Total(id) == 0
    ensures Accept(AccumulatedSize(id, threshold, []), s, v, m).accepted <==> v.attrs.size > threshold
  {
  }

  /** Four files of a quarter of the threshold each add up to the threshold exactly; (k + 1) of them exceed it exactly when k is at least four. */
  lemma QuarterSteps(threshold: nat, k: nat)
    requires threshold > 0 && threshold % 4 == 0
    ensures (k + 1) * (threshold / 4) > threshold <==> k >= 4
  {
    var q := threshold / 4;
    assert threshold == 4 * q;
    if k >= 4 {
      assert (k + 1) * q == 4 * q + (k - 3) * q;
      assert (k - 3) * q >= q;
    } else {
      assert (k + 1) * q <= 4 * q;
    }
  }

  /** A fresh IfAccumulatedFileSize shown files of a quarter of its threshold rejects the first four and accepts from the fifth on. */
  lemma QuarterSizeAcceptsFromFifth(id: NodeId, threshold: nat, s: State, v: Visit, m: Matcher, k: nat)
    requires threshold > 0 && threshold % 4 == 0 && v.attrs.size == threshold / 4
    requires s.Total(id) == 0
    ensures var c := AccumulatedSize(id, threshold, []);
      Accept(c, Repeat(c, s, v, m, k), v, m).accepted <==> k >= 4
  {
    SizeAboveThreshold(id, threshold, [], s, v, m, k);
    QuarterSteps(threshold, k);
  }

  /** With an always-agreeing nested probe, the probe is first called on the fifth quarter-sized file and then on every file. */
  lemma {:induction false} QuarterSizeProbeCalls(id: NodeId, threshold: nat, pid: NodeId, s: State, v: Visit, m: Matcher, k: nat)
    requires threshold > 0 && threshold % 4 == 0 && v.attrs.size == threshold / 4
    requires s.Total(id) == 0
    ensures var c := AccumulatedSize(id, threshold, [Probe(pid, true)]);
      && AcceptedAmong(c, s, v, m, k) == (if k > 4 then k - 4 else 0)
      && |Repeat(c, s, v, m, k).Calls(pid)| == |s.Calls(pid)| + if k > 4 then k - 4 else 0
    decreases k
  {
    var c := AccumulatedSize(id, threshold, [Probe(pid, true)]);
    if k > 0 {
      QuarterSizeProbeCalls(id, threshold, pid, s, v, m, k - 1);
      SizeAboveThreshold(id, threshold, [Probe(pid, true)], s, v, m, k - 1);
      QuarterSteps(threshold, k - 1);
      NestedProbeCalledOnlyOnOwnAcceptance(c, pid, true, Repeat(c, s, v, m, k - 1), v, m);
    }
    ProbeSeesRepeatedAcceptedCalls(c, pid, s, v, m, k);
  }
}
