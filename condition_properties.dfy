/**
 * What the condition algebra promises, proved of PathConditions.Accept and BeforeWalk:
 * the composites are the boolean connectives (with an empty IfAll or IfAny rejecting),
 * beforeFileTreeWalk reaches every probe once per place it occupies and resets every
 * accumulator, and a leaf filter consults its nested conditions only when its own test passes.
 */
module ConditionProperties {
  import opened Wrappers
  import opened Strings
  import opened Paths
  import opened PathConditions
  import opened ConditionFactories

  /** No accumulator filter occurs anywhere in c, so its answer to a file does not depend on earlier files. */
  predicate NoAccumulators(c: Condition)
    decreases c
  {
    match c
    case Fixed(_) => true
    case Probe(_, _) => true
    case All(cs) => forall i | 0 <= i < |cs| :: NoAccumulators(cs[i])
    case Any(cs) => forall i | 0 <= i < |cs| :: NoAccumulators(cs[i])
    case Not(d) => NoAccumulators(d)
    case FileName(_, nested) => forall i | 0 <= i < |nested| :: NoAccumulators(nested[i])
    case LastModified(_, nested) => forall i | 0 <= i < |nested| :: NoAccumulators(nested[i])
    case AccumulatedSize(_, _, _) => false
    case AccumulatedCount(_, _, _) => false
  }

  /**
   * The meaning of an accumulator-free condition for one file, as a formula: IfAll is a
   * conjunction over at least one child, IfAny a disjunction, IfNot a negation, and a leaf filter
   * its own test conjoined with all its nested conditions.
   */
  predicate Holds(c: Condition, v: Visit, m: Matcher)
    requires NoAccumulators(c)
    decreases c
  {
    match c
    case Fixed(b) => b
    case Probe(_, b) => b
    case All(cs) => |cs| > 0 && forall i | 0 <= i < |cs| :: Holds(cs[i], v, m)
    case Any(cs) => exists i | 0 <= i < |cs| :: Holds(cs[i], v, m)
    case Not(d) => !Holds(d, v, m)
    case FileName(p, nested) => m(p, v.relativePath) && forall i | 0 <= i < |nested| :: Holds(nested[i], v, m)
    case LastModified(age, nested) => OldEnough(age, v) && forall i | 0 <= i < |nested| :: Holds(nested[i], v, m)
  }

  /** accept answers what the formula says, whatever the state of the probes. */
  lemma {:induction false} AcceptMeansHolds(c: Condition, s: State, v: Visit, m: Matcher)
    requires NoAccumulators(c)
    ensures Accept(c, s, v, m).accepted == Holds(c, v, m)
    decreases c, 1
  {
    match c
    case Fixed(_) =>
    case Probe(_, _) =>
    case All(cs) =>
      if |cs| > 0 {
        AcceptAllMeansEvery(cs, s, v, m);
      }
    case Any(cs) => AcceptAnyMeansSome(cs, s, v, m);
    case Not(d) => AcceptMeansHolds(d, s, v, m);
    case FileName(p, nested) =>
      if m(p, v.relativePath) {
        AcceptAllMeansEvery(nested, s, v, m);
      }
    case LastModified(age, nested) =>
      if OldEnough(age, v) {
        AcceptAllMeansEvery(nested, s, v, m);
      }
  }

  /** IfAll's list conjunction accepts exactly when every condition of the list holds (so an empty list accepts). */
  lemma {:induction false} AcceptAllMeansEvery(cs: seq<Condition>, s: State, v: Visit, m: Matcher)
    requires forall i | 0 <= i < |cs| :: NoAccumulators(cs[i])
    ensures AcceptAll(cs, s, v, m).accepted == (forall i | 0 <= i < |cs| :: Holds(cs[i], v, m))
    decreases cs, 0
  {
    if cs != [] {
      AcceptMeansHolds(cs[0], s, v, m);
      var t := Accept(cs[0], s, v, m);
      if t.accepted {
        AcceptAllMeansEvery(cs[1..], t.after, v, m);
        assert forall j | 0 <= j < |cs| - 1 :: cs[1..][j] == cs[j + 1];
        if forall j | 0 <= j < |cs| - 1 :: Holds(cs[1..][j], v, m) {
          assert forall i | 0 <= i < |cs| :: Holds(cs[i], v, m) by {
            forall i | 0 <= i < |cs|
              ensures Holds(cs[i], v, m)
            {
              if i > 0 {
                assert Holds(cs[1..][i - 1], v, m);
              }
            }
          }
        }
      }
    }
  }

  /** IfAny's list disjunction accepts exactly when some condition of the list holds (so an empty list rejects). */
  lemma {:induction false} AcceptAnyMeansSome(cs: seq<Condition>, s: State, v: Visit, m: Matcher)
    requires forall i | 0 <= i < |cs| :: NoAccumulators(cs[i])
    ensures AcceptAny(cs, s, v, m).accepted == (exists i | 0 <= i < |cs| :: Holds(cs[i], v, m))
    decreases cs, 0
  {
    if cs != [] {
      AcceptMeansHolds(cs[0], s, v, m);
      var t := Accept(cs[0], s, v, m);
      if !t.accepted {
        AcceptAnyMeansSome(cs[1..], t.after, v, m);
        assert forall j | 0 <= j < |cs| - 1 :: cs[1..][j] == cs[j + 1];
        if exists i | 0 <= i < |cs| :: Holds(cs[i], v, m) {
          var i :| 0 <= i < |cs| && Holds(cs[i], v, m);
          assert i > 0;
          assert Holds(cs[1..][i - 1], v, m);
        }
      }
    }
  }

  /**
   * IfAll stops at the first rejection: when the first j + 1 conditions already reject, the
   * answer and the state are those of that prefix, so the conditions after it are never asked.
   */
  lemma {:induction false} AcceptAllStopsAtRejection(cs: seq<Condition>, s: State, v: Visit, m: Matcher, j: nat)
    requires j < |cs| && !AcceptAll(cs[..j + 1], s, v, m).accepted
    ensures AcceptAll(cs, s, v, m) == AcceptAll(cs[..j + 1], s, v, m)
    decreases j
  {
    assert cs[..j + 1][0] == cs[0];
    var t := Accept(cs[0], s, v, m);
    assert cs[..j + 1][1..] == cs[1..][..j];
    if t.accepted {
      AcceptAllStopsAtRejection(cs[1..], t.after, v, m, j - 1);
    }
  }

  /**
   * IfAny stops at the first acceptance: when the first j + 1 conditions already accept, the
   * answer and the state are those of that prefix, so the conditions after it are never asked.
   */
  lemma {:induction false} AcceptAnyStopsAtAcceptance(cs: seq<Condition>, s: State, v: Visit, m: Matcher, j: nat)
    requires j < |cs| && AcceptAny(cs[..j + 1], s, v, m).accepted
    ensures AcceptAny(cs, s, v, m) == AcceptAny(cs[..j + 1], s, v, m)
    decreases j
  {
    assert cs[..j + 1][0] == cs[0];
    var t := Accept(cs[0], s, v, m);
    assert cs[..j + 1][1..] == cs[1..][..j];
    if !t.accepted {
      AcceptAnyStopsAtAcceptance(cs[1..], t.after, v, m, j - 1);
    }
  }

  /** IfAll over two fixed conditions is their conjunction; with no conditions it rejects. */
  lemma AllTruthTable(a: bool, b: bool, s: State, v: Visit, m: Matcher)
    ensures Accept(All([Fixed(a), Fixed(b)]), s, v, m) == Step(a && b, s)
    ensures Accept(All([]), s, v, m) == Step(false, s)
  {
    assert [Fixed(a), Fixed(b)][1..] == [Fixed(b)] && [Fixed(b)][1..] == [];
    assert AcceptAll([Fixed(b)], s, v, m) == Step(b, s);
    assert AcceptAll([Fixed(a), Fixed(b)], s, v, m) == if a then AcceptAll([Fixed(b)], s, v, m) else Step(false, s);
  }

  /** IfAny over two fixed conditions is their disjunction; with no conditions it rejects. */
  lemma AnyTruthTable(a: bool, b: bool, s: State, v: Visit, m: Matcher)
    ensures Accept(Any([Fixed(a), Fixed(b)]), s, v, m) == Step(a || b, s)
    ensures Accept(Any([]), s, v, m) == Step(false, s)
  {
    assert [Fixed(a), Fixed(b)][1..] == [Fixed(b)] && [Fixed(b)][1..] == [];
    assert AcceptAny([Fixed(b)], s, v, m) == Step(b, s);
    assert AcceptAny([Fixed(a), Fixed(b)], s, v, m) == if a then Step(true, s) else AcceptAny([Fixed(b)], s, v, m);
  }

  /** A fixed condition answers its constant whatever it is asked, and IfNot turns the answer round. */
  lemma NotTruthTable(a: bool, s: State, v: Visit, v': Visit, m: Matcher)
    ensures Accept(Fixed(a), s, v, m) == Accept(Fixed(a), s, v', m) == Step(a, s)
    ensures Accept(Not(Fixed(a)), s, v, m) == Step(!a, s)
  {
  }

  /** How many places of c the probe id occupies. */
  function Occurrences(c: Condition, id: NodeId): nat
    decreases c, 1
  {
    match c
    case Fixed(_) => 0
    case Probe(pid, _) => if pid == id then 1 else 0
    case All(cs) => OccurrencesIn(cs, id)
    case Any(cs) => OccurrencesIn(cs, id)
    case Not(d) => Occurrences(d, id)
    case FileName(_, nested) => OccurrencesIn(nested, id)
    case LastModified(_, nested) => OccurrencesIn(nested, id)
    case AccumulatedSize(_, _, nested) => OccurrencesIn(nested, id)
    case AccumulatedCount(_, _, nested) => OccurrencesIn(nested, id)
  }

  function OccurrencesIn(cs: seq<Condition>, id: NodeId): nat
    decreases cs, 0
  {
    if cs == [] then 0 else Occurrences(cs[0], id) + OccurrencesIn(cs[1..], id)
  }

  /** beforeFileTreeWalk reaches probe id once for every place it occupies in the tree, and asks no probe to accept anything. */
  lemma {:induction false} BeforeWalkReachesEveryProbe(c: Condition, s: State, id: NodeId)
    ensures BeforeWalk(c, s).Hooks(id) == s.Hooks(id) + Occurrences(c, id)
    ensures BeforeWalk(c, s).probeCalls == s.probeCalls
    decreases c, 1
  {
    match c
    case Fixed(_) =>
    case Probe(_, _) =>
    case All(cs) => BeforeWalkAllReachesEveryProbe(cs, s, id);
    case Any(cs) => BeforeWalkAllReachesEveryProbe(cs, s, id);
    case Not(d) => BeforeWalkReachesEveryProbe(d, s, id);
    case FileName(_, nested) => BeforeWalkAllReachesEveryProbe(nested, s, id);
    case LastModified(_, nested) => BeforeWalkAllReachesEveryProbe(nested, s, id);
    case AccumulatedSize(aid, _, nested) =>
      BeforeWalkAllReachesEveryProbe(nested, s.(accumulated := s.accumulated[aid := 0]), id);
    case AccumulatedCount(aid, _, nested) =>
      BeforeWalkAllReachesEveryProbe(nested, s.(accumulated := s.accumulated[aid := 0]), id);
  }

  lemma {:induction false} BeforeWalkAllReachesEveryProbe(cs: seq<Condition>, s: State, id: NodeId)
    ensures BeforeWalkAll(cs, s).Hooks(id) == s.Hooks(id) + OccurrencesIn(cs, id)
    ensures BeforeWalkAll(cs, s).probeCalls == s.probeCalls
    decreases cs, 0
  {
    if cs != [] {
      BeforeWalkReachesEveryProbe(cs[0], s, id);
      BeforeWalkAllReachesEveryProbe(cs[1..], BeforeWalk(cs[0], s), id);
    }
  }

  /** The identities of the accumulator filters in c. */
  function AccumulatorIds(c: Condition): set<NodeId>
    decreases c, 1
  {
    match c
    case Fixed(_) => {}
    case Probe(_, _) => {}
    case All(cs) => AccumulatorIdsIn(cs)
    case Any(cs) => AccumulatorIdsIn(cs)
    case Not(d) => AccumulatorIds(d)
    case FileName(_, nested) => AccumulatorIdsIn(nested)
    case LastModified(_, nested) => AccumulatorIdsIn(nested)
    case AccumulatedSize(id, _, nested) => {id} + AccumulatorIdsIn(nested)
    case AccumulatedCount(id, _, nested) => {id} + AccumulatorIdsIn(nested)
  }

  function AccumulatorIdsIn(cs: seq<Condition>): set<NodeId>
    decreases cs, 0
  {
    if cs == [] then {} else AccumulatorIds(cs[0]) + AccumulatorIdsIn(cs[1..])
  }

  /** After beforeFileTreeWalk every accumulator of the tree starts from zero; other totals are untouched. */
  lemma {:induction false} BeforeWalkResetsAccumulators(c: Condition, s: State, id: NodeId)
    ensures BeforeWalk(c, s).Total(id) == if id in AccumulatorIds(c) then 0 else s.Total(id)
    decreases c, 1
  {
    match c
    case Fixed(_) =>
    case Probe(_, _) =>
    case All(cs) => BeforeWalkAllResetsAccumulators(cs, s, id);
    case Any(cs) => BeforeWalkAllResetsAccumulators(cs, s, id);
    case Not(d) => BeforeWalkResetsAccumulators(d, s, id);
    case FileName(_, nested) => BeforeWalkAllResetsAccumulators(nested, s, id);
    case LastModified(_, nested) => BeforeWalkAllResetsAccumulators(nested, s, id);
    case AccumulatedSize(aid, _, nested) =>
      BeforeWalkAllResetsAccumulators(nested, s.(accumulated := s.accumulated[aid := 0]), id);
    case AccumulatedCount(aid, _, nested) =>
      BeforeWalkAllResetsAccumulators(nested, s.(accumulated := s.accumulated[aid := 0]), id);
  }

  lemma {:induction false} BeforeWalkAllResetsAccumulators(cs: seq<Condition>, s: State, id: NodeId)
    ensures BeforeWalkAll(cs, s).Total(id) == if id in AccumulatorIdsIn(cs) then 0 else s.Total(id)
    decreases cs, 0
  {
    if cs != [] {
      BeforeWalkResetsAccumulators(cs[0], s, id);
      BeforeWalkAllResetsAccumulators(cs[1..], BeforeWalk(cs[0], s), id);
    }
  }

  /** accept changes the total of an accumulator only when that accumulator occurs in the condition. */
  lemma {:induction false} AcceptKeepsOtherTotals(c: Condition, s: State, v: Visit, m: Matcher, id: NodeId)
    requires id !in AccumulatorIds(c)
    ensures Accept(c, s, v, m).after.Total(id) == s.Total(id)
    decreases c, 1
  {
    match c
    case Fixed(_) =>
    case Probe(_, _) =>
    case All(cs) => AcceptAllKeepsOtherTotals(cs, s, v, m, id);
    case Any(cs) => AcceptAnyKeepsOtherTotals(cs, s, v, m, id);
    case Not(d) => AcceptKeepsOtherTotals(d, s, v, m, id);
    case FileName(_, nested) => AcceptAllKeepsOtherTotals(nested, s, v, m, id);
    case LastModified(_, nested) => AcceptAllKeepsOtherTotals(nested, s, v, m, id);
    case AccumulatedSize(aid, _, nested) =>
      AcceptAllKeepsOtherTotals(nested, s.(accumulated := s.accumulated[aid := Accumulate(c, s, v)]), v, m, id);
    case AccumulatedCount(aid, _, nested) =>
      AcceptAllKeepsOtherTotals(nested, s.(accumulated := s.accumulated[aid := Accumulate(c, s, v)]), v, m, id);
  }

  lemma {:induction false} AcceptAllKeepsOtherTotals(cs: seq<Condition>, s: State, v: Visit, m: Matcher, id: NodeId)
    requires id !in AccumulatorIdsIn(cs)
    ensures AcceptAll(cs, s, v, m).after.Total(id) == s.Total(id)
    decreases cs, 0
  {
    if cs != [] {
      AcceptKeepsOtherTotals(cs[0], s, v, m, id);
      AcceptAllKeepsOtherTotals(cs[1..], Accept(cs[0], s, v, m).after, v, m, id);
    }
  }

  lemma {:induction false} AcceptAnyKeepsOtherTotals(cs: seq<Condition>, s: State, v: Visit, m: Matcher, id: NodeId)
    requires id !in AccumulatorIdsIn(cs)
    ensures AcceptAny(cs, s, v, m).after.Total(id) == s.Total(id)
    decreases cs, 0
  {
    if cs != [] {
      AcceptKeepsOtherTotals(cs[0], s, v, m, id);
      AcceptAnyKeepsOtherTotals(cs[1..], Accept(cs[0], s, v, m).after, v, m, id);
    }
  }

  /** The hook counts of the examples: a child listed three times under IfAll, IfAny or a leaf filter is reached three times, IfNot's child once. */
  lemma HookForwardingExamples(id: NodeId, b: bool, s: State, p: string, age: Durations.Duration, aid: NodeId, threshold: nat)
    ensures var three := [Probe(id, b), Probe(id, b), Probe(id, b)];
      && BeforeWalk(All(three), s).Hooks(id) == s.Hooks(id) + 3
      && BeforeWalk(Any(three), s).Hooks(id) == s.Hooks(id) + 3
      && BeforeWalk(Not(Probe(id, b)), s).Hooks(id) == s.Hooks(id) + 1
      && BeforeWalk(FileName(p, three), s).Hooks(id) == s.Hooks(id) + 3
      && BeforeWalk(LastModified(age, three), s).Hooks(id) == s.Hooks(id) + 3
      && BeforeWalk(AccumulatedSize(aid, threshold, three), s).Hooks(id) == s.Hooks(id) + 3
      && BeforeWalk(AccumulatedCount(aid, threshold, three), s).Hooks(id) == s.Hooks(id) + 3
  {
    var three := [Probe(id, b), Probe(id, b), Probe(id, b)];
    assert OccurrencesIn(three, id) == 3 by {
      assert three[1..] == [Probe(id, b), Probe(id, b)];
      assert three[1..][1..] == [Probe(id, b)];
      assert three[1..][1..][1..] == [];
      assert OccurrencesIn([Probe(id, b)], id) == 1;
      assert OccurrencesIn([Probe(id, b), Probe(id, b)], id) == 2;
    }
    BeforeWalkReachesEveryProbe(All(three), s, id);
    BeforeWalkReachesEveryProbe(Any(three), s, id);
    BeforeWalkReachesEveryProbe(Not(Probe(id, b)), s, id);
    BeforeWalkReachesEveryProbe(FileName(p, three), s, id);
    BeforeWalkReachesEveryProbe(LastModified(age, three), s, id);
    BeforeWalkReachesEveryProbe(AccumulatedSize(aid, threshold, three), s, id);
    BeforeWalkReachesEveryProbe(AccumulatedCount(aid, threshold, three), s, id);
  }

  /** A leaf filter's own test, taken after an accumulator has added the current file. */
  predicate SelfAccepts(c: Condition, s: State, v: Visit, m: Matcher)
    requires c.IsFilter()
  {
    match c
    case FileName(p, _) => m(p, v.relativePath)
    case LastModified(age, _) => OldEnough(age, v)
    case AccumulatedSize(_, threshold, _) => Accumulate(c, s, v) > threshold
    case AccumulatedCount(_, threshold, _) => Accumulate(c, s, v) > threshold
  }

  /** A filter whose own test fails rejects without touching any probe below it. */
  lemma RejectingFilterSkipsNested(c: Condition, s: State, v: Visit, m: Matcher)
    requires c.IsFilter() && !SelfAccepts(c, s, v, m)
    ensures !Accept(c, s, v, m).accepted
    ensures Accept(c, s, v, m).after.probeCalls == s.probeCalls
    ensures Accept(c, s, v, m).after.probeHooks == s.probeHooks
  {
  }

  /** A list holding one probe answers what the probe answers and records the call. */
  lemma SingleProbeList(pid: NodeId, b: bool, t: State, v: Visit, m: Matcher)
    ensures AcceptAll([Probe(pid, b)], t, v, m).accepted == b
    ensures AcceptAll([Probe(pid, b)], t, v, m).after.Calls(pid) == t.Calls(pid) + [v.relativePath]
  {
    assert [Probe(pid, b)][1..] == [];
  }

  /** With one nested probe, a filter accepts when its own test passes and the probe agrees; the probe is called exactly when the own test passes. */
  lemma NestedProbeCalledOnlyOnOwnAcceptance(c: Condition, pid: NodeId, b: bool, s: State, v: Visit, m: Matcher)
    requires c.IsFilter() && c.Nested() == [Probe(pid, b)]
    ensures Accept(c, s, v, m).accepted == (SelfAccepts(c, s, v, m) && b)
    ensures Accept(c, s, v, m).after.Calls(pid) == s.Calls(pid) + if SelfAccepts(c, s, v, m) then [v.relativePath] else []
  {
    match c
    case FileName(_, _) => SingleProbeList(pid, b, s, v, m);
    case LastModified(_, _) => SingleProbeList(pid, b, s, v, m);
    case AccumulatedSize(id, _, _) =>
      SingleProbeList(pid, b, s.(accumulated := s.accumulated[id := Accumulate(c, s, v)]), v, m);
    case AccumulatedCount(id, _, _) =>
      SingleProbeList(pid, b, s.(accumulated := s.accumulated[id := Accumulate(c, s, v)]), v, m);
  }

  /** IfLastModified without nested conditions accepts exactly the files at least its age old, and changes nothing. */
  lemma LastModifiedAnswer(age: Durations.Duration, s: State, v: Visit, m: Matcher)
    ensures Accept(LastModified(age, []), s, v, m) == Step(v.nowMillis - v.attrs.lastModifiedMillis >= age.ToMillis(), s)
  {
  }

  /**
   * IfLastModified with age PT33S accepts a file last modified exactly 33 seconds or 33.005
   * seconds before now, and rejects one modified 32.995 seconds before now, without changing anything.
   */
  lemma ThirtyThreeSecondsOld(s: State, base: Path, rel: Path, size: nat, now: int, m: Matcher)
    ensures Durations.Parse("PT33S").Some?
    ensures var c := LastModified(Durations.Parse("PT33S").value, []);
      && Accept(c, s, Visit(base, rel, Attributes(size, now - 33000), now), m) == Step(true, s)
      && Accept(c, s, Visit(base, rel, Attributes(size, now - 33005), now), m) == Step(true, s)
      && Accept(c, s, Visit(base, rel, Attributes(size, now - 32995), now), m) == Step(false, s)
  {
    Durations.Examples();
    var age := Durations.Parse("PT33S").value;
    assert age.ToMillis() == 33000;
    LastModifiedAnswer(age, s, Visit(base, rel, Attributes(size, now - 33000), now), m);
    LastModifiedAnswer(age, s, Visit(base, rel, Attributes(size, now - 33005), now), m);
    LastModifiedAnswer(age, s, Visit(base, rel, Attributes(size, now - 32995), now), m);
  }

  /** The text of a path: its names joined by "/", with a leading "/" when absolute. */
  function PathText(p: Path): string {
    (if p.absolute then "/" else "") + JoinNames(p.names)
  }

  function JoinNames(names: seq<string>): string {
    if names == [] then "" else if |names| == 1 then names[0] else names[0] + "/" + JoinNames(names[1..])
  }

  /** A matcher for literal patterns: the pattern after its "glob:" or "regex:" mark is the path's text. */
  function LiteralMatcher(syntaxAndPattern: string, p: Path): bool {
    var pattern :=
      if HasPrefix(syntaxAndPattern, "glob:") then syntaxAndPattern[5..]
      else if HasPrefix(syntaxAndPattern, "regex:") then syntaxAndPattern[6..]
      else syntaxAndPattern;
    pattern == PathText(p)
  }

  function Relative(name: string): Path {
    Path(false, [name])
  }

  /** When both a glob and a regex are given the glob decides: "path" is accepted and "regex" rejected. */
  lemma GlobWinsOverRegex(s: State, base: Path, attrs: Attributes, now: int)
    ensures var c := CreateNameCondition(Some("path"), Some("regex"), []).value;
      && Accept(c, s, Visit(base, Relative("path"), attrs, now), LiteralMatcher) == Step(true, s)
      && Accept(c, s, Visit(base, Relative("regex"), attrs, now), LiteralMatcher) == Step(false, s)
  {
    assert !HasPrefix("path", "glob:");
    assert HasPrefix("glob:path", "glob:") && ("glob:path")[5..] == "path";
  }

  /** With only a regex, "regex" is accepted and "nomatch" rejected. */
  lemma RegexUsedWithoutGlob(s: State, base: Path, attrs: Attributes, now: int)
    ensures var c := CreateNameCondition(None, Some("regex"), []).value;
      && Accept(c, s, Visit(base, Relative("regex"), attrs, now), LiteralMatcher) == Step(true, s)
      && Accept(c, s, Visit(base, Relative("nomatch"), attrs, now), LiteralMatcher) == Step(false, s)
  {
    assert !HasPrefix("regex", "regex:");
    assert ("regex:regex")[..5][0] != ("glob:")[0];
    assert HasPrefix("regex:regex", "regex:") && ("regex:regex")[6..] == "regex";
  }

  /** IfFileName decides on the relative path alone: base directory and attributes make no difference. */
  lemma FileNameIgnoresBaseAndAttributes(p: string, s: State, v: Visit, v': Visit, m: Matcher)
    requires v.relativePath == v'.relativePath
    ensures Accept(FileName(p, []), s, v, m) == Accept(FileName(p, []), s, v', m)
  {
  }
}
