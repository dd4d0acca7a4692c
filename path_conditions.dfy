/**
 * The PathCondition algebra of the rolling-file delete action: composite conditions
 * (IfAll, IfAny, IfNot), leaf filters (IfFileName, IfLastModified, IfAccumulatedFileSize,
 * IfAccumulatedFileCount), the constant FixedCondition and a call-counting probe condition.
 *
 * A condition tree is a value fixed at construction. What changes while files are visited
 * lives in a State keyed by node identity: the running totals of the accumulator filters and
 * the calls the probes have seen. The same identity at several places in a tree is one object
 * listed several times. Accept and BeforeWalk are the meaning of accept(...) and
 * beforeFileTreeWalk(); ConditionObjects.Engine carries them out step by step.
 */
module PathConditions {
  import opened Wrappers
  import opened Paths
  import Durations

  /** Identity of a stateful condition object. */
  type NodeId = nat

  /** What the conditions read from a file: its size in bytes and its last-modified time in epoch milliseconds. */
  datatype Attributes = Attributes(size: nat, lastModifiedMillis: int)

  /** The arguments of one accept call, and the clock reading taken during it. */
  datatype Visit = Visit(baseDir: Path, relativePath: Path, attrs: Attributes, nowMillis: int)

  /** A path matcher: does the relative path match the "syntax:pattern" string (glob or regex)? */
  type Matcher = (string, Path) -> bool

  datatype Condition =
    | Fixed(answer: bool)                      // FixedCondition: always the same answer, no state
    | Probe(id: NodeId, answer: bool)          // a caller-supplied condition that records each call it gets
    | All(components: seq<Condition>)          // IfAll
    | Any(components: seq<Condition>)          // IfAny
    | Not(negate: Condition)                   // IfNot
    | FileName(syntaxAndPattern: string, nested: seq<Condition>)
    | LastModified(age: Durations.Duration, nested: seq<Condition>)
    | AccumulatedSize(id: NodeId, thresholdBytes: nat, nested: seq<Condition>)
    | AccumulatedCount(id: NodeId, thresholdCount: nat, nested: seq<Condition>)
  {
    /** The leaf filters: each has a test of its own and a list of nested conditions. */
    predicate IsFilter() {
      FileName? || LastModified? || AccumulatedSize? || AccumulatedCount?
    }

    function Nested(): seq<Condition>
      requires IsFilter()
    {
      match this
      case FileName(_, nested) => nested
      case LastModified(_, nested) => nested
      case AccumulatedSize(_, _, nested) => nested
      case AccumulatedCount(_, _, nested) => nested
    }
  }

  /** The mutable fields of all condition objects, keyed by identity; absent keys read as zero or empty. */
  datatype State = State(accumulated: map<NodeId, nat>, probeCalls: map<NodeId, seq<Path>>, probeHooks: map<NodeId, nat>)
  {
    /** The running total of accumulator id (bytes or files). */
    function Total(id: NodeId): nat {
      if id in accumulated then accumulated[id] else 0
    }

    /** The relative paths probe id was asked to accept, in call order. */
    function Calls(id: NodeId): seq<Path> {
      if id in probeCalls then probeCalls[id] else []
    }

    /** How many times probe id's beforeFileTreeWalk ran. */
    function Hooks(id: NodeId): nat {
      if id in probeHooks then probeHooks[id] else 0
    }
  }

  const Initial := State(map[], map[], map[])

  /** The result of one accept call: the answer and the state after it. */
  datatype Step = Step(accepted: bool, after: State)

  /** IfLastModified's rule: the file's age, now minus its last-modified time, is at least the configured age. */
  predicate OldEnough(age: Durations.Duration, v: Visit) {
    v.nowMillis - v.attrs.lastModifiedMillis >= age.ToMillis()
  }

  /** Total of accumulator id after the filter adds the current file to it. */
  function Accumulate(c: Condition, s: State, v: Visit): (t: nat)
    requires c.AccumulatedSize? || c.AccumulatedCount?
    ensures c.AccumulatedSize? ==> t == s.Total(c.id) + v.attrs.size
    ensures c.AccumulatedCount? ==> t == s.Total(c.id) + 1
  {
    if c.AccumulatedSize? then s.Total(c.id) + v.attrs.size else s.Total(c.id) + 1
  }

  /**
   * accept(baseDir, relativePath, attrs) on condition c in state s. Composites ask their
   * children left to right and stop at the first answer that decides; an empty IfAll or IfAny
   * rejects. A leaf filter consults its nested list only when its own test passes; the
   * accumulators add the current file to their total before testing it. Accepting never runs
   * a beforeFileTreeWalk hook.
   */
  function Accept(c: Condition, s: State, v: Visit, m: Matcher): (r: Step)
    ensures r.after.probeHooks == s.probeHooks
    decreases c, 1
  {
    match c
    case Fixed(b) => Step(b, s)
    case Probe(id, b) => Step(b, s.(probeCalls := s.probeCalls[id := s.Calls(id) + [v.relativePath]]))
    case All(cs) => if |cs| == 0 then Step(false, s) else AcceptAll(cs, s, v, m)
    case Any(cs) => AcceptAny(cs, s, v, m)
    case Not(d) =>
      var t := Accept(d, s, v, m);
      Step(!t.accepted, t.after)
    case FileName(p, nested) =>
      if m(p, v.relativePath) then AcceptAll(nested, s, v, m) else Step(false, s)
    case LastModified(age, nested) =>
      if OldEnough(age, v) then AcceptAll(nested, s, v, m) else Step(false, s)
    case AccumulatedSize(id, threshold, nested) =>
      var total := Accumulate(c, s, v);
      var s' := s.(accumulated := s.accumulated[id := total]);
      if total > threshold then AcceptAll(nested, s', v, m) else Step(false, s')
    case AccumulatedCount(id, threshold, nested) =>
      var total := Accumulate(c, s, v);
      var s' := s.(accumulated := s.accumulated[id := total]);
      if total > threshold then AcceptAll(nested, s', v, m) else Step(false, s')
  }

  /** IfAll's list conjunction: stops at the first rejection; an empty list accepts. */
  function AcceptAll(cs: seq<Condition>, s: State, v: Visit, m: Matcher): (r: Step)
    ensures r.after.probeHooks == s.probeHooks
    decreases cs, 0
  {
    if cs == [] then Step(true, s)
    else
      var t := Accept(cs[0], s, v, m);
      if !t.accepted then t else AcceptAll(cs[1..], t.after, v, m)
  }

  /** IfAny's list disjunction: stops at the first acceptance; an empty list rejects. */
  function AcceptAny(cs: seq<Condition>, s: State, v: Visit, m: Matcher): (r: Step)
    ensures r.after.probeHooks == s.probeHooks
    decreases cs, 0
  {
    if cs == [] then Step(false, s)
    else
      var t := Accept(cs[0], s, v, m);
      if t.accepted then t else AcceptAny(cs[1..], t.after, v, m)
  }

  /**
   * beforeFileTreeWalk() on c: every composite forwards the call to each child once, in order;
   * a leaf filter forwards it to each nested condition, and an accumulator first resets its total.
   * The hook never asks a probe to accept anything.
   */
  function BeforeWalk(c: Condition, s: State): (r: State)
    ensures r.probeCalls == s.probeCalls
    decreases c, 1
  {
    match c
    case Fixed(_) => s
    case Probe(id, _) => s.(probeHooks := s.probeHooks[id := s.Hooks(id) + 1])
    case All(cs) => BeforeWalkAll(cs, s)
    case Any(cs) => BeforeWalkAll(cs, s)
    case Not(d) => BeforeWalk(d, s)
    case FileName(_, nested) => BeforeWalkAll(nested, s)
    case LastModified(_, nested) => BeforeWalkAll(nested, s)
    case AccumulatedSize(id, _, nested) => BeforeWalkAll(nested, s.(accumulated := s.accumulated[id := 0]))
    case AccumulatedCount(id, _, nested) => BeforeWalkAll(nested, s.(accumulated := s.accumulated[id := 0]))
  }

  /** beforeFileTreeWalk() on each condition of a list, in order. */
  function BeforeWalkAll(cs: seq<Condition>, s: State): (r: State)
    ensures r.probeCalls == s.probeCalls
    decreases cs, 0
  {
    if cs == [] then s else BeforeWalkAll(cs[1..], BeforeWalk(cs[0], s))
  }
}
