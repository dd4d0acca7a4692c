/**
 * The condition objects carried out step by step. An Engine holds the mutable fields of every
 * condition object of a tree (the accumulator totals and what the probes have recorded), keyed
 * by identity; its methods are accept and beforeFileTreeWalk as loops over the children, each
 * proved to do what PathConditions.Accept and BeforeWalk say.
 */
module ConditionObjects {
  import opened Paths
  import opened PathConditions

  class Engine {
    var accumulated: map<NodeId, nat>
    var probeCalls: map<NodeId, seq<Path>>
    var probeHooks: map<NodeId, nat>

    /** The fields as one state value. */
    function State(): PathConditions.State
      reads this
    {
      PathConditions.State(accumulated, probeCalls, probeHooks)
    }

    /** Freshly built conditions: every total zero and no probe called yet. */
    constructor ()
      ensures State() == Initial
    {
      accumulated, probeCalls, probeHooks := map[], map[], map[];
    }

    /** accept(baseDir, relativePath, attrs) on c. */
    method Accept(c: Condition, v: Visit, m: Matcher) returns (accepted: bool)
      modifies this
      ensures PathConditions.Accept(c, old(State()), v, m) == Step(accepted, State())
      decreases c, 1
    {
      match c {
        case Fixed(b) =>
          accepted := b;
        case Probe(id, b) =>
          probeCalls := probeCalls[id := State().Calls(id) + [v.relativePath]];
          accepted := b;
        case All(cs) =>
          if |cs| == 0 {
            accepted := false;
          } else {
            accepted := AcceptAll(cs, v, m);
          }
        case Any(cs) =>
          accepted := AcceptAny(cs, v, m);
        case Not(d) =>
          var a := Accept(d, v, m);
          accepted := !a;
        case FileName(p, nested) =>
          if m(p, v.relativePath) {
            accepted := AcceptAll(nested, v, m);
          } else {
            accepted := false;
          }
        case LastModified(age, nested) =>
          if OldEnough(age, v) {
            accepted := AcceptAll(nested, v, m);
          } else {
            accepted := false;
          }
        case AccumulatedSize(id, threshold, nested) =>
          var total := State().Total(id) + v.attrs.size;
          accumulated := accumulated[id := total];
          if total > threshold {
            accepted := AcceptAll(nested, v, m);
          } else {
            accepted := false;
          }
        case AccumulatedCount(id, threshold, nested) =>
          var total := State().Total(id) + 1;
          accumulated := accumulated[id := total];
          if total > threshold {
            accepted := AcceptAll(nested, v, m);
          } else {
            accepted := false;
          }
      }
    }

    /** Every condition of cs accepts, asked in order until the first rejection. */
    method AcceptAll(cs: seq<Condition>, v: Visit, m: Matcher) returns (accepted: bool)
      modifies this
      ensures PathConditions.AcceptAll(cs, old(State()), v, m) == Step(accepted, State())
      decreases cs, 0
    {
      accepted := true;
      var i := 0;
      while i < |cs| && accepted
        invariant 0 <= i <= |cs|
        invariant accepted ==> PathConditions.AcceptAll(cs, old(State()), v, m) == PathConditions.AcceptAll(cs[i..], State(), v, m)
        invariant !accepted ==> PathConditions.AcceptAll(cs, old(State()), v, m) == Step(false, State())
        decreases |cs| - i
      {
        assert cs[i..][0] == cs[i] && cs[i..][1..] == cs[i + 1..];
        accepted := Accept(cs[i], v, m);
        i := i + 1;
      }
    }

    /** Some condition of cs accepts, asked in order until the first acceptance. */
    method AcceptAny(cs: seq<Condition>, v: Visit, m: Matcher) returns (accepted: bool)
      modifies this
      ensures PathConditions.AcceptAny(cs, old(State()), v, m) == Step(accepted, State())
      decreases cs, 0
    {
      accepted := false;
      var i := 0;
      while i < |cs| && !accepted
        invariant 0 <= i <= |cs|
        invariant !accepted ==> PathConditions.AcceptAny(cs, old(State()), v, m) == PathConditions.AcceptAny(cs[i..], State(), v, m)
        invariant accepted ==> PathConditions.AcceptAny(cs, old(State()), v, m) == Step(true, State())
        decreases |cs| - i
      {
        assert cs[i..][0] == cs[i] && cs[i..][1..] == cs[i + 1..];
        accepted := Accept(cs[i], v, m);
        i := i + 1;
      }
    }

    /** beforeFileTreeWalk() on c. */
    method BeforeFileTreeWalk(c: Condition)
      modifies this
      ensures State() == BeforeWalk(c, old(State()))
      decreases c, 1
    {
      match c {
        case Fixed(_) =>
        case Probe(id, _) =>
          probeHooks := probeHooks[id := State().Hooks(id) + 1];
        case All(cs) => BeforeFileTreeWalkAll(cs);
        case Any(cs) => BeforeFileTreeWalkAll(cs);
        case Not(d) => BeforeFileTreeWalk(d);
        case FileName(_, nested) => BeforeFileTreeWalkAll(nested);
        case LastModified(_, nested) => BeforeFileTreeWalkAll(nested);
        case AccumulatedSize(id, _, nested) =>
          accumulated := accumulated[id := 0];
          BeforeFileTreeWalkAll(nested);
        case AccumulatedCount(id, _, nested) =>
          accumulated := accumulated[id := 0];
          BeforeFileTreeWalkAll(nested);
      }
    }

    /** beforeFileTreeWalk() on each condition of cs, in order. */
    method BeforeFileTreeWalkAll(cs: seq<Condition>)
      modifies this
      ensures State() == BeforeWalkAll(cs, old(State()))
      decreases cs, 0
    {
      for i := 0 to |cs|
        invariant BeforeWalkAll(cs, old(State())) == BeforeWalkAll(cs[i..], State())
      {
        assert cs[i..][0] == cs[i] && cs[i..][1..] == cs[i + 1..];
        BeforeFileTreeWalk(cs[i]);
      }
    }
  }
}
