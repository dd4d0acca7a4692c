/**
 * DeletingVisitor: for each file of a walk it relativizes the file against the base directory,
 * asks every path condition of its list in turn, and deletes the file when all of them accept,
 * unless it runs in test mode. Deletion is recorded in a list of deleted paths.
 */
module DeletingVisitors {
  import opened Wrappers
  import opened Paths
  import opened PathConditions
  import opened ConditionProperties
  import opened ConditionObjects

  /** The outcome a file visitor hands back to the walk. */
  datatype VisitResult = Continue

  /** Relativizing an absolute file against a relative base, or the other way round, is an illegal argument. */
  datatype VisitError = IllegalArgument

  /** The I/O failures a walk reports for an entry; the serial tells two failures of the same kind apart. */
  datatype IOFault = NoSuchFile(file: Path) | OtherIO(serial: nat)

  /**
   * What visitFile decides, in state s: with no filters the file goes; otherwise the file is
   * relativized against the base (failing when only one of them is absolute) and the filters are
   * asked in order until one rejects.
   */
  function VisitDecision(base: Path, filters: seq<Condition>, file: Path, attrs: Attributes, nowMillis: int, s: State, m: Matcher): (r: Result<Step, VisitError>)
    ensures r.Failure? <==> filters != [] && base.absolute != file.absolute
    ensures filters == [] ==> r == Success(Step(true, s))
  {
    if filters == [] then Success(Step(true, s))
    else
      match Relativize(base, file)
      case None => Failure(IllegalArgument)
      case Some(relative) => Success(AcceptAll(filters, s, Visit(base, relative, attrs, nowMillis), m))
  }

  /** Whether every filter accepts the file, so that visitFile deletes it, or only reports it in test mode. */
  predicate Selected(base: Path, filters: seq<Condition>, file: Path, attrs: Attributes, nowMillis: int, s: State, m: Matcher)
    ensures filters == [] ==> Selected(base, filters, file, attrs, nowMillis, s, m)
    ensures filters != [] && base.absolute != file.absolute ==> !Selected(base, filters, file, attrs, nowMillis, s, m)
  {
    var d := VisitDecision(base, filters, file, attrs, nowMillis, s, m);
    d.Success? && d.value.accepted
  }

  /** Whether visitFile deletes the file: it is selected and the visitor is not in test mode. */
  predicate Deletes(base: Path, filters: seq<Condition>, testMode: bool, file: Path, attrs: Attributes, nowMillis: int, s: State, m: Matcher)
    ensures testMode ==> !Deletes(base, filters, testMode, file, attrs, nowMillis, s, m)
    ensures filters == [] ==> (Deletes(base, filters, testMode, file, attrs, nowMillis, s, m) <==> !testMode)
  {
    Selected(base, filters, file, attrs, nowMillis, s, m) && !testMode
  }

  /**
   * For filters free of accumulators, and a file on the same side (absolute or relative) as the
   * base, the file is deleted exactly when not in test mode and every filter holds for its path
   * relative to the base.
   */
  lemma DeletesIffEveryFilterHolds(base: Path, filters: seq<Condition>, testMode: bool, file: Path, attrs: Attributes, nowMillis: int, s: State, m: Matcher)
    requires forall i | 0 <= i < |filters| :: NoAccumulators(filters[i])
    requires base.absolute == file.absolute
    ensures var v := Visit(base, Relativize(base, file).value, attrs, nowMillis);
      Deletes(base, filters, testMode, file, attrs, nowMillis, s, m) <==>
        !testMode && forall i | 0 <= i < |filters| :: Holds(filters[i], v, m)
  {
    AcceptAllMeansEvery(filters, s, Visit(base, Relativize(base, file).value, attrs, nowMillis), m);
  }

  /** With at least one filter, a file on the other side of the base is refused with an illegal argument and nothing changes. */
  lemma MismatchedFileIsIllegal(base: Path, filters: seq<Condition>, file: Path, attrs: Attributes, nowMillis: int, s: State, m: Matcher)
    requires filters != [] && base.absolute != file.absolute
    ensures VisitDecision(base, filters, file, attrs, nowMillis, s, m) == Failure(IllegalArgument)
  {
  }

  /** Under base /a/b/c, the file /a/b/c/name is seen by the filters as the relative path "name". */
  lemma RelativeToABC(name: string)
    ensures Relativize(Path(true, ["a", "b", "c"]), Path(true, ["a", "b", "c", name])) == Some(Path(false, [name]))
  {
    var base := Path(true, ["a", "b", "c"]);
    var names := ["a", "b", "c", name];
    assert names[..3] == base.names && names[3..] == [name];
    assert Resolve(base, Path(false, [name])) == Path(true, names);
    RelativizeResolve(base, Path(false, [name]));
  }

  /**
   * The examples under base /a/b/c for /a/b/c/any: one accepting filter deletes, one rejecting
   * filter does not, two accepting and one rejecting do not, three accepting do, and test mode
   * never does.
   */
  lemma VisitorExamples(s: State, attrs: Attributes, nowMillis: int, m: Matcher)
    ensures var base := Path(true, ["a", "b", "c"]);
      var any := Path(true, ["a", "b", "c", "any"]);
      && Deletes(base, [Fixed(true)], false, any, attrs, nowMillis, s, m)
      && !Deletes(base, [Fixed(false)], false, any, attrs, nowMillis, s, m)
      && !Deletes(base, [Fixed(true), Fixed(true), Fixed(false)], false, any, attrs, nowMillis, s, m)
      && Deletes(base, [Fixed(true), Fixed(true), Fixed(true)], false, any, attrs, nowMillis, s, m)
      && !Deletes(base, [Fixed(true), Fixed(true), Fixed(true)], true, any, attrs, nowMillis, s, m)
  {
    var yes, no := Fixed(true), Fixed(false);
    FixedFiltersUnderABC([yes], false, s, attrs, nowMillis, m);
    FixedFiltersUnderABC([no], false, s, attrs, nowMillis, m);
    FixedFiltersUnderABC([yes, yes, no], false, s, attrs, nowMillis, m);
    assert [yes, yes, no][2] == no;
    FixedFiltersUnderABC([yes, yes, yes], false, s, attrs, nowMillis, m);
    FixedFiltersUnderABC([yes, yes, yes], true, s, attrs, nowMillis, m);
  }

  /** Fixed filters under base /a/b/c delete /a/b/c/any exactly when none of them is false and not in test mode. */
  lemma FixedFiltersUnderABC(cs: seq<Condition>, testMode: bool, s: State, attrs: Attributes, nowMillis: int, m: Matcher)
    requires cs != [] && forall i | 0 <= i < |cs| :: cs[i].Fixed?
    ensures Deletes(Path(true, ["a", "b", "c"]), cs, testMode, Path(true, ["a", "b", "c", "any"]), attrs, nowMillis, s, m)
      <==> !testMode && Fixed(false) !in cs
  {
    var base := Path(true, ["a", "b", "c"]);
    RelativeToABC("any");
    FixedListAnswers(cs, s, Visit(base, Path(false, ["any"]), attrs, nowMillis), m);
  }

  /** A list of fixed filters accepts exactly when none of them is false, and changes nothing. */
  lemma {:induction false} FixedListAnswers(cs: seq<Condition>, s: State, v: Visit, m: Matcher)
    requires forall i | 0 <= i < |cs| :: cs[i].Fixed?
    ensures AcceptAll(cs, s, v, m) == Step(Fixed(false) !in cs, s)
  {
    if cs != [] {
      FixedListAnswers(cs[1..], s, v, m);
      assert cs == [cs[0]] + cs[1..];
    }
  }

  /** visitFileFailed: a file that vanished lets the walk continue; any other failure is handed back unchanged. */
  function VisitFileFailed(file: Path, fault: IOFault): (r: Result<VisitResult, IOFault>)
    ensures r.Success? <==> fault.NoSuchFile?
    ensures r.Failure? ==> r.error == fault
  {
    if fault.NoSuchFile? then Success(Continue) else Failure(fault)
  }

  class DeletingVisitor {
    const basePath: Path
    const pathConditions: seq<Condition>
    const testMode: bool
    /** The mutable fields of the conditions in pathConditions. */
    const conditions: Engine
    /** Every file handed to delete, in order. */
    var deleted: seq<Path>
    /** Every file test mode reported as to be deleted without deleting it, in order. */
    var reported: seq<Path>

    constructor (basePath: Path, pathConditions: seq<Condition>, testMode: bool, conditions: Engine)
      ensures this.basePath == basePath && this.pathConditions == pathConditions
      ensures this.testMode == testMode && this.conditions == conditions
      ensures deleted == [] && reported == []
    {
      this.basePath := basePath;
      this.pathConditions := pathConditions;
      this.testMode := testMode;
      this.conditions := conditions;
      deleted, reported := [], [];
    }

    /** visitFile(file, attrs), with the clock reading taken during the call. */
    method VisitFile(file: Path, attrs: Attributes, nowMillis: int, m: Matcher) returns (r: Result<VisitResult, VisitError>)
      modifies this, conditions
      ensures var d := VisitDecision(basePath, pathConditions, file, attrs, nowMillis, old(conditions.State()), m);
        && (d.Failure? ==> r == Failure(d.error) && conditions.State() == old(conditions.State()))
        && (d.Success? ==> r == Success(Continue) && conditions.State() == d.value.after)
        && deleted == old(deleted) + (if Deletes(basePath, pathConditions, testMode, file, attrs, nowMillis, old(conditions.State()), m) then [file] else [])
        && reported == old(reported) + if testMode && Selected(basePath, pathConditions, file, attrs, nowMillis, old(conditions.State()), m) then [file] else []
    {
      ghost var before := conditions.State();
      var i := 0;
      while i < |pathConditions|
        invariant 0 <= i <= |pathConditions|
        invariant deleted == old(deleted) && reported == old(reported)
        invariant i == 0 ==> conditions.State() == before
        invariant i > 0 ==> Relativize(basePath, file).Some?
        invariant i > 0 ==>
          var v := Visit(basePath, Relativize(basePath, file).value, attrs, nowMillis);
          AcceptAll(pathConditions, before, v, m) == AcceptAll(pathConditions[i..], conditions.State(), v, m)
      {
        var relative := Relativize(basePath, file);
        if relative.None? {
          return Failure(IllegalArgument);
        }
        var v := Visit(basePath, relative.value, attrs, nowMillis);
        assert pathConditions[i..][0] == pathConditions[i] && pathConditions[i..][1..] == pathConditions[i + 1..];
        var accepted := conditions.Accept(pathConditions[i], v, m);
        if !accepted {
          return Success(Continue);
        }
        i := i + 1;
      }
      if testMode {
        reported := reported + [file];
      } else {
        deleted := deleted + [file];
      }
      r := Success(Continue);
    }
  }
}
