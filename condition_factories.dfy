/**
 * The plugin factory methods that build conditions, with the configuration errors they raise:
 * IfNot.createNotCondition, IfFileName.createNameCondition (and its getSyntaxAndPattern form)
 * and IfAccumulatedFileSize.createFileSizeCondition. IfAll, IfAny, IfLastModified and
 * IfAccumulatedFileCount are built directly by their datatype constructors: the model does not
 * check their thresholds or ages, so any argument list builds a condition.
 */
module ConditionFactories {
  import opened Wrappers
  import opened Strings
  import opened PathConditions
  import FileSize

  /** Errors raised while a condition is configured. */
  datatype ConfigError =
    | NullCondition                 // IfNot given no condition (NullPointerException)
    | NoPattern                     // IfFileName given neither a glob nor a regex (IllegalArgumentException)
    | UnrecognisedSize(text: string)

  /** The pattern marked with "syntax:", unless it already carries that mark. */
  function WithSyntax(syntax: string, pattern: string): (r: string)
    ensures HasPrefix(r, syntax + ":")
    ensures HasPrefix(pattern, syntax + ":") ==> r == pattern
    ensures !HasPrefix(pattern, syntax + ":") ==> r[|syntax| + 1..] == pattern
  {
    if HasPrefix(pattern, syntax + ":") then pattern else syntax + ":" + pattern
  }

  /** getSyntaxAndPattern: the glob marked "glob:" when a glob is given (it wins over a regex), else the regex marked "regex:". */
  function SyntaxAndPattern(glob: Option<string>, regex: Option<string>): (r: string)
    requires glob.Some? || regex.Some?
    ensures glob.Some? ==> HasPrefix(r, "glob:") && r == WithSyntax("glob", glob.value)
    ensures glob.None? ==> HasPrefix(r, "regex:") && r == WithSyntax("regex", regex.value)
  {
    if glob.Some? then WithSyntax("glob", glob.value) else WithSyntax("regex", regex.value)
  }

  /** Marking is idempotent: a pattern that already carries its mark is not marked twice. */
  lemma WithSyntaxIdempotent(syntax: string, pattern: string)
    ensures WithSyntax(syntax, WithSyntax(syntax, pattern)) == WithSyntax(syntax, pattern)
  {
  }

  /** IfNot.createNotCondition: a missing condition is an error. */
  function CreateNotCondition(negate: Option<Condition>): (r: Result<Condition, ConfigError>)
    ensures r.Failure? <==> negate.None?
    ensures r.Failure? ==> r.error == NullCondition
    ensures r.Success? ==> r.value == Not(negate.value)
  {
    if negate.None? then Failure(NullCondition) else Success(Not(negate.value))
  }

  /** IfFileName.createNameCondition: at least one of glob and regex must be given. */
  function CreateNameCondition(glob: Option<string>, regex: Option<string>, nested: seq<Condition>): (r: Result<Condition, ConfigError>)
    ensures r.Failure? <==> glob.None? && regex.None?
    ensures r.Failure? ==> r.error == NoPattern
    ensures r.Success? ==> r.value.FileName? && r.value.nested == nested
    ensures r.Success? ==> r.value.syntaxAndPattern == SyntaxAndPattern(glob, regex)
  {
    if glob.None? && regex.None? then Failure(NoPattern)
    else Success(FileName(SyntaxAndPattern(glob, regex), nested))
  }

  /** A glob wins over a regex: once a glob is given, the regex makes no difference to the condition built. */
  lemma GlobIgnoresRegex(glob: string, regex: Option<string>, nested: seq<Condition>)
    ensures CreateNameCondition(Some(glob), regex, nested) == CreateNameCondition(Some(glob), None, nested)
    ensures CreateNameCondition(Some(glob), regex, nested) == Success(FileName(WithSyntax("glob", glob), nested))
  {
  }

  /** IfAccumulatedFileSize.createFileSizeCondition: the threshold (getThresholdBytes) is the parsed size. */
  function CreateFileSizeCondition(id: NodeId, size: string, nested: seq<Condition>): (r: Result<Condition, ConfigError>)
    ensures r.Failure? <==> FileSize.Parse(size).None?
    ensures r.Failure? ==> r.error == UnrecognisedSize(size)
    ensures r.Success? ==> r.value == AccumulatedSize(id, FileSize.Parse(size).value, nested)
  {
    match FileSize.Parse(size)
    case None => Failure(UnrecognisedSize(size))
    case Some(bytes) => Success(AccumulatedSize(id, bytes, nested))
  }

  /** The getSyntaxAndPattern examples: "path" and "glob:path" give "glob:path"; a regex "bar" or "regex:bar" gives "regex:bar". */
  lemma SyntaxAndPatternExamples()
    ensures SyntaxAndPattern(Some("path"), None) == "glob:path"
    ensures SyntaxAndPattern(Some("glob:path"), None) == "glob:path"
    ensures SyntaxAndPattern(None, Some("bar")) == "regex:bar"
    ensures SyntaxAndPattern(None, Some("regex:bar")) == "regex:bar"
  {
    assert !HasPrefix("path", "glob:");
    assert HasPrefix("glob:path", "glob:");
    assert !HasPrefix("bar", "regex:");
    assert HasPrefix("regex:bar", "regex:");
  }
}
