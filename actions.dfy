/**
 * AbstractAction.run: the action's work runs at most once; whatever it throws is caught and
 * reported to the process-wide status log as exactly one WARN entry naming the action's class
 * and the exception, and run itself always returns normally.
 */
module Actions {
  import opened Wrappers
  import opened Strings

  /** The status log's levels, most severe first. */
  datatype Level = Fatal | Error | Warn | Info | Debug | Trace

  /** The kinds of Throwable the action tells apart: checked I/O exceptions, runtime exceptions and JVM errors (AssertionError among them). */
  datatype Category = CheckedIO | Runtime | JvmError

  /** A Throwable: its category, its class name and its message, when it has one. */
  datatype Fault = Fault(category: Category, className: string, message: Option<string>)

  /** What execute() did: returned a result, or threw. */
  datatype ExecOutcome = Returned(workDone: bool) | Threw(fault: Fault)

  /** One status log entry: level, formatted message and the throwable passed with it. */
  datatype StatusData = StatusData(level: Level, message: string, throwable: Option<Fault>)

  /** Throwable.toString(): the class name, then ": " and the message when there is one. */
  function ThrowableText(f: Fault): (r: string)
    ensures HasPrefix(r, f.className)
    ensures f.message.None? ==> r == f.className
    ensures f.message.Some? ==> r[|f.className|..] == ": " + f.message.value
  {
    f.className + if f.message.Some? then ": " + f.message.value else ""
  }

  /**
   * The exception that is reported: runtime and I/O exceptions as they are; an Error is wrapped
   * in a new RuntimeException whose message is the error's own text.
   */
  function Reported(f: Fault): (r: Fault)
    ensures f.category != JvmError ==> r == f
    ensures f.category == JvmError ==> r.category == Runtime && ThrowableText(r) == "java.lang.RuntimeException: " + ThrowableText(f)
  {
    if f.category == JvmError then Fault(Runtime, "java.lang.RuntimeException", Some(ThrowableText(f))) else f
  }

  const ReportPrefix := "Exception reported by action"

  /** The message of the warning, with the action's class written as Class.toString() writes it. */
  function ReportMessage(actionType: string): (r: string)
    ensures HasPrefix(r, ReportPrefix)
  {
    ReportPrefix + " 'class " + actionType + "'"
  }

  /**
   * The formatted status, without the timestamp, thread name and level written before it and
   * without the stack trace lines after the throwable's first line.
   */
  function FormattedStatus(d: StatusData): string {
    d.message + if d.throwable.Some? then " " + ThrowableText(d.throwable.value) else ""
  }

  /** The status entries one run adds: none when execute() returns, one WARN entry when it throws, whatever it threw. */
  function StatusEntries(actionType: string, outcome: ExecOutcome): (r: seq<StatusData>)
    ensures |r| == if outcome.Threw? then 1 else 0
    ensures forall i | 0 <= i < |r| :: r[i].level == Warn && HasPrefix(FormattedStatus(r[i]), ReportPrefix)
    ensures outcome.Threw? ==> r[0].throwable == Some(Reported(outcome.fault))
  {
    match outcome
    case Returned(_) => []
    case Threw(f) => [StatusData(Warn, ReportMessage(actionType), Some(Reported(f)))]
  }

  /** Whatever execute() throws, the entry reads "Exception reported by action 'class T' " followed by the reported throwable's text. */
  lemma ReportText(actionType: string, f: Fault)
    ensures FormattedStatus(StatusEntries(actionType, Threw(f))[0])
      == "Exception reported by action 'class " + actionType + "' " + ThrowableText(Reported(f))
  {
    var head := "Exception reported by action 'class " + actionType + "'";
    assert ReportMessage(actionType) == head;
    assert head + " " + ThrowableText(Reported(f)) == "Exception reported by action 'class " + actionType + "' " + ThrowableText(Reported(f));
  }

  /** An IOException("failed") is reported as "Exception reported by action 'class T' java.io.IOException: failed". */
  lemma IOExceptionReport(actionType: string)
    ensures var r := StatusEntries(actionType, Threw(Fault(CheckedIO, "java.io.IOException", Some("failed"))));
      && |r| == 1 && r[0].level == Warn
      && FormattedStatus(r[0]) == "Exception reported by action 'class " + actionType + "' java.io.IOException: failed"
  {
    var f := Fault(CheckedIO, "java.io.IOException", Some("failed"));
    ReportText(actionType, f);
    assert ThrowableText(f) == "java.io.IOException: failed";
  }

  /** An AssertionError with no message is reported inside a RuntimeException that carries its name. */
  lemma AssertionErrorReport(actionType: string)
    ensures var r := StatusEntries(actionType, Threw(Fault(JvmError, "java.lang.AssertionError", None)));
      && |r| == 1 && r[0].level == Warn
      && FormattedStatus(r[0]) == "Exception reported by action 'class " + actionType + "' " + "java.lang.RuntimeException: java.lang.AssertionError"
  {
    var f := Fault(JvmError, "java.lang.AssertionError", None);
    ReportText(actionType, f);
    assert ThrowableText(f) == "java.lang.AssertionError";
    assert ThrowableText(Reported(f)) == "java.lang.RuntimeException: java.lang.AssertionError";
  }

  /** The process-wide status logger, reduced to the list of entries it keeps. */
  class StatusLogger {
    var data: seq<StatusData>

    constructor ()
      ensures data == []
    {
      data := [];
    }

    method Clear()
      modifies this
      ensures data == []
    {
      data := [];
    }

    /** Logs at WARN a message with a throwable. */
    method Warn(message: string, t: Fault)
      modifies this
      ensures data == old(data) + [StatusData(Level.Warn, message, Some(t))]
    {
      data := data + [StatusData(Level.Warn, message, Some(t))];
    }
  }

  class AbstractAction {
    /** The concrete action's class name. */
    const actionType: string
    var complete: bool
    var interrupted: bool

    constructor (actionType: string)
      ensures this.actionType == actionType && !complete && !interrupted
    {
      this.actionType := actionType;
      complete := false;
      interrupted := false;
    }

    /**
     * run(): unless interrupted, performs execute() (whose outcome is given), reports what it
     * threw and marks the action complete and interrupted, so it never runs twice.
     */
    method Run(outcome: ExecOutcome, logger: StatusLogger)
      modifies this, logger
      ensures old(interrupted) ==> complete == old(complete) && interrupted && logger.data == old(logger.data)
      ensures !old(interrupted) ==> complete && interrupted && logger.data == old(logger.data) + StatusEntries(actionType, outcome)
    {
      if !interrupted {
        match outcome {
          case Returned(_) =>
          case Threw(f) => ReportException(Reported(f), logger);
        }
        complete := true;
        interrupted := true;
      }
    }

    /** reportException: one WARN entry naming this action's class, with the exception. */
    method ReportException(ex: Fault, logger: StatusLogger)
      modifies logger
      ensures logger.data == old(logger.data) + [StatusData(Warn, ReportMessage(actionType), Some(ex))]
    {
      logger.Warn(ReportMessage(actionType), ex);
    }

    /** close(): cancels the action; a later run does nothing. */
    method Close()
      modifies this
      ensures interrupted && complete == old(complete)
    {
      interrupted := true;
    }
  }
}
