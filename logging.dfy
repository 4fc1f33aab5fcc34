/**
 * The counting log handler of the HDF validator (HDFValidatorHandler) and the
 * `log` helper that delivers a list of records to it.
 *
 * A log record is reduced to its numeric level; the message text plays no
 * part in any decision of the validator.
 */
module Logging {

  // The numeric levels of Python's logging module.
  const DEBUG: int := 10
  const INFO: int := 20
  const WARN: int := 30      // logging.WARN is an alias of logging.WARNING
  const ERROR: int := 40
  const CRITICAL: int := 50

  /** log_title of a main section: a rule of underscores, the title and its underline, each at INFO. */
  const SECTION_TITLE: seq<int> := [INFO, INFO, INFO]

  /** A section title logs neither an error nor a warning. */
  lemma SectionTitleQuiet()
    ensures ErrorsIn(SECTION_TITLE) == 0 && WarningsIn(SECTION_TITLE) == 0
  {
    var t := SECTION_TITLE;
    assert t[1..][1..][1..] == [];
    assert ErrorsIn(t[1..][1..]) == 0 && WarningsIn(t[1..][1..]) == 0;
  }

  /** A record the handler counts as an error: ERROR, CRITICAL or above. */
  predicate IsError(level: int) { level >= ERROR }

  /** A record the handler counts as a warning: exactly WARN. */
  predicate IsWarning(level: int) { level == WARN }

  /** Number of records in `levels` counted as errors. */
  function ErrorsIn(levels: seq<int>): (n: nat)
    ensures n <= |levels|
  {
    if levels == [] then 0
    else (if IsError(levels[0]) then 1 else 0) + ErrorsIn(levels[1..])
  }

  /** Number of records in `levels` counted as warnings. */
  function WarningsIn(levels: seq<int>): (n: nat)
    ensures n <= |levels|
  {
    if levels == [] then 0
    else (if IsWarning(levels[0]) then 1 else 0) + WarningsIn(levels[1..])
  }

  lemma {:induction false} ErrorsInConcat(a: seq<int>, b: seq<int>)
    ensures ErrorsIn(a + b) == ErrorsIn(a) + ErrorsIn(b)
  {
    if a != [] {
      assert (a + b)[1..] == a[1..] + b;
      ErrorsInConcat(a[1..], b);
    } else {
      assert a + b == b;
    }
  }

  lemma {:induction false} WarningsInConcat(a: seq<int>, b: seq<int>)
    ensures WarningsIn(a + b) == WarningsIn(a) + WarningsIn(b)
  {
    if a != [] {
      assert (a + b)[1..] == a[1..] + b;
      WarningsInConcat(a[1..], b);
    } else {
      assert a + b == b;
    }
  }

  /** No record is counted as an error exactly when no level reaches ERROR. */
  lemma {:induction false} ErrorsInZero(levels: seq<int>)
    ensures ErrorsIn(levels) == 0 <==> forall i :: 0 <= i < |levels| ==> !IsError(levels[i])
  {
    if levels != [] {
      ErrorsInZero(levels[1..]);
      assert forall i :: 1 <= i < |levels| ==> levels[i] == levels[1..][i - 1];
    }
  }

  /** The pair returned by get_error_counts. */
  datatype Counts = Counts(warnings: nat, errors: nat)

  /**
   * A log handler that counts warnings and errors and, when asked to, stops
   * the validation at the first error (the source raises StoppedOnFirstError;
   * here `Emit` reports it through its result).
   */
  class ValidatorHandler {
    const stopOnError: bool
    var errors: nat
    var warnings: nat

    constructor (stopOnError: bool)
      ensures this.stopOnError == stopOnError
      ensures errors == 0 && warnings == 0
    {
      this.stopOnError := stopOnError;
      errors := 0;
      warnings := 0;
    }

    /**
     * Counts one record. A record at ERROR or above (CRITICAL included) is an
     * error; one at exactly WARN is a warning; any other level is ignored.
     * The error is counted before the handler asks to stop.
     */
    method Emit(level: int) returns (stopped: bool)
      modifies this
      ensures errors == old(errors) + (if IsError(level) then 1 else 0)
      ensures warnings == old(warnings) + (if IsWarning(level) then 1 else 0)
      ensures stopped <==> stopOnError && IsError(level)
    {
      if level >= ERROR {
        errors := errors + 1;
      } else if level == WARN {
        warnings := warnings + 1;
      }
      stopped := stopOnError && level >= ERROR;
    }

    /** The number of warnings and errors counted so far. */
    method GetErrorCounts() returns (c: Counts)
      ensures c.warnings == warnings && c.errors == errors
    {
      c := Counts(warnings, errors);
    }
  }

  /**
   * The records a handler actually receives from a list: all of them, or,
   * when it stops on the first error, those up to and including that error.
   */
  function Delivered(levels: seq<int>, stopOnError: bool): (d: seq<int>)
    ensures |d| <= |levels|
  {
    if levels == [] then []
    else if stopOnError && IsError(levels[0]) then [levels[0]]
    else [levels[0]] + Delivered(levels[1..], stopOnError)
  }

  /** Without stop-on-error every record is delivered. */
  lemma {:induction false} DeliveredAll(levels: seq<int>)
    ensures Delivered(levels, false) == levels
  {
    if levels != [] {
      DeliveredAll(levels[1..]);
    }
  }

  /**
   * The delivered records are a prefix of the list: with stop-on-error no
   * error comes before its last record, and it falls short of the list only
   * by ending at an error. So it is the list up to and including its first
   * error, or the whole list when there is none.
   */
  lemma {:induction false} DeliveredPrefixToFirstError(levels: seq<int>, stopOnError: bool)
    ensures var d := Delivered(levels, stopOnError); d == levels[..|d|]
    ensures var d := Delivered(levels, stopOnError);
            stopOnError ==> forall i :: 0 <= i < |d| - 1 ==> !IsError(d[i])
    ensures var d := Delivered(levels, stopOnError);
            |d| < |levels| ==> stopOnError && |d| > 0 && IsError(d[|d| - 1])
  {
    if levels != [] && !(stopOnError && IsError(levels[0])) {
      DeliveredPrefixToFirstError(levels[1..], stopOnError);
      var t := Delivered(levels[1..], stopOnError);
      assert Delivered(levels, stopOnError) == [levels[0]] + t;
      assert [levels[0]] + levels[1..][..|t|] == levels[..|t| + 1];
    }
  }

  /**
   * With stop-on-error, at most one error is ever counted, and one is counted
   * exactly when the list holds an error.
   */
  lemma {:induction false} DeliveredStopsAtFirstError(levels: seq<int>)
    ensures ErrorsIn(Delivered(levels, true)) == if exists i :: 0 <= i < |levels| && IsError(levels[i]) then 1 else 0
  {
    if levels != [] {
      DeliveredStopsAtFirstError(levels[1..]);
      assert forall i :: 1 <= i < |levels| ==> levels[i] == levels[1..][i - 1];
      if !IsError(levels[0]) && exists i :: 0 <= i < |levels[1..]| && IsError(levels[1..][i]) {
        var i :| 0 <= i < |levels[1..]| && IsError(levels[1..][i]);
        assert IsError(levels[i + 1]);
      }
    }
  }

  /** The facts about one more delivered record that the loop of `Log` needs. */
  lemma LogStep(records: seq<int>, i: nat)
    requires i < |records|
    ensures records[i..] == [records[i]] + records[i + 1..]
    ensures records[..i + 1] == records[..i] + [records[i]]
    ensures ErrorsIn(records[..i + 1]) == ErrorsIn(records[..i]) + (if IsError(records[i]) then 1 else 0)
    ensures WarningsIn(records[..i + 1]) == WarningsIn(records[..i]) + (if IsWarning(records[i]) then 1 else 0)
  {
    assert records[..i + 1] == records[..i] + [records[i]];
    ErrorsInConcat(records[..i], [records[i]]);
    WarningsInConcat(records[..i], [records[i]]);
  }

  /** Delivering record i either ends the delivery (an error, with stop-on-error) or carries on after it. */
  lemma DeliverOne(records: seq<int>, i: nat, stop: bool, all: seq<int>)
    requires i < |records| && all == records[..i] + Delivered(records[i..], stop)
    ensures stop && IsError(records[i]) ==> all == records[..i + 1]
    ensures !(stop && IsError(records[i])) ==> all == records[..i + 1] + Delivered(records[i + 1..], stop)
  {
    assert records[i..][1..] == records[i + 1..];
    assert records[..i + 1] == records[..i] + [records[i]];
  }

  /**
   * Sends each record of a list to the handler in order (the source's `log`),
   * stopping as soon as the handler asks to stop.
   */
  method Log(h: ValidatorHandler, records: seq<int>) returns (stopped: bool)
    modifies h
    ensures h.errors == old(h.errors) + ErrorsIn(Delivered(records, h.stopOnError))
    ensures h.warnings == old(h.warnings) + WarningsIn(Delivered(records, h.stopOnError))
    ensures stopped <==> h.stopOnError && exists i :: 0 <= i < |records| && IsError(records[i])
  {
    ghost var stop := h.stopOnError;
    ghost var all := Delivered(records, stop);
    var i := 0;
    stopped := false;
    while i < |records| && !stopped
      invariant 0 <= i <= |records|
      invariant !stopped ==> stop ==> forall j :: 0 <= j < i ==> !IsError(records[j])
      invariant stopped ==> stop && 0 < i && IsError(records[i - 1])
      invariant !stopped ==> all == records[..i] + Delivered(records[i..], stop)
      invariant stopped ==> all == records[..i]
      invariant h.errors == old(h.errors) + ErrorsIn(records[..i])
      invariant h.warnings == old(h.warnings) + WarningsIn(records[..i])
    {
      var x := records[i];
      LogStep(records, i);
      DeliverOne(records, i, stop, all);
      stopped := h.Emit(x);
      i := i + 1;
    }
    if !stopped {
      assert records[i..] == [];
      assert all == records[..i];
    }
    assert h.errors == old(h.errors) + ErrorsIn(all);
  }
}
