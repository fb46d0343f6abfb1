/** The driver `HackerSingleton.quick_test`: runs an ordered list of
    (description, attack strategy) pairs, announcing each before calling it.
    A call that raises counts as a failure, is logged with its exception class
    and message, and the driver goes on; the first call that returns normally,
    whatever it returns, counts as a success and ends the loop. If every call
    raises, the driver gives up. Whenever every call either returns or raises
    a subclass of `Exception`, it returns "this is a quick test".

    The strategies themselves act on interpreter internals; here each one is
    only the outcome it produced in the run at hand, given as an input. */
module Hacker {
  import opened Python

  /** The attack methods of HackerSingleton that quick_test calls. */
  datatype Strategy =
    | Option0 | Option1 | Option2 | Option3
    | DescriptorBypass | MetaclassOverride | ModuleReload | ResetMangled
    | Subclassing | MemoryAddressHijacking | GcWeakrefBypass
    | ThreadingRaceCondition | PickleBypass | BytecodeManipulation
    | CpythonApiHack | JitCodeInjection | CustomInterpreter

  /** An entry of the attempt list: the text printed first, then the call. */
  datatype Attempt = Attempt(description: string, strategy: Strategy)

  /** What a strategy may return: None, a bool, an int or some object. */
  datatype PyValue = PyNone | PyBool(b: bool) | PyInt(i: int) | PyObject(id: nat)

  /** How one call of a strategy ended. */
  datatype AttemptOutcome = Returns(value: PyValue) | Raises(exc: Exception)

  /** What quick_test does, in order: print a description, call a strategy,
      report success, report a failure with the exception's class name and
      message, or give up. */
  datatype Event =
    | Announce(description: string)
    | Invoke(strategy: Strategy)
    | Broken
    | Failed(className: string, message: string)
    | GiveUp

  /** The attempt list, in the order quick_test runs it. */
  const Attempts: seq<Attempt> := [
    Attempt("attempting...", Option0),
    Attempt("attempt 1", Option1),
    Attempt("attempt 2", Option2),
    Attempt("attempt 3", Option3),
    Attempt("attempt 4", DescriptorBypass),
    Attempt("attempt 5", MetaclassOverride),
    Attempt("attempt 6", ModuleReload),
    Attempt("attempt 7", ResetMangled),
    Attempt("attempt 8", Subclassing),
    Attempt("attempt 9", MemoryAddressHijacking),
    Attempt("attempt 10", GcWeakrefBypass),
    Attempt("attempt 11", ThreadingRaceCondition),
    Attempt("attempt 12", PickleBypass),
    Attempt("attempt 13", BytecodeManipulation),
    Attempt("attempt 14", CpythonApiHack),
    Attempt("attempt 15", JitCodeInjection),
    Attempt("attempt 16", CustomInterpreter)
  ]

  const QuickTestResult: string := "this is a quick test"

  /** The event reporting how a call ended. */
  function Report(o: AttemptOutcome): (e: Event)
    ensures e.Broken? <==> o.Returns?
    ensures o.Raises? ==> e == Failed(o.exc.cls.Name(), o.exc.message)
  {
    match o
    case Returns(_) => Broken
    case Raises(e) => Failed(e.cls.Name(), e.message)
  }

  /** The events of running `attempts` with the given outcomes: each attempt is
      announced, called and reported, up to and including the first that
      returns; if none returns, the run ends by giving up. */
  function Transcript(attempts: seq<Attempt>, outcome: Strategy -> AttemptOutcome): (t: seq<Event>)
    decreases |attempts|
  {
    if attempts == [] then [GiveUp]
    else
      var a := attempts[0];
      var o := outcome(a.strategy);
      [Announce(a.description), Invoke(a.strategy), Report(o)]
      + (if o.Returns? then [] else Transcript(attempts[1..], outcome))
  }

  /** The index of the first attempt whose call returns normally, if any. */
  function FirstSuccess(attempts: seq<Attempt>, outcome: Strategy -> AttemptOutcome): (r: Option<nat>)
    ensures r.Some? ==> r.value < |attempts|
    decreases |attempts|
  {
    if attempts == [] then None
    else if outcome(attempts[0].strategy).Returns? then Some(0)
    else
      match FirstSuccess(attempts[1..], outcome)
      case Some(k) => Some(k + 1)
      case None => None
  }

  /** `FirstSuccess` finds the attempt that returns while every earlier one
      raised; it finds none exactly when every attempt raised. */
  lemma {:induction false} FirstSuccessSpec(attempts: seq<Attempt>, outcome: Strategy -> AttemptOutcome)
    ensures FirstSuccess(attempts, outcome).Some? ==>
              var k := FirstSuccess(attempts, outcome).value;
              k < |attempts| && outcome(attempts[k].strategy).Returns? &&
              forall j :: 0 <= j < k ==> outcome(attempts[j].strategy).Raises?
    ensures FirstSuccess(attempts, outcome).None? <==>
              forall j :: 0 <= j < |attempts| ==> outcome(attempts[j].strategy).Raises?
    decreases |attempts|
  {
    if attempts != [] && outcome(attempts[0].strategy).Raises? {
      var rest := attempts[1..];
      FirstSuccessSpec(rest, outcome);
      assert forall j :: 1 <= j < |attempts| ==> attempts[j] == rest[j - 1];
    }
  }

  /** How many attempts get called: up to the first success, or all of them. */
  function Called(attempts: seq<Attempt>, outcome: Strategy -> AttemptOutcome): (n: nat)
    ensures n <= |attempts|
  {
    match FirstSuccess(attempts, outcome)
    case Some(k) => k + 1
    case None => |attempts|
  }

  /** The first attempt is announced, called and reported; the run goes on
      with the rest of the list only when that call raised. */
  lemma TranscriptHead(attempts: seq<Attempt>, outcome: Strategy -> AttemptOutcome)
    requires attempts != []
    ensures outcome(attempts[0].strategy).Returns? ==>
              Transcript(attempts, outcome) ==
                [Announce(attempts[0].description), Invoke(attempts[0].strategy), Broken]
    ensures outcome(attempts[0].strategy).Raises? ==>
              Transcript(attempts, outcome) ==
                [Announce(attempts[0].description), Invoke(attempts[0].strategy),
                 Report(outcome(attempts[0].strategy))] + Transcript(attempts[1..], outcome)
  {
  }

  /** When the first attempt raises, the winner and the number of calls are
      those of the rest of the list, one attempt later. */
  lemma {:induction false} CalledAfterFailure(attempts: seq<Attempt>, outcome: Strategy -> AttemptOutcome)
    requires attempts != [] && outcome(attempts[0].strategy).Raises?
    ensures FirstSuccess(attempts, outcome).None? <==> FirstSuccess(attempts[1..], outcome).None?
    ensures Called(attempts, outcome) == Called(attempts[1..], outcome) + 1
  {
  }

  /** The first attempt that returns, after a run of raising ones, is the winner. */
  lemma FirstSuccessIs(attempts: seq<Attempt>, outcome: Strategy -> AttemptOutcome, i: nat)
    requires i < |attempts| && outcome(attempts[i].strategy).Returns?
    requires forall j :: 0 <= j < i ==> outcome(attempts[j].strategy).Raises?
    ensures FirstSuccess(attempts, outcome) == Some(i)
  {
    FirstSuccessSpec(attempts, outcome);
  }

  /** A run has three events per called attempt, plus a final GiveUp when no
      call returned. */
  lemma {:induction false} TranscriptLength(attempts: seq<Attempt>, outcome: Strategy -> AttemptOutcome)
    ensures |Transcript(attempts, outcome)| ==
              3 * Called(attempts, outcome) + (if FirstSuccess(attempts, outcome).None? then 1 else 0)
    ensures FirstSuccess(attempts, outcome).None? ==>
              Called(attempts, outcome) == |attempts| &&
              Transcript(attempts, outcome)[3 * |attempts|] == GiveUp
    decreases |attempts|
  {
    if attempts != [] {
      TranscriptHead(attempts, outcome);
      if outcome(attempts[0].strategy).Raises? {
        TranscriptLength(attempts[1..], outcome);
        CalledAfterFailure(attempts, outcome);
      }
    }
  }

  /** The layout of a run: attempt j, for j below `Called` (up to the first
      success, or all of them), occupies events 3j, 3j+1 and 3j+2: it is
      announced, then called, then reported. */
  lemma {:induction false} AttemptEvents(attempts: seq<Attempt>, outcome: Strategy -> AttemptOutcome, j: nat)
    requires j < Called(attempts, outcome)
    ensures j < |attempts| && 3 * j + 2 < |Transcript(attempts, outcome)|
    ensures Transcript(attempts, outcome)[3 * j] == Announce(attempts[j].description)
    ensures Transcript(attempts, outcome)[3 * j + 1] == Invoke(attempts[j].strategy)
    ensures Transcript(attempts, outcome)[3 * j + 2] == Report(outcome(attempts[j].strategy))
    decreases j
  {
    TranscriptLength(attempts, outcome);
    TranscriptHead(attempts, outcome);
    if j > 0 {
      assert outcome(attempts[0].strategy).Raises?;
      CalledAfterFailure(attempts, outcome);
      AttemptEvents(attempts[1..], outcome, j - 1);
      assert attempts[j] == attempts[1..][j - 1];
    }
  }

  /** Every call in a run is attempt j's, at position 3j+1 with j below
      `Called` (writing each position as 3j+r with r < 3): no attempt is called
      twice, none after the first success, and each is announced just before
      it is called. */
  lemma InvokeAt(attempts: seq<Attempt>, outcome: Strategy -> AttemptOutcome, j: nat, r: nat)
    requires r < 3 && 3 * j + r < |Transcript(attempts, outcome)|
    requires Transcript(attempts, outcome)[3 * j + r].Invoke?
    ensures r == 1 && j < Called(attempts, outcome)
    ensures Transcript(attempts, outcome)[3 * j + 1] == Invoke(attempts[j].strategy)
    ensures Transcript(attempts, outcome)[3 * j] == Announce(attempts[j].description)
  {
    TranscriptLength(attempts, outcome);
    if j < Called(attempts, outcome) {
      AttemptEvents(attempts, outcome, j);
    }
  }

  /** A run ends in GiveUp exactly when every attempt raised. */
  lemma {:induction false} GiveUpIffAllRaise(attempts: seq<Attempt>, outcome: Strategy -> AttemptOutcome)
    ensures Transcript(attempts, outcome)[|Transcript(attempts, outcome)| - 1] == GiveUp
            <==> forall j :: 0 <= j < |attempts| ==> outcome(attempts[j].strategy).Raises?
  {
    TranscriptLength(attempts, outcome);
    FirstSuccessSpec(attempts, outcome);
    match FirstSuccess(attempts, outcome)
    case Some(k) =>
      AttemptEvents(attempts, outcome, k);
    case None =>
  }

  /** Success is decided by the absence of an exception alone: changing what
      the successful calls return changes neither the run nor its winner. */
  lemma {:induction false} ReturnValueIgnored(attempts: seq<Attempt>,
                                               outcome1: Strategy -> AttemptOutcome,
                                               outcome2: Strategy -> AttemptOutcome)
    requires forall s :: outcome1(s).Returns? <==> outcome2(s).Returns?
    requires forall s :: outcome1(s).Raises? ==> outcome1(s) == outcome2(s)
    ensures Transcript(attempts, outcome1) == Transcript(attempts, outcome2)
    ensures FirstSuccess(attempts, outcome1) == FirstSuccess(attempts, outcome2)
    decreases |attempts|
  {
    if attempts != [] {
      ReturnValueIgnored(attempts[1..], outcome1, outcome2);
    }
  }

  /** Where each strategy sits in the attempt list. */
  function Position(s: Strategy): (p: nat)
    ensures p < |Attempts| && Attempts[p].strategy == s
  {
    match s
    case Option0 => 0
    case Option1 => 1
    case Option2 => 2
    case Option3 => 3
    case DescriptorBypass => 4
    case MetaclassOverride => 5
    case ModuleReload => 6
    case ResetMangled => 7
    case Subclassing => 8
    case MemoryAddressHijacking => 9
    case GcWeakrefBypass => 10
    case ThreadingRaceCondition => 11
    case PickleBypass => 12
    case BytecodeManipulation => 13
    case CpythonApiHack => 14
    case JitCodeInjection => 15
    case CustomInterpreter => 16
  }

  /** Every strategy occurs in the attempt list exactly once. */
  lemma AttemptsListEachStrategyOnce()
    ensures forall i :: 0 <= i < |Attempts| ==> Position(Attempts[i].strategy) == i
    ensures forall i, j :: 0 <= i < j < |Attempts| ==> Attempts[i].strategy != Attempts[j].strategy
  {
  }

  /** When the attempts hold pairwise different strategies, the calls of two
      different attempts in a run (at 3j+1, see `InvokeAt`) call different
      strategies. */
  lemma CallsDistinct(attempts: seq<Attempt>, outcome: Strategy -> AttemptOutcome, j1: nat, j2: nat)
    requires forall i, j :: 0 <= i < j < |attempts| ==> attempts[i].strategy != attempts[j].strategy
    requires j1 < j2 < Called(attempts, outcome)
    ensures 3 * j2 + 1 < |Transcript(attempts, outcome)| &&
            Transcript(attempts, outcome)[3 * j1 + 1] != Transcript(attempts, outcome)[3 * j2 + 1]
  {
    AttemptEvents(attempts, outcome, j1);
    AttemptEvents(attempts, outcome, j2);
  }

  /** In a run of quick_test no strategy is called twice. */
  lemma QuickTestCallsEachStrategyAtMostOnce(outcome: Strategy -> AttemptOutcome, j1: nat, j2: nat)
    requires j1 < j2 < Called(Attempts, outcome)
    ensures 3 * j2 + 1 < |Transcript(Attempts, outcome)| &&
            Transcript(Attempts, outcome)[3 * j1 + 1] != Transcript(Attempts, outcome)[3 * j2 + 1]
  {
    AttemptsListEachStrategyOnce();
    CallsDistinct(Attempts, outcome, j1, j2);
  }

  /** The loop of quick_test over an attempt list: announces and calls each
      attempt in turn, stops at the first call that returns (the `break`),
      and gives up when every call raised (the `for ... else`). */
  method RunAttempts(attempts: seq<Attempt>, outcome: Strategy -> AttemptOutcome)
    returns (log: seq<Event>, winner: Option<nat>)
    ensures log == Transcript(attempts, outcome)
    ensures winner == FirstSuccess(attempts, outcome)
  {
    log := [];
    winner := None;
    var i := 0;
    while i < |attempts|
      invariant 0 <= i <= |attempts|
      invariant winner == None
      invariant forall j :: 0 <= j < i ==> outcome(attempts[j].strategy).Raises?
      invariant Transcript(attempts, outcome) == log + Transcript(attempts[i..], outcome)
    {
      var a := attempts[i];
      log := log + [Announce(a.description)];
      var o := outcome(a.strategy);
      log := log + [Invoke(a.strategy)];
      TranscriptHead(attempts[i..], outcome);
      match o {
        case Returns(_) =>
          log := log + [Broken];
          FirstSuccessIs(attempts, outcome, i);
          winner := Some(i);
          break;
        case Raises(e) =>
          log := log + [Failed(e.cls.Name(), e.message)];
          assert attempts[i..][1..] == attempts[i + 1..];
      }
      i := i + 1;
    }
    if winner == None {
      log := log + [GiveUp];
      FirstSuccessSpec(attempts, outcome);
    }
  }

  /** quick_test: runs the fixed attempt list and returns its fixed text; the
      events it produced and the index of the attempt that succeeded, if any,
      are returned beside it. */
  method QuickTest(outcome: Strategy -> AttemptOutcome)
    returns (result: string, log: seq<Event>, winner: Option<nat>)
    ensures result == QuickTestResult
    ensures log == Transcript(Attempts, outcome)
    ensures winner == FirstSuccess(Attempts, outcome)
  {
    log, winner := RunAttempts(Attempts, outcome);
    result := QuickTestResult;
  }
}
