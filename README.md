# TestingSingleton in Dafny

This project models the two sequential pieces of `hackingSingleton.py`. It
proves what each one promises.

- **`TrueSingleton`** is a guarded single-instance factory. Its state is two
  class-level fields: the flag `__instantiated` and the stored object
  `__instance`. `__new__` succeeds once: it sets the flag, stores the new
  object and returns it. Every later call raises `RuntimeError` and changes
  nothing. `__init_subclass__`, `__del__`, `__reduce__` and `__deepcopy__`
  raise unconditionally, each with its own exception.
- **`HackerSingleton.quick_test`** is a driver. It runs a fixed, ordered list of
  17 (description, attack strategy) pairs. It prints each description, then
  calls the strategy. A call that raises is logged with its exception's class
  name and message, and the loop goes on. The first call that returns
  normally counts as a success, whatever it returns, and ends the loop. If
  every call raises, the driver prints "I give up...". When every call either
  returns or raises a subclass of `Exception`, the driver returns
  "this is a quick test".

Files:

- `python.dfy` (module `Python`): `Option` for values that may be `None`, and
  exceptions as a class plus a message.
- `singleton.dfy` (module `Singleton`): the class state as a value
  (`ClassState`), and the operations as pure functions (`New`, `Step`, `Run`),
  with lemmas about them. The class `TrueSingleton` holds the two fields. Its
  `New` method is proved to make exactly the transition that `Step` specifies.
  The object that `object.__new__` would allocate is passed in as `newObj`.
  Object identity is an abstract `ObjectId`.
- `hacker.dfy` (module `Hacker`): the attack strategies as an enumeration and
  the attempt list as a constant. Each strategy's result in a given run is an
  input (`outcome: Strategy -> AttemptOutcome`): it either returns a value or
  raises an exception. Console output is a sequence of events (`Announce`,
  `Invoke`, `Broken`, `Failed`, `GiveUp`). `Transcript` and `FirstSuccess`
  specify a run. `RunAttempts` is the loop, proved against them, and
  `QuickTest` applies it to the fixed list. Besides the source's return value,
  `QuickTest` returns the events (what the source prints) and the index of the
  attempt that succeeded, if any.

## Model

| member | source | states |
|---|---|---|
| `Singleton.New` | hackingSingleton.py:12-27 | `__new__` returns an object iff the flag is clear; it then returns the object it allocated and the state becomes (flag set, that object stored); otherwise it raises RuntimeError and the state is unchanged |
| `Singleton.Step` | hackingSingleton.py:12-46 | an operation returns an object only when it is an instantiation on a clear flag; a refused operation raises its own rejection and leaves the state unchanged; a set flag stays set; consistency of flag and stored instance is preserved |
| `Singleton.Run` | hackingSingleton.py:12-46 | a sequence of operations yields exactly one outcome per operation |
| `Singleton.GuardsAlwaysRaise` | hackingSingleton.py:29-46 | in every state, subclassing raises TypeError, deletion RuntimeError, serialisation TypeError and deep-copy RuntimeError, and none of them changes the state |
| `Singleton.RejectionsDistinct` | hackingSingleton.py:14-46 | two operations raise the same exception iff they are the same kind of operation, so each refusal is told apart by its class and message |
| `Singleton.FirstInstantiationSucceeds` | hackingSingleton.py:8-27 | from the initial state (flag False, instance None) the first instantiation returns its object, sets the flag and stores that object |
| `Singleton.RunWhenInstantiated` | hackingSingleton.py:15-20 | once the flag is set, every later operation raises its rejection and neither the flag nor the stored instance changes again |
| `Singleton.AtMostOneSuccess` | hackingSingleton.py:12-27 | over any sequence of operations, exactly one call returns an object if the flag starts clear and some instantiation is attempted, and none otherwise; every returned object is the stored instance and was created by that call; the flag ends set iff it started set or an instantiation was attempted; consistency is kept |
| `Singleton.SequentialInstantiations` | hackingSingleton.py:12-27 | for N >= 1 instantiations from the initial state, the first returns its object, the other N-1 raise the "already instantiated" RuntimeError, and the first object is the stored instance |
| `Singleton.TrueSingleton.constructor` | hackingSingleton.py:7-10 | the class starts with `__instantiated` False and `__instance` None |
| `Singleton.TrueSingleton.New` | hackingSingleton.py:12-27 | the fields and the result are exactly the instantiation transition of `Step` from the old fields |
| `Singleton.AlreadyInstantiated` | hackingSingleton.py:16-20 | the refusal of a second instantiation is a RuntimeError whose message names the class, after the 24-character opening of the f-string |
| `Singleton.Rejection` | hackingSingleton.py:16-46 | the exception class of each refusal: TypeError for subclassing and serialisation, RuntimeError for instantiation, deletion and deep-copy |
| `Singleton.HasInstantiate` | hackingSingleton.py:12-27 | true iff some operation of the sequence is an instantiation |
| `Hacker.Report` | hackingSingleton.py:402-424 | a call is reported as a success exactly when it returned; a raised exception is reported with its class name and its message |
| `Hacker.Transcript` | hackingSingleton.py:399-427 | the events of a run: each attempt announced, called and reported, up to the first success, then GiveUp if none succeeded; its layout is proved in `AttemptEvents`, `TranscriptLength` and `GiveUpIffAllRaise` |
| `Hacker.FirstSuccess` | hackingSingleton.py:399-422 | the index the loop `break`s at, if any, always within the list; it is characterised in `FirstSuccessSpec` and `FirstSuccessIs` |
| `Hacker.FirstSuccessSpec` | hackingSingleton.py:400-422 | the winner is an attempt whose call returned while every earlier call raised; there is no winner iff every call raised |
| `Hacker.FirstSuccessIs` | hackingSingleton.py:400-422 | an attempt that returns after a run of raising attempts is the one the loop stops at |
| `Hacker.TranscriptLength` | hackingSingleton.py:399-427 | a run has three events per called attempt, plus one final GiveUp when no call returned; without a winner every attempt is called |
| `Hacker.AttemptEvents` | hackingSingleton.py:399-422 | attempt j, for j up to the first success (or all of them), is announced at event 3j, called at 3j+1 and reported at 3j+2, so attempts run in list order and each description is printed before its call |
| `Hacker.InvokeAt` | hackingSingleton.py:400-403 | every call in a run is attempt j's, at position 3j+1 just after its announcement, with j not past the first success: no attempt runs twice and none runs after the first success |
| `Hacker.GiveUpIffAllRaise` | hackingSingleton.py:423-427 | the run's last event is GiveUp ("I give up...") iff every attempt raised |
| `Hacker.ReturnValueIgnored` | hackingSingleton.py:402-404 | if two runs differ only in what the successful calls return, the events and the winner are the same |
| `Hacker.Position` | hackingSingleton.py:379-397 | every strategy of the class occurs in the attempt list |
| `Hacker.AttemptsListEachStrategyOnce` | hackingSingleton.py:379-397 | each entry of the attempt list holds a different strategy |
| `Hacker.CallsDistinct` | hackingSingleton.py:400-403 | when the list holds pairwise different strategies, the calls of two different called attempts (events 3j+1) call different strategies |
| `Hacker.QuickTestCallsEachStrategyAtMostOnce` | hackingSingleton.py:379-403 | in a run of quick_test, the calls of any two different called attempts call different strategies, so no strategy is called twice |
| `Hacker.RunAttempts` | hackingSingleton.py:399-427 | the loop produces exactly the events `Transcript` specifies and finds the attempt `FirstSuccess` specifies |
| `Hacker.QuickTest` | hackingSingleton.py:372-428 | quick_test returns "this is a quick test" whenever every call returns or raises an `Exception`; its events and winner are those of the attempt list under `Transcript` and `FirstSuccess` |

## Left out

- The bodies of the attack strategies (`option0` to `option3` and the `strategy_*` methods, hackingSingleton.py:95-370) are not modelled. They depend on CPython internals: name mangling, metaclasses, `copy.deepcopy`, module reload through `exec`, `ctypes` memory writes, `gc`/`weakref`, `pickle`, bytecode objects, an LLVM JIT and sub-interpreters. Each is only the outcome of its call, given as an input. The model therefore does not capture that a strategy can change the class state seen by later strategies.
- `strategy_threading_race_condition` is a race between unsynchronised threads. Concurrency is not modelled.
- `attack_classification` and `__str__` render a `polars.DataFrame` for display. They are output of a foreign library.
- The printed text is not modelled: the success banner, the "learning" text, and the `Failed: ...` format with `str(e).strip()`. The log is a sequence of events that keep the description, the exception's class name and its raw message.
- `HackerSingleton.__init__`, which stores the target class, and the module-level lines that build a `HackerSingleton` and run `quick_test` are not modelled.
- `super().__new__(cls)` and Python object identity are not modelled. The object allocated is the parameter `newObj`, and identity is an `ObjectId`.
- The guard in `__new__` tests `__instantiated is True`. The flag is a `bool` here, so a truthy non-`True` value written by an attack is not modelled.
- `__del__`: CPython reports and then ignores an exception raised from `__del__`. The model treats deletion as raising to its caller, which is what the method states.
- The four guards share two exception classes: TypeError for subclassing and serialisation (hackingSingleton.py:36, 43), RuntimeError for deletion and deep-copy (hackingSingleton.py:40, 46). They are told apart by class and message together (`Singleton.RejectionsDistinct`).
- A strategy's success is what the loop decides: `quick_test`'s docstring (hackingSingleton.py:374-377) promises to report whether a strategy violates the pattern, but the loop counts any call that returns without an exception as a success and discards the returned value. The strategies' own verdicts, such as `return obj1 is not obj2` (hackingSingleton.py:123) and `return len(instances) > 1` (hackingSingleton.py:246), are ignored, so a strategy that returns False is still reported as "Success!". The model follows the loop (`Hacker.ReturnValueIgnored`).
- Hacker.QuickTest and Hacker.RunAttempts: only subclasses of `Exception` are caught (hackingSingleton.py:423). A `BaseException` outside `Exception`, such as SystemExit or KeyboardInterrupt, or an interpreter crash caused by one of the `ctypes` strategies, ends `quick_test` at once, without "I give up..." and without returning "this is a quick test". The model has no outcome for that: every call either returns or raises an `Exception`.
- Hacker.QuickTest and Hacker.RunAttempts: the `try` also covers the success prints (hackingSingleton.py:404-421). An exception raised while printing, such as a UnicodeEncodeError for the emoji on a non-UTF-8 console, is reported as a failure after "Success!" has already been printed, and the loop goes on to the next attempt. The model's single `Broken` event assumes the success prints do not raise.
- The `*args`, `**kwargs` and `memo` arguments of the special methods are ignored by the source, and the model leaves them out.
