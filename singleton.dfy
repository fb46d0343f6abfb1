/** The guarded single-instance factory `TrueSingleton`.

    Its state is held in two class-level fields, `__instantiated` and
    `__instance`. `__new__` succeeds once, sets the flag and stores the new
    object; every later call raises RuntimeError and changes nothing. The
    other special methods refuse subclassing, deletion, serialisation and
    deep-copy unconditionally.

    The pure functions `New`, `Step` and `Run` are the specification of the
    class's behaviour; the class `TrueSingleton` below holds the fields and
    its `New` method is proved to make exactly the transition `Step` describes. */
module Singleton {
  import opened Python

  /** Identity of a Python object (what `is` compares). */
  type ObjectId = nat

  /** The class-level fields `__instantiated` and `__instance`. */
  datatype ClassState = ClassState(instantiated: bool, instance: Option<ObjectId>)

  /** The state the class body sets up: `__instance = None`, `__instantiated = False`. */
  const Initial: ClassState := ClassState(false, None)

  /** The two fields agree: the flag is set exactly when an instance is stored. */
  predicate Consistent(s: ClassState)
  {
    s.instantiated <==> s.instance.Some?
  }

  /** `cls.__name__` */
  const ClassName: string := "TrueSingleton"

  /** The operations the class offers. `Instantiate(newObj)` is `TrueSingleton()`,
      where `newObj` is the object `object.__new__` would allocate. */
  datatype Operation =
    | Instantiate(newObj: ObjectId)   // __new__
    | DefineSubclass                 // __init_subclass__
    | Delete                         // __del__
    | Serialize                      // __reduce__
    | DeepCopy                       // __deepcopy__

  /** What an operation hands back to its caller: the object, or an exception. */
  datatype Outcome = Returned(obj: ObjectId) | Raised(exc: Exception)

  /** The RuntimeError `__new__` raises once the class has been instantiated
      (the f-string's text, indentation included); the class's name follows
      the 24-character opening "\n", twelve spaces and "The class '". */
  function AlreadyInstantiated(className: string): (e: Exception)
    ensures e.cls == RuntimeError
    ensures |e.message| > 24 + |className| && e.message[24..24 + |className|] == className
  {
    Exception(RuntimeError,
      "\n            The class '" + className + "' has already been instantiated.\n"
      + "            No more than 1 instance can be created.\n            ")
  }

  const NotInheritable: Exception := Exception(TypeError, "The class is not inheritable.")
  const CannotDelete: Exception := Exception(RuntimeError, "Cannot delete singleton instance")
  const CannotSerialize: Exception := Exception(TypeError, "The instance of the class cannot be serialized.")
  const CannotDeepCopy: Exception := Exception(RuntimeError, "Cannot make a deep copy of the instance.")

  /** The exception an operation raises when it is refused. */
  function Rejection(op: Operation): (e: Exception)
    ensures e.cls == (if op == DefineSubclass || op == Serialize then TypeError else RuntimeError)
  {
    match op
    case Instantiate(_) => AlreadyInstantiated(ClassName)
    case DefineSubclass => NotInheritable
    case Delete => CannotDelete
    case Serialize => CannotSerialize
    case DeepCopy => CannotDeepCopy
  }

  /** `__new__`: succeeds exactly when the flag is clear; then the flag is set
      and the new object is stored and returned. Otherwise RuntimeError is
      raised and neither field changes. */
  function New(s: ClassState, newObj: ObjectId): (r: (ClassState, Outcome))
    ensures r.1.Returned? <==> !s.instantiated
    ensures r.1.Returned? ==> r.1.obj == newObj && r.0 == ClassState(true, Some(newObj))
    ensures r.1.Raised? ==> r.0 == s && r.1.exc.cls == RuntimeError
  {
    if s.instantiated then
      (s, Raised(AlreadyInstantiated(ClassName)))
    else
      (ClassState(true, Some(newObj)), Returned(newObj))
  }

  /** One operation of the class on its state. */
  function Step(s: ClassState, op: Operation): (r: (ClassState, Outcome))
    ensures r.1.Returned? <==> op.Instantiate? && !s.instantiated
    ensures op.Instantiate? && !s.instantiated ==>
              r == (ClassState(true, Some(op.newObj)), Returned(op.newObj))
    ensures r.1.Raised? ==> r.0 == s && r.1.exc == Rejection(op)
    ensures s.instantiated ==> r.0.instantiated
    ensures Consistent(s) ==> Consistent(r.0)
  {
    match op
    case Instantiate(newObj) => New(s, newObj)
    case _ => (s, Raised(Rejection(op)))
  }

  /** A sequence of operations applied one after the other: the final state
      and what each operation handed back. */
  function Run(s: ClassState, ops: seq<Operation>): (r: (ClassState, seq<Outcome>))
    ensures |r.1| == |ops|
    decreases |ops|
  {
    if ops == [] then (s, [])
    else
      var (s1, o) := Step(s, ops[0]);
      var (s2, os) := Run(s1, ops[1..]);
      (s2, [o] + os)
  }

  /** Whether some operation of `ops` is an instantiation. */
  function HasInstantiate(ops: seq<Operation>): (b: bool)
    ensures b <==> exists i :: 0 <= i < |ops| && ops[i].Instantiate?
  {
    if ops == [] then false
    else
      assert forall i :: 1 <= i < |ops| ==> ops[i] == ops[1..][i - 1];
      ops[0].Instantiate? || HasInstantiate(ops[1..])
  }

  /** How many outcomes hand back an object. */
  function Successes(outs: seq<Outcome>): nat
  {
    if outs == [] then 0
    else (if outs[0].Returned? then 1 else 0) + Successes(outs[1..])
  }

  /** Each guard raises its own exception, whatever the state, and changes nothing. */
  lemma GuardsAlwaysRaise(s: ClassState, op: Operation)
    requires !op.Instantiate?
    ensures Step(s, op) == (s, Raised(Rejection(op)))
    ensures op == DefineSubclass ==> Rejection(op).cls == TypeError
    ensures op == Delete ==> Rejection(op).cls == RuntimeError
    ensures op == Serialize ==> Rejection(op).cls == TypeError
    ensures op == DeepCopy ==> Rejection(op).cls == RuntimeError
  {
  }

  /** No two operations of different kinds raise the same exception. */
  lemma RejectionsDistinct(op1: Operation, op2: Operation)
    ensures Rejection(op1) == Rejection(op2) <==>
            (op1.Instantiate? && op2.Instantiate?) || op1 == op2
  {
  }

  /** From the initial state the first instantiation succeeds, sets the flag
      and stores the object it returns as the instance. */
  lemma FirstInstantiationSucceeds(newObj: ObjectId)
    ensures Step(Initial, Instantiate(newObj)) == (ClassState(true, Some(newObj)), Returned(newObj))
  {
  }

  /** Once the flag is set, every operation raises its rejection and the state
      (flag and stored instance) never changes again. */
  lemma {:induction false} RunWhenInstantiated(s: ClassState, ops: seq<Operation>)
    requires s.instantiated
    ensures Run(s, ops).0 == s
    ensures forall i :: 0 <= i < |ops| ==> Run(s, ops).1[i] == Raised(Rejection(ops[i]))
    decreases |ops|
  {
    if ops != [] {
      RunWhenInstantiated(s, ops[1..]);
    }
  }

  /** Over any sequence of operations, at most one call hands back an object:
      exactly one when the flag starts clear and some instantiation is
      attempted, none otherwise. Every object handed back is the stored
      instance, created by that call; every refused call raises its own
      rejection; the fields stay consistent and the flag is never cleared. */
  lemma {:induction false} AtMostOneSuccess(s: ClassState, ops: seq<Operation>)
    ensures Successes(Run(s, ops).1) == if !s.instantiated && HasInstantiate(ops) then 1 else 0
    ensures Run(s, ops).0.instantiated <==> s.instantiated || HasInstantiate(ops)
    ensures forall i :: 0 <= i < |ops| && Run(s, ops).1[i].Returned? ==>
              ops[i] == Instantiate(Run(s, ops).1[i].obj) &&
              Run(s, ops).0.instance == Some(Run(s, ops).1[i].obj)
    ensures forall i :: 0 <= i < |ops| && Run(s, ops).1[i].Raised? ==>
              Run(s, ops).1[i].exc == Rejection(ops[i])
    ensures Consistent(s) ==> Consistent(Run(s, ops).0)
    decreases |ops|
  {
    if ops != [] {
      var (s1, o) := Step(s, ops[0]);
      var rest := ops[1..];
      assert forall i :: 1 <= i < |ops| ==> ops[i] == rest[i - 1];
      AtMostOneSuccess(s1, rest);
      if o.Returned? {
        RunWhenInstantiated(s1, rest);
      }
    }
  }

  /** N >= 1 instantiations from the initial state: exactly the first succeeds,
      and the remaining N-1 raise RuntimeError. */
  lemma {:induction false} SequentialInstantiations(ops: seq<Operation>)
    requires |ops| >= 1
    requires forall i :: 0 <= i < |ops| ==> ops[i].Instantiate?
    ensures Run(Initial, ops).1[0] == Returned(ops[0].newObj)
    ensures forall i :: 1 <= i < |ops| ==>
              Run(Initial, ops).1[i] == Raised(AlreadyInstantiated(ClassName))
    ensures Run(Initial, ops).0 == ClassState(true, Some(ops[0].newObj))
  {
    var s1 := ClassState(true, Some(ops[0].newObj));
    RunWhenInstantiated(s1, ops[1..]);
    assert forall i :: 1 <= i < |ops| ==> ops[i] == ops[1..][i - 1];
  }

  /** The class object, holding the class-level fields. */
  class TrueSingleton {
    var instantiated: bool
    var instance: Option<ObjectId>

    /** The fields as a value. */
    function State(): ClassState
      reads this
    {
      ClassState(instantiated, instance)
    }

    /** The class body: `__instance = None`, `__instantiated = False`. */
    constructor ()
      ensures State() == Initial
    {
      instantiated := false;
      instance := None;
    }

    /** `TrueSingleton()`: makes exactly the transition `Step` specifies for an
        instantiation, and hands back what it hands back. */
    method New(newObj: ObjectId) returns (r: Outcome)
      modifies this
      ensures (State(), r) == Step(old(State()), Instantiate(newObj))
    {
      if instantiated {
        r := Raised(AlreadyInstantiated(ClassName));
      } else {
        instantiated := true;
        instance := Some(newObj);
        r := Returned(newObj);
      }
    }
  }
}
