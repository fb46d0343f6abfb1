/** The few Python runtime values the model needs: `None`-or-a-value, and
    exceptions as the pair of their class and their message text. */
module Python {

  /** A value that may be Python's `None`. */
  datatype Option<+T> = None | Some(value: T)

  /** The exception classes raised by the guarded factory, and any other
      subclass of `Exception` an attack may raise (NameError, ImportError,
      ...), by name. Exceptions outside `Exception` (SystemExit,
      KeyboardInterrupt) are not values of this type. */
  datatype ExceptionClass = RuntimeError | TypeError | OtherClass(name: string)
  {
    /** `e.__class__.__name__` */
    function Name(): string
    {
      match this
      case RuntimeError => "RuntimeError"
      case TypeError => "TypeError"
      case OtherClass(n) => n
    }
  }

  /** A raised exception: its class and `str(e)`. */
  datatype Exception = Exception(cls: ExceptionClass, message: string)
}
