/** Values shared by every module of the model: optional values, results,
    the failures the library raises, and the Python argument values whose
    type the library checks at run time. */
module Common {

  datatype Option<+T> = None | Some(value: T)

  /** The outcome of an operation that may raise. */
  datatype Result<+T> = Ok(value: T) | Err(error: Error) {
    predicate IsFailure() {
      Err?
    }

    function PropagateFailure<U>(): Result<U>
      requires Err?
    {
      Err(error)
    }

    function Extract(): T
      requires Ok?
    {
      value
    }
  }

  /** The Python exception class a failure is raised as. */
  datatype ExceptionClass = TypeError | ValueError | KeyError | StructError | NoConnectionsAvailable

  /** Every failure the modelled code raises, one constructor per raise site. */
  datatype Error =
    // batch.py
    | TransactionWithBatchSize
    | BatchSizeNotPositive
    | RowDeleteWithTimestamp
    | FamilyDeleteWithTimestamp
    | MissingQualifier
    | TooManySeparators
    | MissingDataKey(key: string)
    // pool.py
    | PoolSizeNotInteger
    | PoolSizeNotPositive
    | NoConnectionAvailable
    // connection.py
    | FailedLocations
    | NoInstances
    | ManyInstances
    | UnexpectedArguments(names: set<string>)
    | PrefixNotString
    | SeparatorNotString
    | FamiliesNotDict
    | NoFamilies
    | TimeToLiveNotNumber
    // table.py
    | LimitNotPositive
    | PrefixWithRange
    | StringFilter
    | NoFilters
    | ColumnNotPair
    | MissingCell
    | NotOneCell
    | CounterNotEightBytes
  {
    function Class(): ExceptionClass {
      match this
      case TransactionWithBatchSize => TypeError
      case BatchSizeNotPositive => ValueError
      case RowDeleteWithTimestamp => ValueError
      case FamilyDeleteWithTimestamp => ValueError
      case MissingQualifier => ValueError
      case TooManySeparators => ValueError
      case MissingDataKey(_) => KeyError
      case PoolSizeNotInteger => TypeError
      case PoolSizeNotPositive => ValueError
      case NoConnectionAvailable => NoConnectionsAvailable
      case FailedLocations => ValueError
      case NoInstances => ValueError
      case ManyInstances => ValueError
      case UnexpectedArguments(_) => TypeError
      case PrefixNotString => TypeError
      case SeparatorNotString => TypeError
      case FamiliesNotDict => TypeError
      case NoFamilies => ValueError
      case TimeToLiveNotNumber => TypeError
      case LimitNotPositive => ValueError
      case PrefixWithRange => ValueError
      case StringFilter => TypeError
      case NoFilters => ValueError
      case ColumnNotPair => ValueError
      case MissingCell => KeyError
      case NotOneCell => ValueError
      case CounterNotEightBytes => StructError
    }
  }

  /** A Python value passed where the library checks the argument's type. */
  datatype PyValue = PyNone | PyBool(b: bool) | PyInt(i: int) | PyStr(s: string) | PyOther

  /** isinstance(v, int): a bool is an int in Python. */
  predicate IsInteger(v: PyValue) {
    v.PyBool? || v.PyInt?
  }

  function IntValue(v: PyValue): int
    requires IsInteger(v)
  {
    if v.PyBool? then (if v.b then 1 else 0) else v.i
  }
}
