/** The Python values the modelled code hands around, with Python 2's two
    string types kept apart as tags: `unicode` text and byte `str`. Only the
    kinds of value the code inspects are distinguished. */
module PythonValues {

  datatype PyValue =
    | NoneValue
    | Unicode(s: string)
    | Bytes(s: string)
    | Bool(b: bool)
    | Int(i: int)
    | DateTime(stamp: int)

  /** Python truthiness of a value. */
  predicate Truthy(v: PyValue) {
    match v
    case NoneValue => false
    case Unicode(s) => s != []
    case Bytes(s) => s != []
    case Bool(b) => b
    case Int(i) => i != 0
    case DateTime(_) => true
  }

  /** `isinstance(v, basestring)` */
  predicate IsString(v: PyValue) {
    v.Unicode? || v.Bytes?
  }
}
