/**
  The Python values the tracker's core works with: the dictionaries that stand
  for state records, the exceptions its code paths can raise, and the result of
  an evaluation that either produces a value or raises.
 */
module Values {

  datatype Option<+T> = None | Some(value: T)

  /** The exceptions reachable in the core (the message text is not modelled). */
  datatype Exc =
    | KeyError(key: string)   // `record[key]` on a missing key
    | TypeError               // `float(None)`, `str ** 2`, `strptime(float, ...)`
    | ValueError              // `float("junk")`, `math.sqrt(-1)`, `min([])`, a bad time string
    | IndexError              // `[][0]`

  /** Either the value an expression evaluates to, or the exception it raises. */
  datatype Result<+T> = Ok(value: T) | Err(exc: Exc)

  /** A dictionary value: a number produced by `float()`, or a string. */
  datatype Value = Num(x: real) | Text(s: string)

  /** A state record: a dictionary from field name to value. */
  type Record = map<string, Value>

  /** `r[key]`: a missing key raises KeyError. */
  function Get(r: Record, key: string): Result<Value>
  {
    if key in r then Ok(r[key]) else Err(KeyError(key))
  }
}
