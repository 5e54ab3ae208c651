/** SQL's three-valued logic, as both dialects evaluate trigger and CHECK conditions. */
module SqlLogic {
  import opened Common

  datatype Truth = False | Unknown | True

  /** SQLite enforces foreign keys only on connections that switch its `foreign_keys` setting on. */
  datatype Dialect = Sqlite(foreignKeys: bool) | Postgres {
    predicate Enforces() {
      Postgres? || foreignKeys
    }
  }

  function Of(b: bool): Truth {
    if b then True else False
  }

  function Not(a: Truth): Truth {
    match a
    case False => True
    case Unknown => Unknown
    case True => False
  }

  function And(a: Truth, b: Truth): Truth {
    if a.False? || b.False? then False else if a.True? && b.True? then True else Unknown
  }

  function Or(a: Truth, b: Truth): Truth {
    if a.True? || b.True? then True else if a.False? && b.False? then False else Unknown
  }

  /** `a = b` */
  function Equal<T(==)>(a: Option<T>, b: Option<T>): Truth {
    if a.None? || b.None? then Unknown else Of(a == b)
  }

  /** `a <> b` */
  function Differ<T(==)>(a: Option<T>, b: Option<T>): Truth {
    Not(Equal(a, b))
  }

  /** `a IN (...)` */
  function In<T(==)>(a: Option<T>, values: set<T>): Truth {
    if a.None? then Unknown else Of(a.value in values)
  }

  /** `a IS b` and `a IS NOT DISTINCT FROM b` */
  function Same<T(==)>(a: Option<T>, b: Option<T>): Truth {
    Of(a == b)
  }

  /** `a IS NULL` */
  function Null<T(==)>(a: Option<T>): Truth {
    Of(a.None?)
  }

  /** `a >= n` */
  function AtLeast(a: Option<int>, n: int): Truth {
    if a.None? then Unknown else Of(a.value >= n)
  }

  /** A CHECK constraint rejects a row only when its condition is false. */
  predicate Passes(check: Truth) {
    !check.False?
  }

  /** `length(trim(s)) > 0`, where SQL's `trim` removes blanks. */
  function HasText(s: Option<string>): Truth {
    if s.None? then Unknown else Of(exists i :: 0 <= i < |s.value| && s.value[i] != ' ')
  }

  /** `length(s) = n` */
  function HasLength(s: Option<string>, n: nat): Truth {
    if s.None? then Unknown else Of(|s.value| == n)
  }

  /** A value that is there and is more than blanks. */
  predicate IsFilled(s: Option<string>) {
    s.Some? && exists i :: 0 <= i < |s.value| && s.value[i] != ' '
  }

  /** Two rows clash in a unique index when no key column is null and all are equal. */
  predicate Clash<T(==)>(a: Option<T>, b: Option<T>) {
    a.Some? && a == b
  }
}
