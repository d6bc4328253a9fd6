/** Values shared by every route: optional request fields and their
    JavaScript truthiness, the outcome of a handler, the two-valued
    `empresa` tag and calendar days of a timestamp. */
module Common {

  datatype Option<T> = None | Some(value: T)

  /** The response a handler sends; error bodies are `{error: ...}`. */
  datatype Status = Ok | Created | BadRequest | NotFound | InsufficientStock | HasLoads

  /** HTTP status code of each outcome: insufficient stock and a machine
      that still has loads are both reported as 400. */
  function HttpCode(s: Status): (code: int)
    ensures 200 <= code < 300 <==> s == Ok || s == Created
    ensures code == 400 <==> s == BadRequest || s == InsufficientStock || s == HasLoads
    ensures code == 404 <==> s == NotFound
  {
    match s
    case Ok => 200
    case Created => 201
    case BadRequest => 400
    case NotFound => 404
    case InsufficientStock => 400
    case HasLoads => 400
  }

  /** A string field is truthy when present and not empty. */
  predicate Truthy(s: Option<string>) {
    s.Some? && s.value != ""
  }

  /** A numeric body field is truthy when present and not 0. */
  predicate NonZero(n: Option<int>) {
    n.Some? && n.value != 0
  }

  /** `!n || n <= 0` is false. */
  predicate Positive(n: Option<int>) {
    n.Some? && n.value > 0
  }

  /** JavaScript `s || d` on a string field. */
  function OrElse(s: Option<string>, d: string): (r: string)
    ensures Truthy(s) ==> r == s.value
    ensures !Truthy(s) ==> r == d
  {
    if Truthy(s) then s.value else d
  }

  const TELECOM: string := "Telecom"
  const PAGO_ONLINE: string := "Pago Online"

  predicate IsEmpresa(e: string) {
    e == TELECOM || e == PAGO_ONLINE
  }

  /** `empresa && (empresa === 'Telecom' || empresa === 'Pago Online')`:
      the test every handler makes before using or filtering by `empresa`. */
  predicate EmpresaGiven(e: Option<string>) {
    e.Some? && IsEmpresa(e.value)
  }

  /** The stored `empresa`: the request value when it is one of the two
      tags, the fallback otherwise. */
  function NormalizeEmpresa(e: Option<string>, fallback: string): (r: string)
    ensures IsEmpresa(fallback) ==> IsEmpresa(r)
    ensures r != fallback ==> e == Some(r)
    ensures EmpresaGiven(e) ==> r == e.value
    ensures !EmpresaGiven(e) ==> r == fallback
  {
    if EmpresaGiven(e) then e.value else fallback
  }

  /** Timestamps are milliseconds since the epoch, in UTC (as written by
      `new Date().toISOString()`). */
  const MS_PER_DAY: nat := 86_400_000

  /** SQLite `DATE(t)`, as a day number. */
  function Day(t: nat): (d: nat)
    ensures d * MS_PER_DAY <= t < (d + 1) * MS_PER_DAY
  {
    t / MS_PER_DAY
  }

  /** `DATE(t) >= DATE(desde)` and `DATE(t) <= DATE(hasta)`, each only when
      the bound is given. */
  predicate InDayRange(t: nat, desde: Option<int>, hasta: Option<int>) {
    (desde.Some? ==> Day(t) >= desde.value) && (hasta.Some? ==> Day(t) <= hasta.value)
  }
}
