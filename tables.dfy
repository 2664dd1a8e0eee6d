/** Rows of the fixture-management store, the error taxonomy of the HTTP
    endpoints, and the string comparison the relational store applies in
    its WHERE clauses. */
module Tables {

  datatype Option<+T> = None | Some(value: T) {
    function GetOr(default: T): T {
      match this
      case Some(v) => v
      case None => default
    }
  }

  datatype Result<+R, +E> = Success(value: R) | Failure(error: E)

  /** The client-facing errors raised by the modelled endpoints. */
  datatype Error =
    | NoRequirements(modelCode: string)   // get_max_stations: no requirement rows
    | MissingColumn(column: string)       // spreadsheet import: required column absent
    | CannotDeleteAdmin                   // delete_user on the protected account
    | NoSuchAccount                       // login: username not found
    | WrongPassword                       // login: hash mismatch

  /** The HTTP status code each error is surfaced with. */
  function Status(e: Error): (code: int)
    ensures code in {400, 401, 404}
    ensures code == 404 <==> e.NoRequirements?
    ensures code == 401 <==> (e.NoSuchAccount? || e.WrongPassword?)
  {
    match e
    case NoRequirements(_) => 404
    case MissingColumn(_) => 400
    case CannotDeleteAdmin => 400
    case NoSuchAccount => 401
    case WrongPassword => 401
  }

  /** A row of the `fixtures` table. `lifeValue` is both the lifespan
      threshold (summary statistics) and the stock quantity (allocation). */
  datatype Fixture = Fixture(
    id: int, name: string, status: string, lifeType: string, used: int, lifeValue: int)

  /** A row of `fixture_requirements`; `requiredQty` is None for SQL NULL. */
  datatype Requirement = Requirement(
    modelCode: string, station: string, fixtureCode: string, requiredQty: Option<int>)

  /** A row of `users`. */
  datatype User = User(username: string, passwordHash: string, role: string)

  /** A row of `logs` as selected for export; None stands for SQL NULL. */
  datatype LogRow = LogRow(
    id: int, createdAt: Option<string>, fixture: Option<string>, kind: Option<string>, note: Option<string>)

  /** ASCII lower-casing of one character. */
  function LowerChar(c: char): (d: char)
    ensures 'A' <= c <= 'Z' ==> 'a' <= d <= 'z' && d as int - c as int == 32
    ensures !('A' <= c <= 'Z') ==> d == c
  {
    if 'A' <= c <= 'Z' then (c as int + 32) as char else c
  }

  function Lower(s: string): (t: string)
    ensures |t| == |s|
    ensures forall i :: 0 <= i < |s| ==> t[i] == LowerChar(s[i])
  {
    if |s| == 0 then [] else [LowerChar(s[0])] + Lower(s[1..])
  }

  /** String equality as the store's case-insensitive collation decides it
      in `WHERE col = value` (ASCII letters only). */
  predicate SqlEq(a: string, b: string) {
    Lower(a) == Lower(b)
  }

  lemma SqlEqIsEquivalence(a: string, b: string, c: string)
    ensures SqlEq(a, a)
    ensures SqlEq(a, b) ==> SqlEq(b, a)
    ensures SqlEq(a, b) && SqlEq(b, c) ==> SqlEq(a, c)
  {
  }

  /** Differing only in the case of one letter is invisible to the store. */
  lemma {:induction false} SqlEqIgnoresCase(a: string, i: nat)
    requires i < |a| && 'a' <= a[i] <= 'z'
    ensures SqlEq(a, a[i := (a[i] as int - 32) as char])
    ensures a != a[i := (a[i] as int - 32) as char]
  {
    var b := a[i := (a[i] as int - 32) as char];
    assert LowerChar(b[i]) == a[i];
    forall k | 0 <= k < |a| ensures Lower(a)[k] == Lower(b)[k] {
      if k != i { assert b[k] == a[k]; }
    }
  }
}
