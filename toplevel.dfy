/** The top level: Grs combines two Rrz evaluations, and Fun combines two Grs
    evaluations, falling back to a closed form when a table file is missing. */
module TopLevel {
  import opened Errors
  import opened Tables
  import opened Lookup
  import opened Evaluator

  function Grs(env: Env, x: real, y: real, z: real): (r: Result<real>)
    requires ValidEnv(env)
    ensures OnlyMissingTable(env, r)
    ensures r.Ok? <==> Rrz(env, x, y, y).Ok? && Rrz(env, x - y, z, y).Ok?
  {
    match (Rrz(env, x, y, y), Rrz(env, x - y, z, y))
    case (Fail(e), _) => Fail(e)
    case (_, Fail(e)) => Fail(e)
    case (Ok(a), Ok(b)) => Ok(0.1389 * a + 1.8389 * b)
  }

  /** The closed form Fun returns when a table file cannot be opened. */
  function Fallback(x: real, y: real, z: real): real {
    1.3498 * x + 2.2362 * y * z - 2.348 * x * y
  }

  function Fun(env: Env, x: real, y: real, z: real): (r: Result<real>)
    requires ValidEnv(env)
    ensures r.Ok?
    ensures Grs(env, x, y, z).Ok? && Grs(env, x, z, y).Ok? ==>
      r.value == x * Grs(env, x, y, z).value + y * Grs(env, x, z, y).value
    ensures Grs(env, x, y, z).Fail? || Grs(env, x, z, y).Fail? ==>
      r.value == Fallback(x, y, z)
  {
    if Grs(env, x, y, z).Ok? && Grs(env, x, z, y).Ok? then Ok(x * Grs(env, x, y, z).value + y * Grs(env, x, z, y).value)
    else
      var e := if Grs(env, x, y, z).Fail? then Grs(env, x, y, z).err else Grs(env, x, z, y).err;
      if e.FileError? then Ok(Fallback(x, y, z)) else Fail(e)
  }

  /** With all three tables available Grs never fails, so Fun never falls
      back and is the combination of the two Grs values. */
  lemma GrsWithAllTables(env: Env, x: real, y: real, z: real)
    requires ValidEnv(env) && AllTablesPresent(env)
    ensures Grs(env, x, y, z).Ok?
  {
  }

  /** Every Rrz evaluation opens some table, so without tables it fails. */
  lemma RrzWithoutTables(env: Env, x: real, y: real, z: real)
    requires ValidEnv(env) && NoTablePresent(env)
    ensures Rrz(env, x, y, z).Fail?
  {
  }

  /** With no table available Fun is exactly the closed form. */
  lemma FunWithoutTables(env: Env, x: real, y: real, z: real)
    requires ValidEnv(env) && NoTablePresent(env)
    ensures Fun(env, x, y, z) == Ok(Fallback(x, y, z))
  {
    RrzWithoutTables(env, x, y, y);
  }
}
