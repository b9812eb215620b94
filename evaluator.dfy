/** The recursive evaluator: Srz, the two alternate algorithms, Srs with its
    domain error, Qrz, and Rrz, which recovers from that domain error. */
module Evaluator {
  import opened Errors
  import opened Tables
  import opened Lookup

  /** `a + b - c` evaluated left to right: the first operand that failed
      decides the error. */
  function AddSub(a: Result<real>, b: Result<real>, c: Result<real>): (r: Result<real>)
    ensures r.Ok? <==> a.Ok? && b.Ok? && c.Ok?
    ensures r.Ok? ==> r.value == a.value + b.value - c.value
    ensures r.Fail? ==> r == (if a.Fail? then a else if b.Fail? then b else c)
  {
    match (a, b, c)
    case (Fail(e), _, _) => Fail(e)
    case (_, Fail(e), _) => Fail(e)
    case (_, _, Fail(e)) => Fail(e)
    case (Ok(va), Ok(vb), Ok(vc)) => Ok(va + vb - vc)
  }

  function Srz(env: Env, x: real, y: real, z: real): (r: Result<real>)
    requires ValidEnv(env)
    ensures OnlyMissingTable(env, r)
  {
    if x > y then AddSub(T(env, x), U(env, z), T(env, y))
    else AddSub(T(env, y), U(env, y), U(env, z))
  }

  function RrzAlg2(env: Env, x: real, y: real, z: real): (r: Result<real>)
    requires ValidEnv(env)
    ensures OnlyMissingTable(env, r)
  {
    if x > y then Times(x * y, Times(x, Srz(env, y, z, y)))
    else Times(x * z, Times(y, Srz(env, x, y, x)))
  }

  function RrzAlg3(env: Env, x: real, y: real, z: real): (r: Result<real>)
    requires ValidEnv(env)
    ensures OnlyMissingTable(env, r)
  {
    if x > y then Times(x * y, Times(x, Srz(env, y, z, y)))
    else Times(y * z, Times(y, Srz(env, x, y, x)))
  }

  /** Neither square-root branch of Srs applies: `z > y` with `z*z + x*y`
      not positive, or `z <= y` with `x*x + z*y` not positive. */
  predicate SrsDomainFails(x: real, y: real, z: real) {
    (z > y && z * z + x * y <= 0.0) || (z <= y && x * x + z * y <= 0.0)
  }

  function Srs(env: Env, x: real, y: real, z: real): (r: Result<real>)
    requires ValidEnv(env)
    ensures r == Fail(DomainError) <==> SrsDomainFails(x, y, z)
    ensures r != Fail(DomainError) ==> OnlyMissingTable(env, r)
    ensures z > y && z * z + x * y > 0.0 ==>
      PassesThrough(r, Srz(env, x, y, z)) &&
      (r.Ok? ==> r.value == Srz(env, x, y, z).value + y * env.sqrt(z * z + x * y))
    ensures z <= y && x * x + z * y > 0.0 ==>
      PassesThrough(r, Srz(env, z, x, y)) &&
      (r.Ok? ==> r.value == y + Srz(env, z, x, y).value * env.sqrt(x * x + z * y))
  {
    if z > y && z * z + x * y > 0.0 then
      Plus(Srz(env, x, y, z), y * env.sqrt(z * z + x * y))
    else if z <= y && x * x + z * y > 0.0 then
      Plus(Times(env.sqrt(x * x + z * y), Srz(env, z, x, y)), y)
    else
      Fail(DomainError)
  }

  /** Qrz(x, y) fails with the domain error exactly when this product is not positive: Srs is called
      with its first and third arguments equal, and then both discriminants
      are the same product. */
  predicate QrzDomainFails(x: real, y: real) {
    if Abs(x) < 1.0 then x * (x + y) <= 0.0 else y * (y + x) <= 0.0
  }

  lemma SrsDiagonal(a: real, b: real)
    ensures SrsDomainFails(a, b, a) <==> a * (a + b) <= 0.0
  {
    assert a * a + a * b == a * (a + b);
  }

  function Qrz(env: Env, x: real, y: real): (r: Result<real>)
    requires ValidEnv(env)
    ensures r == Fail(DomainError) <==> QrzDomainFails(x, y)
    ensures r != Fail(DomainError) ==> OnlyMissingTable(env, r)
    ensures PassesThrough(r, if Abs(x) < 1.0 then Srs(env, x, y, x) else Srs(env, y, x, y))
    ensures r.Ok? ==>
      r.value == if Abs(x) < 1.0 then x * Srs(env, x, y, x).value else y * Srs(env, y, x, y).value
  {
    SrsDiagonal(x, y);
    SrsDiagonal(y, x);
    if Abs(x) < 1.0 then Times(x, Srs(env, x, y, x))
    else Times(y, Srs(env, y, x, y))
  }

  /** The call in Rrz's try block meets the domain error. */
  predicate RrzRecovers(x: real, y: real, z: real) {
    if x > y then QrzDomainFails(y, z) else QrzDomainFails(x, y)
  }

  function Rrz(env: Env, x: real, y: real, z: real): (r: Result<real>)
    requires ValidEnv(env)
    ensures OnlyMissingTable(env, r)
    ensures RrzRecovers(x, y, z) ==>
      r == if z * z + x * y < 0.0 then RrzAlg2(env, x, y, z) else RrzAlg3(env, x, y, z)
    ensures !RrzRecovers(x, y, z) ==>
      r == if x > y then Times(x * z, Qrz(env, y, z)) else Times(y * x, Qrz(env, x, y))
  {
    var attempt := if x > y then Times(x * z, Qrz(env, y, z)) else Times(y * x, Qrz(env, x, y));
    match attempt
    case Fail(DomainError) =>
      if z * z + x * y < 0.0 then RrzAlg2(env, x, y, z) else RrzAlg3(env, x, y, z)
    case _ => attempt
  }

  /** The two alternate algorithms coincide unless `x < y`. */
  lemma AlgorithmsAgree(env: Env, x: real, y: real, z: real)
    requires ValidEnv(env)
    requires x >= y
    ensures RrzAlg2(env, x, y, z) == RrzAlg3(env, x, y, z)
  {
    if x == y {
      AlgorithmsAgreeOnDiagonal(env, x, z);
    }
  }

  lemma AlgorithmsAgreeOnDiagonal(env: Env, x: real, z: real)
    requires ValidEnv(env)
    ensures RrzAlg2(env, x, x, z) == RrzAlg3(env, x, x, z)
  {
  }

  /** When `x <= y` they differ only in the leading factor: `x` for RrzAlg2 and
      `y` for RrzAlg3. */
  lemma AlgorithmsLeadingFactor(env: Env, x: real, y: real, z: real)
    requires ValidEnv(env)
    requires x <= y
    ensures RrzAlg2(env, x, y, z).Fail? <==> RrzAlg3(env, x, y, z).Fail?
    ensures RrzAlg2(env, x, y, z).Fail? ==> RrzAlg2(env, x, y, z) == RrzAlg3(env, x, y, z)
    ensures RrzAlg2(env, x, y, z).Ok? ==>
      y * RrzAlg2(env, x, y, z).value == x * RrzAlg3(env, x, y, z).value
  {
  }

  /** Both recovery branches can be reached: (-2, 1, 0) recovers with RrzAlg2
      and (0, 0, 0) with RrzAlg3; (1, 0.5, 0.5) needs no recovery. */
  lemma RecoveryExamples(env: Env)
    requires ValidEnv(env)
    ensures Rrz(env, -2.0, 1.0, 0.0) == RrzAlg2(env, -2.0, 1.0, 0.0)
    ensures Rrz(env, 0.0, 0.0, 0.0) == RrzAlg3(env, 0.0, 0.0, 0.0)
    ensures !RrzRecovers(1.0, 0.5, 0.5)
  {
  }
}
