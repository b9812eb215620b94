/** The two table lookups T and U: a three-way split of the argument picks a
    table file and, for the two outer regions, replaces the argument by its
    reciprocal; then the selected table is interpolated. */
module Lookup {
  import opened Errors
  import opened Tables

  /** Everything the evaluator reads from outside: the table files that can be
      opened, by name, with their rows, and the square root function. */
  datatype Env = Env(files: map<string, seq<Row>>, sqrt: real -> real)

  /** Every table that can be opened has a last row and no zero-width segment. */
  predicate ValidEnv(env: Env) {
    forall name :: name in env.files ==> WellFormed(env.files[name])
  }

  const MidTable: string := "dat_X_1_1.dat"
  const NegTable: string := "dat_X00_1.dat"
  const PosTable: string := "dat_X1_00.dat"
  const TableFiles: set<string> := {MidTable, NegTable, PosTable}

  predicate AllTablesPresent(env: Env) {
    forall name :: name in TableFiles ==> name in env.files
  }

  predicate NoTablePresent(env: Env) {
    forall name :: name in TableFiles ==> name !in env.files
  }

  /** The only error `r` can carry is a file error naming a table file that is
      missing from `env`; in particular it is never a domain error. */
  predicate OnlyMissingTable(env: Env, r: Result<real>) {
    r.Fail? ==> r.err.FileError? && r.err.name in TableFiles && r.err.name !in env.files
  }

  function Abs(x: real): (r: real)
    ensures r >= 0.0 && (r == x || r == -x)
  {
    if x < 0.0 then -x else x
  }

  /** The table file a lookup opens and the argument it interpolates at. */
  datatype Selection = Selection(file: string, arg: real)

  /** The region split shared by T and U. */
  function Select(x: real): (s: Selection)
    ensures s.file in TableFiles
    ensures s.file == MidTable <==> -1.0 < x < 1.0
    ensures s.file == NegTable <==> x < -1.0
    ensures s.file == PosTable <==> 1.0 <= x || x == -1.0
    ensures s.arg == if s.file == MidTable then x else 1.0 / x
    ensures -1.0 <= s.arg <= 1.0
    ensures s.file == NegTable ==> -1.0 < s.arg < 0.0
    ensures s.file == PosTable ==> (0.0 < s.arg <= 1.0) || (x == -1.0 && s.arg == -1.0)
  {
    if Abs(x) < 1.0 then Selection(MidTable, x)
    else if x < -1.0 then Selection(NegTable, 1.0 / x)
    else Selection(PosTable, 1.0 / x)
  }

  /** Opening a table file: the rows when it can be opened, a file error naming
      it otherwise. */
  function Load(env: Env, name: string): (r: Result<seq<Row>>)
    ensures r.Ok? <==> name in env.files
    ensures r.Ok? ==> r.value == env.files[name]
    ensures r.Fail? ==> r.err == FileError(name)
  {
    if name in env.files then Ok(env.files[name]) else Fail(FileError(name))
  }

  /** Interpolation of the selected table at the selected argument on channel `isT`. */
  function Lookup(env: Env, x: real, isT: bool): (r: Result<real>)
    requires ValidEnv(env)
    ensures OnlyMissingTable(env, r)
    ensures r.Fail? <==> Select(x).file !in env.files
    ensures r.Fail? ==> r.err == FileError(Select(x).file)
    ensures r.Ok? ==> r.value == Interpolation(env.files[Select(x).file], Select(x).arg, isT)
  {
    var s := Select(x);
    var tab :- Load(env, s.file);
    Ok(Interpolation(tab, s.arg, isT))
  }

  /** The lookup on the `t` channel. */
  function T(env: Env, x: real): (r: Result<real>)
    requires ValidEnv(env)
    ensures OnlyMissingTable(env, r)
    ensures r.Fail? <==> Select(x).file !in env.files
    ensures r.Fail? ==> r.err == FileError(Select(x).file)
    ensures r.Ok? ==> r.value == Interpolation(env.files[Select(x).file], Select(x).arg, true)
  {
    Lookup(env, x, true)
  }

  /** The lookup on the `u` channel. */
  function U(env: Env, x: real): (r: Result<real>)
    requires ValidEnv(env)
    ensures OnlyMissingTable(env, r)
    ensures r.Fail? <==> Select(x).file !in env.files
    ensures r.Fail? ==> r.err == FileError(Select(x).file)
    ensures r.Ok? ==> r.value == Interpolation(env.files[Select(x).file], Select(x).arg, false)
  {
    Lookup(env, x, false)
  }

  /** T and U open the same file for the same argument: they fail together,
      with the same error. */
  lemma LookupsAgree(env: Env, x: real)
    requires ValidEnv(env)
    ensures T(env, x).Fail? <==> U(env, x).Fail?
    ensures T(env, x).Fail? ==> T(env, x) == U(env, x)
  {
  }

  /** A lookup stays within the range of the chosen channel over the table it
      opened. */
  lemma LookupBounded(env: Env, x: real, isT: bool, lo: real, hi: real)
    requires ValidEnv(env)
    requires Select(x).file in env.files
    requires forall i :: 0 <= i < |env.files[Select(x).file]| ==>
      lo <= Channel(env.files[Select(x).file][i], isT) <= hi
    ensures Lookup(env, x, isT).Ok?
    ensures lo <= Lookup(env, x, isT).value <= hi
  {
    var tab := env.files[Select(x).file];
    InterpolationBounded(tab, Select(x).arg, isT, lo, hi);
  }

  /** The boundary points 1 and -1 both go to the table for large arguments. */
  lemma BoundarySelection()
    ensures Select(1.0) == Selection(PosTable, 1.0)
    ensures Select(-1.0) == Selection(PosTable, -1.0)
  {
  }
}
