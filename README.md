# lab1 numeric engine, modelled in Dafny

This project models the numeric engine of `lab1/lab1.cpp`: a program that
evaluates `fun(x, y, z)` by combining piecewise-linear table interpolation
with a cluster of recursive special-function approximations. Two kinds of
exception steer the computation:

- a missing table file (`FileException`) is caught in `fun`, which then
  returns a closed-form fallback;
- a non-positive square-root discriminant (`DomainException`, raised in
  `Srs`) is caught in `Rrz`, which then switches to one of two alternate
  algorithms.

Values are exact `real`s. Exceptions are values of `Errors.Result`:
`Ok(v)`, or `Fail(FileError(name))`, or `Fail(DomainError)`. Everything the
engine takes from outside is the parameter `Lookup.Env`:

- `files` maps each table file that can be opened to its rows;
- `sqrt` is the square root. It is a parameter, so every property proved
  here holds for any `sqrt`.

Modules, leaves first:

- `Errors` (errors.dfy): the error kinds, `Result`, and the helpers `Times`
  and `Plus`, which apply `k * v` or `v + c` and otherwise pass the error on.
- `Tables` (tables.dfy): `Row` and the interpolation. `Interpolate` is the
  source's index loop with its early return. `Interpolation` is the
  recursive reference definition it is proved against.
- `Lookup` (lookup.dfy): the file system (`Load`), the three-way region
  split (`Select`), and the lookups `T` and `U`.
- `Evaluator` (evaluator.dfy): `Srz`, `RrzAlg2`, `RrzAlg3`, `Srs`, `Qrz`,
  and `Rrz` with its recovery from the domain error.
- `TopLevel` (toplevel.dfy): `Grs`, and `Fun` with its fallback.

Every table in `Env` must be non-empty, and no two adjacent rows may share
an `x` (`Lookup.ValidEnv`). An empty table makes the source call `back()`
on an empty vector, which is undefined. A zero-width pair makes line 66
divide by zero only when it is the first segment that contains the query;
`ValidEnv` excludes such tables entirely, which is stronger than the source
needs. This is the only precondition of the evaluator's functions.

What the proofs establish:

- Interpolation picks the first segment that contains the query, and the
  earlier segment wins at a shared endpoint.
- When no segment contains the query, interpolation returns the last row's
  value, and the result stays inside the range of the table's values.
- The region split is exhaustive and exclusive. Both `1` and `-1` go to
  `dat_X1_00.dat`, and the transformed argument always lies in `[-1, 1]`.
- `Srs` fails with a domain error exactly under the stated condition.
- `Qrz(x, y)` fails with a domain error exactly when one product is not
  positive: `x * (x + y)` if `|x| < 1`, otherwise `y * (y + x)`.
- `Rrz` recovers exactly when that call fails with the domain error, so no
  domain error ever leaves `Rrz`. Hence `Grs` fails only with a missing-table error, and `Fun`
  always produces a number.
- `Fun` falls back to the closed form exactly when a `Grs` evaluation hits a
  missing table file. With all three tables present it never falls back;
  with none present it always does.

Two points about the program's behaviour:

- `main` has a handler that prints a domain-error message
  (lab1/lab1.cpp:164-165), but no domain error can reach it: `Srs` is
  reached only through `Qrz`, `Qrz` only inside `Rrz`'s try block, and no
  other function raises a domain error. `TopLevel.Fun` proves that its
  result is always `Ok`.
- At `x == -1` the lookup opens `dat_X1_00.dat` (the table for large
  arguments) at argument `-1`. This is exactly what the comparisons in
  lab1/lab1.cpp:75-77 do, and the model keeps it.

## Model

| member | source | states |
|---|---|---|
| `Tables.Interpolate` | lab1/lab1.cpp:61-70 | the loop returns the interpolation on the first adjacent pair whose x-range contains `x`, or the last row's channel value when no pair does; the result equals the reference `Interpolation` |
| `Tables.Lerp` | lab1/lab1.cpp:64-66 | the line through two rows gives the first row's value at its `x`, the second's at its `x`, and in between lies between the two channel values |
| `Tables.InterpolationFirstBracket` | lab1/lab1.cpp:62-67 | the first segment (lowest index) containing `x` decides the result, so an earlier pair wins at a shared endpoint |
| `Tables.InterpolationClamps` | lab1/lab1.cpp:69 | when no adjacent pair contains `x`, one-row tables included, the result is the last row's `t` if `isT` and its `u` otherwise |
| `Tables.InterpolationOutsideRange` | lab1/lab1.cpp:62-69 | on a sorted table a query below the first or above the last abscissa returns the last row's value |
| `Tables.InterpolationAtSample` | lab1/lab1.cpp:62-67 | on a sorted table a query at a sample's abscissa returns that sample's value, whichever of the two adjacent segments is taken |
| `Tables.InterpolationBounded` | lab1/lab1.cpp:61-70 | the result lies within any bounds of the chosen channel's values over the table |
| `Tables.InterpolationExample` | lab1/lab1.cpp:61-70 | rows (0,0,0) and (1,10,20) at 0.5 give 5 on `t` and 10 on `u` |
| `Lookup.Load` | lab1/lab1.cpp:44-46 | opening succeeds exactly when the file exists, giving its rows; otherwise a file error naming that file |
| `Lookup.Select` | lab1/lab1.cpp:75-77 | `-1 < x < 1` selects `dat_X_1_1.dat` with `x` unchanged; `x < -1` selects `dat_X00_1.dat` with `1/x`; every other `x`, 1 and -1 included, selects `dat_X1_00.dat` with `1/x`; the argument always lies in [-1, 1] |
| `Lookup.Lookup` | lab1/lab1.cpp:79-80 | fails exactly when the selected file is missing, with a file error naming it; otherwise the interpolation of that table at the selected argument |
| `Lookup.T` | lab1/lab1.cpp:73-81 | fails exactly when the table selected for `x` is missing, with a file error naming that file; otherwise the interpolation of that table's `t` column at the selected argument |
| `Lookup.U` | lab1/lab1.cpp:83-91 | the same failure law as `T`, on the same selection; otherwise the interpolation of that table's `u` column at the selected argument |
| `Lookup.LookupsAgree` | lab1/lab1.cpp:73-91 | `T` and `U` fail for the same `x` with the same error |
| `Lookup.LookupBounded` | lab1/lab1.cpp:79-80 | when the selected table exists the lookup succeeds and stays within the bounds of that table's channel values |
| `Lookup.BoundarySelection` | lab1/lab1.cpp:75-77 | 1 and -1 both select `dat_X1_00.dat`, at arguments 1 and -1 |
| `Evaluator.AddSub` | lab1/lab1.cpp:95-96 | `a + b - c` succeeds exactly when all three operands do, with the value `a + b - c`, and otherwise fails with the first failing operand's error |
| `Evaluator.Srz` | lab1/lab1.cpp:94-97 | fails only with a file error naming a missing table file, never with a domain error |
| `Evaluator.RrzAlg2` | lab1/lab1.cpp:100-103 | fails only with a missing-table file error |
| `Evaluator.RrzAlg3` | lab1/lab1.cpp:105-108 | fails only with a missing-table file error |
| `Evaluator.Srs` | lab1/lab1.cpp:111-119 | a domain error exactly when `(z > y && z*z + x*y <= 0) \|\| (z <= y && x*x + z*y <= 0)`; otherwise the formula of the first condition that holds, with `Srz`'s file errors passed through unchanged |
| `Evaluator.Qrz` | lab1/lab1.cpp:121-124 | a domain error exactly when `x*(x+y) <= 0` for `\|x\| < 1`, or `y*(y+x) <= 0` otherwise; any other error is a missing-table file error; it succeeds exactly when the selected `Srs` call does, passing its error through, with the value `x*Srs(x,y,x)` for `\|x\| < 1` and `y*Srs(y,x,y)` otherwise |
| `Evaluator.Rrz` | lab1/lab1.cpp:126-136 | when the try-block call of `Qrz` meets the domain error, the result is `RrzAlg2` if `z*z + x*y < 0` and `RrzAlg3` otherwise; when it does not, the result is `x*z*Qrz(y,z)` for `x > y`, else `y*x*Qrz(x,y)`, file errors uncaught; a domain error never escapes |
| `Evaluator.AlgorithmsAgree` | lab1/lab1.cpp:100-108 | `RrzAlg2` and `RrzAlg3` are equal whenever `x >= y` |
| `Evaluator.AlgorithmsAgreeOnDiagonal` | lab1/lab1.cpp:100-108 | `RrzAlg2` and `RrzAlg3` are equal when `x == y`, where their leading factors `x` and `y` coincide |
| `Evaluator.AlgorithmsLeadingFactor` | lab1/lab1.cpp:100-108 | for `x <= y` the two algorithms fail alike, and on success `y * RrzAlg2 == x * RrzAlg3`, so they differ only in the leading factor |
| `Evaluator.RecoveryExamples` | lab1/lab1.cpp:126-136 | (-2, 1, 0) recovers with `RrzAlg2`, (0, 0, 0) with `RrzAlg3`, and (1, 0.5, 0.5) needs no recovery |
| `TopLevel.Grs` | lab1/lab1.cpp:138-141 | succeeds exactly when both `Rrz` calls do, and otherwise fails only with a missing-table file error |
| `TopLevel.Fun` | lab1/lab1.cpp:143-151 | always yields a number; it is `x*Grs(x,y,z) + y*Grs(x,z,y)` when both succeed and exactly `1.3498*x + 2.2362*y*z - 2.348*x*y` when either fails |
| `TopLevel.GrsWithAllTables` | lab1/lab1.cpp:138-141 | with all three table files present `Grs` never fails, so `Fun` never falls back |
| `TopLevel.RrzWithoutTables` | lab1/lab1.cpp:126-136 | every `Rrz` evaluation opens some table, including on the recovery path, so without tables it fails |
| `TopLevel.FunWithoutTables` | lab1/lab1.cpp:143-151 | with none of the three tables present `Fun` returns exactly the closed-form fallback |

## Left out

- `main` (lab1/lab1.cpp:155-172): reading `x y z` from standard input and printing the result or an error message.
- `loadTable`'s reading and parsing (lab1/lab1.cpp:39-59): the rows a file holds are given by `Env.files`. The comma-to-dot replacement and `stod` are not modelled, so neither is a malformed number, which `stod` reports with a standard exception that only `main`'s catch-all sees.
- The exceptions' `message()` output (lab1/lab1.cpp:10-31), including what `fun` prints before it falls back. Only the error kind and the file name are kept.
- IEEE double arithmetic: rounding, overflow, NaN and infinities. Values are exact reals.
- `sqrt` internals: it is the parameter `Env.sqrt`, and nothing is assumed about it. `fabs` is `Lookup.Abs`.
- Empty tables and adjacent rows with equal `x`: `ValidEnv` excludes both. An empty table is undefined behaviour in the source (`back()` on an empty vector). A zero-width pair divides by zero at lab1/lab1.cpp:66 only when it is the first segment containing the query, so the model excludes more tables than the source needs to.
- The order in which C++ evaluates the operands of `+`, `-` and `*` is unspecified. The model evaluates left to right. This decides only which file name a failure carries when several tables are missing, never the value `Fun` returns.
- Table reloading: each lookup opens its file again, and the contents are the same every time because `Env` does not change during an evaluation.
- `Evaluator.Srz`: its contract states how it can fail, not its formula, which is only a sum of table values.
- `Evaluator.RrzAlg2`: its contract states how it can fail, not its formula; `Evaluator.AlgorithmsAgree` and `Evaluator.AlgorithmsLeadingFactor` relate it to `RrzAlg3`.
- `Evaluator.RrzAlg3`: its contract states how it can fail, not its formula; the same two lemmas relate it to `RrzAlg2`.
- `TopLevel.Grs`: its contract states when it fails and with what error, not its weighted sum of the two `Rrz` values.
