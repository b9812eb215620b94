/** Interpolation tables: rows of samples and piecewise-linear interpolation
    along one of two value channels. */
module Tables {

  /** One sample: the abscissa `x` and the two channel values `t` and `u`. */
  datatype Row = Row(x: real, t: real, u: real)

  /** The value `isT` picks from a row: `t` when true, `u` otherwise. */
  function Channel(r: Row, isT: bool): real {
    if isT then r.t else r.u
  }

  /** No two adjacent rows share an abscissa, so no segment has a zero width. */
  predicate NoDegeneratePair(tab: seq<Row>) {
    forall i :: 0 <= i < |tab| - 1 ==> tab[i].x != tab[i + 1].x
  }

  /** What interpolation needs of a table: a last row, and no zero-width segment. */
  predicate WellFormed(tab: seq<Row>) {
    |tab| > 0 && NoDegeneratePair(tab)
  }

  predicate StrictlyIncreasing(tab: seq<Row>) {
    forall i, j :: 0 <= i < j < |tab| ==> tab[i].x < tab[j].x
  }

  /** The segment from row `i` to row `i + 1` contains `x`, both ends included. */
  predicate Brackets(tab: seq<Row>, i: int, x: real) {
    0 <= i < |tab| - 1 && tab[i].x <= x <= tab[i + 1].x
  }

  predicate NoBracketBefore(tab: seq<Row>, k: int, x: real) {
    forall j :: 0 <= j < k ==> !Brackets(tab, j, x)
  }

  /** Segment `i` is the first one, in table order, that contains `x`. */
  predicate IsFirstBracket(tab: seq<Row>, i: int, x: real) {
    Brackets(tab, i, x) && NoBracketBefore(tab, i, x)
  }

  predicate Between(r: real, p: real, q: real) {
    (p <= r <= q) || (q <= r <= p)
  }

  /** The straight line through rows `a` and `b` on the chosen channel, at `x`. */
  function Lerp(a: Row, b: Row, x: real, isT: bool): (r: real)
    requires a.x != b.x
    ensures x == a.x ==> r == Channel(a, isT)
    ensures x == b.x ==> r == Channel(b, isT)
    ensures a.x <= x <= b.x ==> Between(r, Channel(a, isT), Channel(b, isT))
  {
    LerpStep(Channel(a, isT), Channel(b, isT), x - a.x, b.x - a.x);
    Channel(a, isT) + (Channel(b, isT) - Channel(a, isT)) * (x - a.x) / (b.x - a.x)
  }

  /** Moving a part `p` of a width `w` of the way from `y1` to `y2` stays
      between them when 0 <= p <= w. */
  lemma LerpStep(y1: real, y2: real, p: real, w: real)
    requires w != 0.0
    ensures 0.0 <= p <= w ==> Between(y1 + (y2 - y1) * p / w, y1, y2)
  {
    if 0.0 <= p <= w {
      var d := y2 - y1;
      var s := p / w;
      assert (y2 - y1) * p / w == d * s;
      MulNonNegative(if d >= 0.0 then d else -d, s);
      MulNonNegative(if d >= 0.0 then d else -d, 1.0 - s);
    }
  }

  lemma MulNonNegative(a: real, b: real)
    ensures a >= 0.0 && b >= 0.0 ==> a * b >= 0.0
  {
  }

  /** Reference definition of the table lookup: the first segment that contains
      `x` is interpolated; when no segment does, the last row's value is used. */
  function Interpolation(tab: seq<Row>, x: real, isT: bool): real
    requires WellFormed(tab)
    decreases |tab|
  {
    if |tab| == 1 then Channel(tab[0], isT)
    else if tab[0].x <= x <= tab[1].x then Lerp(tab[0], tab[1], x, isT)
    else
      assert NoDegeneratePair(tab[1..]) by {
        forall i | 0 <= i < |tab[1..]| - 1 ensures tab[1..][i].x != tab[1..][i + 1].x {
          assert tab[1..][i] == tab[i + 1] && tab[1..][i + 1] == tab[i + 2];
        }
      }
      Interpolation(tab[1..], x, isT)
  }

  /** The scan over adjacent pairs, with its early return on the first match. */
  method Interpolate(tab: seq<Row>, x: real, isT: bool) returns (r: real)
    requires WellFormed(tab)
    ensures forall i :: IsFirstBracket(tab, i, x) ==> r == Lerp(tab[i], tab[i + 1], x, isT)
    ensures NoBracketBefore(tab, |tab| - 1, x) ==> r == Channel(tab[|tab| - 1], isT)
    ensures r == Interpolation(tab, x, isT)
  {
    var i := 0;
    while i + 1 < |tab|
      invariant 0 <= i < |tab|
      invariant NoBracketBefore(tab, i, x)
    {
      if tab[i].x <= x && x <= tab[i + 1].x {
        r := Lerp(tab[i], tab[i + 1], x, isT);
        assert IsFirstBracket(tab, i, x);
        forall j | IsFirstBracket(tab, j, x) ensures j == i {
        }
        InterpolationFirstBracket(tab, x, isT, i);
        return;
      }
      i := i + 1;
    }
    r := Channel(tab[|tab| - 1], isT);
    InterpolationClamps(tab, x, isT);
  }

  /** Shifting the table by one row shifts every segment by one. */
  lemma BracketsTail(tab: seq<Row>, x: real)
    requires |tab| >= 2
    ensures forall j :: j >= 0 ==> (Brackets(tab[1..], j, x) <==> Brackets(tab, j + 1, x))
  {
    forall j | j >= 0 ensures Brackets(tab[1..], j, x) <==> Brackets(tab, j + 1, x) {
      if 0 <= j < |tab| - 2 {
        assert tab[1..][j] == tab[j + 1] && tab[1..][j + 1] == tab[j + 2];
      }
    }
  }

  /** The first segment containing `x` decides the result. */
  lemma {:induction false} InterpolationFirstBracket(tab: seq<Row>, x: real, isT: bool, i: int)
    requires WellFormed(tab)
    requires IsFirstBracket(tab, i, x)
    ensures Interpolation(tab, x, isT) == Lerp(tab[i], tab[i + 1], x, isT)
  {
    if i > 0 {
      assert !Brackets(tab, 0, x);
      BracketsTail(tab, x);
      assert tab[1..][i - 1] == tab[i] && tab[1..][i] == tab[i + 1];
      InterpolationFirstBracket(tab[1..], x, isT, i - 1);
    }
  }

  /** When no segment contains `x` (in particular for a one-row table), the
      last row's value is returned. */
  lemma {:induction false} InterpolationClamps(tab: seq<Row>, x: real, isT: bool)
    requires WellFormed(tab)
    requires NoBracketBefore(tab, |tab| - 1, x)
    ensures Interpolation(tab, x, isT) == Channel(tab[|tab| - 1], isT)
  {
    if |tab| > 1 {
      assert !Brackets(tab, 0, x);
      BracketsTail(tab, x);
      InterpolationClamps(tab[1..], x, isT);
    }
  }

  /** On a sorted table, a query below the first or above the last abscissa is
      clamped to the last row's value. */
  lemma InterpolationOutsideRange(tab: seq<Row>, x: real, isT: bool)
    requires WellFormed(tab) && StrictlyIncreasing(tab)
    requires x < tab[0].x || x > tab[|tab| - 1].x
    ensures Interpolation(tab, x, isT) == Channel(tab[|tab| - 1], isT)
  {
    forall j | 0 <= j < |tab| - 1 ensures !Brackets(tab, j, x) {
      assert tab[0].x <= tab[j].x && tab[j + 1].x <= tab[|tab| - 1].x;
    }
    InterpolationClamps(tab, x, isT);
  }

  /** On a sorted table, querying at a sample's abscissa returns that sample's
      value: the earlier segment that wins at a shared endpoint gives the same
      value as the later one would. */
  lemma {:induction false} InterpolationAtSample(tab: seq<Row>, x: real, isT: bool, k: int)
    requires WellFormed(tab) && StrictlyIncreasing(tab)
    requires 0 <= k < |tab| && x == tab[k].x
    ensures Interpolation(tab, x, isT) == Channel(tab[k], isT)
  {
    if k >= 2 {
      assert tab[1].x < tab[k].x;
      assert tab[1..][k - 1] == tab[k];
      InterpolationAtSample(tab[1..], x, isT, k - 1);
    }
  }

  /** The result never leaves the range of the chosen channel's values. */
  lemma {:induction false} InterpolationBounded(tab: seq<Row>, x: real, isT: bool, lo: real, hi: real)
    requires WellFormed(tab)
    requires forall i :: 0 <= i < |tab| ==> lo <= Channel(tab[i], isT) <= hi
    ensures lo <= Interpolation(tab, x, isT) <= hi
  {
    if |tab| > 1 {
      assert lo <= Channel(tab[0], isT) <= hi && lo <= Channel(tab[1], isT) <= hi;
      if !(tab[0].x <= x <= tab[1].x) {
        assert forall i :: 0 <= i < |tab[1..]| ==> tab[1..][i] == tab[i + 1];
        InterpolationBounded(tab[1..], x, isT, lo, hi);
      }
    }
  }

  /** Two samples (0, 0, 0) and (1, 10, 20): halfway gives 5 on `t` and 10 on `u`. */
  lemma InterpolationExample()
    ensures Interpolation([Row(0.0, 0.0, 0.0), Row(1.0, 10.0, 20.0)], 0.5, true) == 5.0
    ensures Interpolation([Row(0.0, 0.0, 0.0), Row(1.0, 10.0, 20.0)], 0.5, false) == 10.0
  {
  }
}
