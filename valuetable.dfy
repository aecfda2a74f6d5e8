/**
 * The agent's action-value table: a states x actions grid of estimates that
 * starts at zero, is queried for its best action and its largest value, and is
 * changed one cell at a time by the learning rule.
 */
module ValueTable {

  /** Estimates by state (outer index) and action (inner index). */
  type Table = seq<seq<real>>

  predicate HasShape(t: Table, nStates: nat, nActions: nat)
  {
    |t| == nStates && forall i :: 0 <= i < |t| ==> |t[i]| == nActions
  }

  /** Every estimate of `t` lies in [lo, hi]. */
  predicate Bounded(t: Table, lo: real, hi: real)
  {
    forall i, j :: 0 <= i < |t| && 0 <= j < |t[i]| ==> lo <= t[i][j] <= hi
  }

  /** The table before any learning: every estimate is zero. */
  function Zeros(nStates: nat, nActions: nat): (t: Table)
    ensures HasShape(t, nStates, nActions)
    ensures forall i, j :: 0 <= i < nStates && 0 <= j < nActions ==> t[i][j] == 0.0
  {
    seq(nStates, _ => seq(nActions, _ => 0.0))
  }

  /** The index of the first largest entry of a non-empty row: numpy's argmax. */
  function ArgMax(row: seq<real>): (a: nat)
    requires |row| > 0
    ensures a < |row|
  {
    if |row| == 1 then 0
    else
      var b := ArgMax(row[..|row| - 1]);
      if row[b] < row[|row| - 1] then |row| - 1 else b
  }

  /**
   * ArgMax follows numpy's tie-break: every entry is at most the chosen one
   * and every entry before it is strictly smaller, so the first maximum wins.
   */
  lemma {:induction false} ArgMaxIsFirstMaximum(row: seq<real>)
    requires |row| > 0
    ensures forall j :: 0 <= j < |row| ==> row[j] <= row[ArgMax(row)]
    ensures forall j :: 0 <= j < ArgMax(row) ==> row[j] < row[ArgMax(row)]
  {
    if |row| > 1 {
      var front := row[..|row| - 1];
      ArgMaxIsFirstMaximum(front);
      assert forall j :: 0 <= j < |front| ==> front[j] == row[j];
    }
  }

  /** numpy's max of a non-empty row. */
  function MaxValue(row: seq<real>): real
    requires |row| > 0
  {
    row[ArgMax(row)]
  }

  /** MaxValue is an entry of the row that no entry exceeds. */
  lemma MaxValueIsMaximum(row: seq<real>)
    requires |row| > 0
    ensures forall j :: 0 <= j < |row| ==> row[j] <= MaxValue(row)
    ensures exists j :: 0 <= j < |row| && row[j] == MaxValue(row)
  {
    ArgMaxIsFirstMaximum(row);
    assert row[ArgMax(row)] == MaxValue(row);
  }

  /** The two properties of ArgMax single out one index: no other index has both. */
  lemma ArgMaxIsUnique(row: seq<real>, a: nat)
    requires a < |row|
    requires forall j :: 0 <= j < |row| ==> row[j] <= row[a]
    requires forall j :: 0 <= j < a ==> row[j] < row[a]
    ensures ArgMax(row) == a
  {
    ArgMaxIsFirstMaximum(row);
  }

  /** A row whose entries are all equal, the all-zero row among them, picks action 0. */
  lemma ArgMaxOfConstantRow(row: seq<real>)
    requires |row| > 0
    requires forall j :: 0 <= j < |row| ==> row[j] == row[0]
    ensures ArgMax(row) == 0
  {
    ArgMaxIsUnique(row, 0);
  }

  /** The interpolation of the learning rule: (1 - lr) * current + lr * target. */
  function Blend(current: real, target: real, lr: real): real
  {
    (1.0 - lr) * current + lr * target
  }

  /**
   * With a rate in [0, 1] the blended value lies between the current value and
   * the target; rate 1 gives the target and rate 0 leaves the current value.
   */
  lemma BlendIsConvex(current: real, target: real, lr: real)
    requires 0.0 <= lr <= 1.0
    ensures current <= target ==> current <= Blend(current, target, lr) <= target
    ensures target <= current ==> target <= Blend(current, target, lr) <= current
    ensures lr == 1.0 ==> Blend(current, target, lr) == target
    ensures lr == 0.0 ==> Blend(current, target, lr) == current
  {
    var d := target - current;
    assert Blend(current, target, lr) == current + lr * d;
    assert lr * d + (1.0 - lr) * d == d;
    if current <= target {
      NonNegativeProduct(lr, d);
      NonNegativeProduct(1.0 - lr, d);
    } else {
      NonNegativeProduct(lr, -d);
      NonNegativeProduct(1.0 - lr, -d);
    }
  }

  lemma NonNegativeProduct(x: real, y: real)
    requires 0.0 <= x && 0.0 <= y
    ensures 0.0 <= x * y
  {
  }

  /**
   * One application of the learning rule to cell (s, a): that cell becomes
   * the blend of its value and the target, and no other cell changes.
   */
  function Updated(t: Table, s: nat, a: nat, target: real, lr: real): Table
    requires s < |t| && a < |t[s]|
  {
    t[s := t[s][a := Blend(t[s][a], target, lr)]]
  }

  /** The update keeps the shape of the table and changes cell (s, a) alone, to the blend. */
  lemma UpdatedChangesOneCell(t: Table, s: nat, a: nat, target: real, lr: real)
    requires s < |t| && a < |t[s]|
    ensures var r := Updated(t, s, a, target, lr);
            |r| == |t| && (forall i :: 0 <= i < |t| ==> |r[i]| == |t[i]|) &&
            r[s][a] == Blend(t[s][a], target, lr) &&
            forall i, j :: 0 <= i < |t| && 0 <= j < |t[i]| && (i != s || j != a) ==> r[i][j] == t[i][j]
  {
  }

  /** An update toward a target inside [lo, hi] keeps every estimate inside [lo, hi]. */
  lemma UpdatedKeepsBound(t: Table, s: nat, a: nat, target: real, lr: real, lo: real, hi: real)
    requires s < |t| && a < |t[s]|
    requires Bounded(t, lo, hi) && lo <= target <= hi && 0.0 <= lr <= 1.0
    ensures Bounded(Updated(t, s, a, target, lr), lo, hi)
  {
    BlendIsConvex(t[s][a], target, lr);
    UpdatedChangesOneCell(t, s, a, target, lr);
  }

  /**
   * The table as the program holds it: a two-dimensional array updated in place.
   * The ghost field `cells` is its value as a Table.
   */
  class QTable {
    const nStates: nat
    const nActions: nat
    const data: array2<real>
    ghost var cells: Table

    ghost predicate Valid()
      reads this, data
    {
      data.Length0 == nStates && data.Length1 == nActions &&
      HasShape(cells, nStates, nActions) &&
      forall i, j {:trigger data[i, j]} :: 0 <= i < nStates && 0 <= j < nActions ==> data[i, j] == cells[i][j]
    }

    /** A fresh table of zeros. */
    constructor (nStates: nat, nActions: nat)
      ensures Valid() && fresh(data)
      ensures this.nStates == nStates && this.nActions == nActions
      ensures cells == Zeros(nStates, nActions)
    {
      this.nStates := nStates;
      this.nActions := nActions;
      data := new real[nStates, nActions]((_, _) => 0.0);
      cells := Zeros(nStates, nActions);
    }

    /** The estimates of state `s`, one per action. */
    function Row(s: nat): (r: seq<real>)
      requires Valid() && s < nStates
      reads this, data
      ensures r == cells[s]
    {
      seq(nActions, j requires 0 <= j < nActions reads data => data[s, j])
    }

    /** Applies the learning rule to cell (s, a) in place. */
    method Update(s: nat, a: nat, target: real, lr: real)
      requires Valid() && s < nStates && a < nActions
      modifies this, data
      ensures Valid()
      ensures cells == Updated(old(cells), s, a, target, lr)
      ensures data[s, a] == Blend(old(data[s, a]), target, lr)
      ensures forall i, j :: 0 <= i < nStates && 0 <= j < nActions && (i != s || j != a) ==>
                data[i, j] == old(data[i, j])
    {
      UpdatedChangesOneCell(cells, s, a, target, lr);
      data[s, a] := Blend(data[s, a], target, lr);
      cells := Updated(cells, s, a, target, lr);
    }
  }
}
