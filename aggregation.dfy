/** Column sums and group-by sums as pandas computes them for the dashboard:
    `df[col].sum()` and `df.groupby(key)[col].sum()`, both skipping missing
    values and the group-by dropping rows whose key is missing. */
module Aggregation {
  import opened Table

  function Sum(xs: seq<real>): real
    decreases |xs|
  {
    if xs == [] then 0.0 else Sum(xs[..|xs| - 1]) + xs[|xs| - 1]
  }

  lemma {:induction false} SumAppend(a: seq<real>, b: seq<real>)
    ensures Sum(a + b) == Sum(a) + Sum(b)
    decreases |b|
  {
    if b == [] {
      assert a + b == a;
    } else {
      var b' := b[..|b| - 1];
      assert (a + b)[..|a + b| - 1] == a + b';
      SumAppend(a, b');
    }
  }

  /** The numbers of column `col` in row order, missing cells left out
      (`df[col].dropna()`). */
  function Present(rows: seq<Row>, col: string): (r: seq<real>)
    ensures |r| <= |rows|
    decreases |rows|
  {
    if rows == [] then []
    else
      var c := Get(rows[|rows| - 1], col);
      Present(rows[..|rows| - 1], col) + (if c.Num? then [c.value] else [])
  }

  /** The values kept are exactly the numbers found in the column. */
  lemma {:induction false} PresentMembers(rows: seq<Row>, col: string, x: real)
    ensures x in Present(rows, col) <==> exists i :: 0 <= i < |rows| && Get(rows[i], col) == Num(x)
    decreases |rows|
  {
    if rows != [] {
      var init := rows[..|rows| - 1];
      PresentMembers(init, col, x);
      assert forall i :: 0 <= i < |init| ==> init[i] == rows[i];
      if x in Present(init, col) {
        var i :| 0 <= i < |init| && Get(init[i], col) == Num(x);
        assert Get(rows[i], col) == Num(x);
      }
    }
  }

  /** `df[col].sum()`: the sum of the column's numbers, missing cells skipped
      (pandas' default `skipna=True`, with 0 for a column without numbers). */
  function ColumnSum(rows: seq<Row>, col: string): real
  {
    Sum(Present(rows, col))
  }

  /** The contribution of one cell to a sum: its number, or nothing. */
  function Amount(c: Cell): real
  {
    if c.Num? then c.value else 0.0
  }

  lemma {:induction false} PresentAppend(a: seq<Row>, b: seq<Row>, col: string)
    ensures Present(a + b, col) == Present(a, col) + Present(b, col)
    decreases |b|
  {
    if b == [] {
      assert a + b == a;
    } else {
      var b' := b[..|b| - 1];
      assert (a + b)[..|a + b| - 1] == a + b';
      PresentAppend(a, b', col);
    }
  }

  /** Sums over consecutive stretches of rows add up. */
  lemma ColumnSumAppend(a: seq<Row>, b: seq<Row>, col: string)
    ensures ColumnSum(a + b, col) == ColumnSum(a, col) + ColumnSum(b, col)
  {
    PresentAppend(a, b, col);
    SumAppend(Present(a, col), Present(b, col));
  }

  lemma ColumnSumOne(row: Row, col: string)
    ensures ColumnSum([row], col) == Amount(Get(row, col))
  {
    var c := Get(row, col);
    assert [row][..0] == [];
    assert Present([row], col) == if c.Num? then [c.value] else [];
    assert Sum([Amount(c)]) == Sum([]) + Amount(c);
  }

  /** One more row adds its amount to the column's sum. */
  lemma ColumnSumSnoc(init: seq<Row>, last: Row, col: string)
    ensures ColumnSum(init + [last], col) == ColumnSum(init, col) + Amount(Get(last, col))
  {
    ColumnSumAppend(init, [last], col);
    ColumnSumOne(last, col);
  }

  /** A cell that is not a number contributes nothing to its column's sum:
      the sum without that row is the same. */
  lemma MissingContributesNothing(rows: seq<Row>, col: string, i: nat)
    requires i < |rows| && !Get(rows[i], col).Num?
    ensures ColumnSum(rows[..i] + rows[i + 1..], col) == ColumnSum(rows, col)
  {
    assert rows == rows[..i] + [rows[i]] + rows[i + 1..];
    ColumnSumAppend(rows[..i] + [rows[i]], rows[i + 1..], col);
    ColumnSumAppend(rows[..i], [rows[i]], col);
    ColumnSumAppend(rows[..i], rows[i + 1..], col);
    ColumnSumOne(rows[i], col);
  }

  /** A column without a single number sums to 0. */
  lemma AllMissingSumsToZero(rows: seq<Row>, col: string)
    requires forall i :: 0 <= i < |rows| ==> !Get(rows[i], col).Num?
    ensures ColumnSum(rows, col) == 0.0
  {
    var p := Present(rows, col);
    if p != [] {
      PresentMembers(rows, col, p[0]);
      assert false;
    }
  }

  /** One entry of a group-by result: a key and the sum of its group. */
  datatype Group = Group(key: Cell, total: real)

  /** The rows whose cell in `keyCol` is exactly `key`, in order. */
  function WithKey(rows: seq<Row>, keyCol: string, key: Cell): (r: seq<Row>)
    ensures |r| <= |rows|
    decreases |rows|
  {
    if rows == [] then []
    else
      var last := rows[|rows| - 1];
      WithKey(rows[..|rows| - 1], keyCol, key) + (if Get(last, keyCol) == key then [last] else [])
  }

  /** The rows selected are rows of the input with that key, and no row with
      the key is passed over. */
  lemma {:induction false} WithKeyMembers(rows: seq<Row>, keyCol: string, key: Cell, row: Row)
    ensures row in WithKey(rows, keyCol, key) <==> row in rows && Get(row, keyCol) == key
    decreases |rows|
  {
    if rows != [] {
      var init := rows[..|rows| - 1];
      WithKeyMembers(init, keyCol, key, row);
      assert rows == init + [rows[|rows| - 1]];
    }
  }

  /** A key's group takes each row at most as often as the rows hold it. */
  lemma {:induction false} WithKeyPart(rows: seq<Row>, keyCol: string, key: Cell)
    ensures multiset(WithKey(rows, keyCol, key)) <= multiset(rows)
    decreases |rows|
  {
    if rows != [] {
      var init := rows[..|rows| - 1];
      WithKeyPart(init, keyCol, key);
      assert rows == init + [rows[|rows| - 1]];
    }
  }

  /** The distinct non-missing keys of column `keyCol`. */
  function KeysOf(rows: seq<Row>, keyCol: string): set<Cell>
    decreases |rows|
  {
    if rows == [] then {}
    else
      var k := Get(rows[|rows| - 1], keyCol);
      KeysOf(rows[..|rows| - 1], keyCol) + (if k.Missing? then {} else {k})
  }

  /** A key is listed exactly when it is not missing and some row has it. */
  lemma {:induction false} KeysOfMembers(rows: seq<Row>, keyCol: string, k: Cell)
    ensures k in KeysOf(rows, keyCol) <==> !k.Missing? && exists i :: 0 <= i < |rows| && Get(rows[i], keyCol) == k
    decreases |rows|
  {
    if rows != [] {
      var init := rows[..|rows| - 1];
      KeysOfMembers(init, keyCol, k);
      assert forall i :: 0 <= i < |init| ==> init[i] == rows[i];
      if k in KeysOf(init, keyCol) {
        var i :| 0 <= i < |init| && Get(init[i], keyCol) == k;
        assert Get(rows[i], keyCol) == k;
      }
    }
  }

  /** The keys listed in a group-by result. */
  function KeySet(gs: seq<Group>): set<Cell>
    decreases |gs|
  {
    if gs == [] then {} else KeySet(gs[..|gs| - 1]) + {gs[|gs| - 1].key}
  }

  lemma {:induction false} KeySetMembers(gs: seq<Group>, k: Cell)
    ensures k in KeySet(gs) <==> exists i :: 0 <= i < |gs| && gs[i].key == k
    decreases |gs|
  {
    if gs != [] {
      var init := gs[..|gs| - 1];
      KeySetMembers(init, k);
      assert forall i :: 0 <= i < |init| ==> init[i] == gs[i];
      if k in KeySet(init) {
        var i :| 0 <= i < |init| && init[i].key == k;
        assert gs[i].key == k;
      }
    }
  }

  predicate DistinctKeys(gs: seq<Group>)
  {
    forall i, j :: 0 <= i < j < |gs| ==> gs[i].key != gs[j].key
  }

  /** The position of `key` in a group-by result, or |gs| when it is not there. */
  function Find(gs: seq<Group>, key: Cell): (i: nat)
    ensures i <= |gs|
    ensures i < |gs| ==> gs[i].key == key
    ensures i == |gs| ==> forall j :: 0 <= j < |gs| ==> gs[j].key != key
  {
    if gs == [] then 0
    else if gs[0].key == key then 0
    else 1 + Find(gs[1..], key)
  }

  /** One row's step of the group-by: a missing key is dropped, a key seen
      before adds to its group, a new key opens a group. */
  function Accumulate(gs: seq<Group>, key: Cell, amount: real): seq<Group>
  {
    if key.Missing? then gs
    else
      var i := Find(gs, key);
      if i < |gs| then gs[i := Group(key, gs[i].total + amount)]
      else gs + [Group(key, amount)]
  }

  /** `df.groupby(keyCol)[valCol].sum()`: one group per distinct key, in the
      order the keys first appear. */
  function GroupSum(rows: seq<Row>, keyCol: string, valCol: string): seq<Group>
    decreases |rows|
  {
    if rows == [] then []
    else
      var last := rows[|rows| - 1];
      Accumulate(GroupSum(rows[..|rows| - 1], keyCol, valCol), Get(last, keyCol), Amount(Get(last, valCol)))
  }

  lemma KeySetUpdate(gs: seq<Group>, i: nat, g: Group)
    requires i < |gs| && g.key == gs[i].key
    ensures KeySet(gs[i := g]) == KeySet(gs)
  {
    var u := gs[i := g];
    forall k ensures k in KeySet(u) <==> k in KeySet(gs) {
      KeySetMembers(u, k);
      KeySetMembers(gs, k);
      if k in KeySet(u) {
        var j :| 0 <= j < |u| && u[j].key == k;
        assert gs[j].key == k;
      }
      if k in KeySet(gs) {
        var j :| 0 <= j < |gs| && gs[j].key == k;
        assert u[j].key == k;
      }
    }
  }

  lemma {:induction false} KeySetSize(gs: seq<Group>)
    requires DistinctKeys(gs)
    ensures |KeySet(gs)| == |gs|
    decreases |gs|
  {
    if gs != [] {
      var init := gs[..|gs| - 1];
      KeySetSize(init);
      var k := gs[|gs| - 1].key;
      KeySetMembers(init, k);
    }
  }

  lemma NoRowsWithAbsentKey(rows: seq<Row>, keyCol: string, key: Cell)
    requires forall i :: 0 <= i < |rows| ==> Get(rows[i], keyCol) != key
    ensures WithKey(rows, keyCol, key) == []
  {
    var w := WithKey(rows, keyCol, key);
    if w != [] {
      WithKeyMembers(rows, keyCol, key, w[0]);
    }
  }

  lemma WithKeySnoc(init: seq<Row>, last: Row, keyCol: string, key: Cell)
    ensures WithKey(init + [last], keyCol, key)
      == WithKey(init, keyCol, key) + (if Get(last, keyCol) == key then [last] else [])
  {
    assert (init + [last])[..|init|] == init;
  }

  lemma KeysOfSnoc(init: seq<Row>, last: Row, keyCol: string)
    ensures KeysOf(init + [last], keyCol)
      == KeysOf(init, keyCol) + (if Get(last, keyCol).Missing? then {} else {Get(last, keyCol)})
  {
    assert (init + [last])[..|init|] == init;
  }

  /** What a group-by result promises about the rows it was computed from:
      distinct keys, exactly the rows' non-missing keys, and per key the
      skip-missing sum of `valCol` over the rows with that key. */
  ghost predicate GroupsOf(rows: seq<Row>, gs: seq<Group>, keyCol: string, valCol: string)
  {
    && DistinctKeys(gs)
    && KeySet(gs) == KeysOf(rows, keyCol)
    && forall i :: 0 <= i < |gs| ==> gs[i].total == ColumnSum(WithKey(rows, keyCol, gs[i].key), valCol)
  }

  /** One more row whose key is missing: the groups stay as they are. */
  lemma StepMissingKey(init: seq<Row>, last: Row, gs: seq<Group>, keyCol: string, valCol: string)
    requires GroupsOf(init, gs, keyCol, valCol) && Get(last, keyCol).Missing?
    ensures GroupsOf(init + [last], gs, keyCol, valCol)
  {
    KeysOfSnoc(init, last, keyCol);
    forall i | 0 <= i < |gs|
      ensures gs[i].total == ColumnSum(WithKey(init + [last], keyCol, gs[i].key), valCol)
    {
      KeySetMembers(gs, gs[i].key);
      KeysOfMembers(init, keyCol, gs[i].key);
      WithKeySnoc(init, last, keyCol, gs[i].key);
      assert WithKey(init, keyCol, gs[i].key) + [] == WithKey(init, keyCol, gs[i].key);
    }
  }

  /** One more row whose key already has a group (at `p`): its amount is added there. */
  lemma StepKnownKey(init: seq<Row>, last: Row, gs: seq<Group>, keyCol: string, valCol: string, p: nat, u: seq<Group>)
    requires GroupsOf(init, gs, keyCol, valCol)
    requires p < |gs| && gs[p].key == Get(last, keyCol)
    requires u == gs[p := Group(gs[p].key, gs[p].total + Amount(Get(last, valCol)))]
    ensures GroupsOf(init + [last], u, keyCol, valCol)
  {
    var k := gs[p].key;
    KeysOfSnoc(init, last, keyCol);
    KeySetMembers(gs, k);
    KeySetUpdate(gs, p, u[p]);
    ColumnSumOne(last, valCol);
    forall i | 0 <= i < |u|
      ensures u[i].total == ColumnSum(WithKey(init + [last], keyCol, u[i].key), valCol)
    {
      WithKeySnoc(init, last, keyCol, u[i].key);
      if i == p {
        ColumnSumAppend(WithKey(init, keyCol, k), [last], valCol);
      } else {
        assert WithKey(init, keyCol, u[i].key) + [] == WithKey(init, keyCol, u[i].key);
      }
    }
  }

  /** One more row with a key not seen before: a new group is appended. */
  lemma StepNewKey(init: seq<Row>, last: Row, gs: seq<Group>, keyCol: string, valCol: string, u: seq<Group>)
    requires GroupsOf(init, gs, keyCol, valCol)
    requires !Get(last, keyCol).Missing?
    requires forall j :: 0 <= j < |gs| ==> gs[j].key != Get(last, keyCol)
    requires u == gs + [Group(Get(last, keyCol), Amount(Get(last, valCol)))]
    ensures GroupsOf(init + [last], u, keyCol, valCol)
  {
    var k := Get(last, keyCol);
    KeysOfSnoc(init, last, keyCol);
    KeySetMembers(gs, k);
    KeysOfMembers(init, keyCol, k);
    NoRowsWithAbsentKey(init, keyCol, k);
    ColumnSumOne(last, valCol);
    assert u[..|u| - 1] == gs;
    forall i | 0 <= i < |u|
      ensures u[i].total == ColumnSum(WithKey(init + [last], keyCol, u[i].key), valCol)
    {
      WithKeySnoc(init, last, keyCol, u[i].key);
      if i == |gs| {
        assert WithKey(init, keyCol, k) + [last] == [last];
      } else {
        assert WithKey(init, keyCol, u[i].key) + [] == WithKey(init, keyCol, u[i].key);
      }
    }
  }

  /** One row's step of the group-by keeps the group invariant. */
  lemma AccumulateStep(init: seq<Row>, last: Row, prev: seq<Group>, keyCol: string, valCol: string)
    requires GroupsOf(init, prev, keyCol, valCol)
    ensures GroupsOf(init + [last], Accumulate(prev, Get(last, keyCol), Amount(Get(last, valCol))), keyCol, valCol)
  {
    var k := Get(last, keyCol);
    var a := Amount(Get(last, valCol));
    var u := Accumulate(prev, k, a);
    if k.Missing? {
      StepMissingKey(init, last, prev, keyCol, valCol);
    } else {
      var p := Find(prev, k);
      if p < |prev| {
        StepKnownKey(init, last, prev, keyCol, valCol, p, u);
      } else {
        StepNewKey(init, last, prev, keyCol, valCol, u);
      }
    }
  }

  /** The group-by result has one entry per distinct non-missing key and no
      other, and each entry's total is the skip-missing sum of `valCol` over
      exactly the rows with that key. */
  lemma {:induction false} GroupSumSpec(rows: seq<Row>, keyCol: string, valCol: string)
    ensures GroupsOf(rows, GroupSum(rows, keyCol, valCol), keyCol, valCol)
    ensures |GroupSum(rows, keyCol, valCol)| == |KeysOf(rows, keyCol)|
    decreases |rows|
  {
    if rows != [] {
      var init := rows[..|rows| - 1];
      var last := rows[|rows| - 1];
      GroupSumSpec(init, keyCol, valCol);
      assert rows == init + [last];
      AccumulateStep(init, last, GroupSum(init, keyCol, valCol), keyCol, valCol);
    }
    KeySetSize(GroupSum(rows, keyCol, valCol));
  }

  /** Any one entry of the group-by result: its key occurs in the rows, and
      its total is the sum of `valCol` over the rows with that key. */
  lemma GroupEntry(rows: seq<Row>, keyCol: string, valCol: string, x: Group)
    requires x in GroupSum(rows, keyCol, valCol)
    ensures x.key in KeysOf(rows, keyCol)
    ensures x.total == ColumnSum(WithKey(rows, keyCol, x.key), valCol)
  {
    var gs := GroupSum(rows, keyCol, valCol);
    GroupSumSpec(rows, keyCol, valCol);
    var m :| 0 <= m < |gs| && gs[m] == x;
    KeySetMembers(gs, x.key);
  }

  /** The sum of a group-by result's totals. */
  function GroupTotal(gs: seq<Group>): real
    decreases |gs|
  {
    if gs == [] then 0.0 else GroupTotal(gs[..|gs| - 1]) + gs[|gs| - 1].total
  }

  lemma {:induction false} GroupTotalUpdate(gs: seq<Group>, i: nat, g: Group)
    requires i < |gs|
    ensures GroupTotal(gs[i := g]) == GroupTotal(gs) - gs[i].total + g.total
    decreases |gs|
  {
    var init := gs[..|gs| - 1];
    if i < |gs| - 1 {
      assert gs[i := g][..|gs| - 1] == init[i := g];
      GroupTotalUpdate(init, i, g);
    } else {
      assert gs[i := g][..|gs| - 1] == init;
    }
  }

  /** One row's step changes the groups' grand total by the row's amount,
      or not at all when its key is missing. */
  lemma GroupTotalStep(gs: seq<Group>, key: Cell, amount: real)
    ensures GroupTotal(Accumulate(gs, key, amount)) == GroupTotal(gs) + (if key.Missing? then 0.0 else amount)
  {
    if !key.Missing? {
      var u := Accumulate(gs, key, amount);
      var p := Find(gs, key);
      if p < |gs| {
        GroupTotalUpdate(gs, p, Group(key, gs[p].total + amount));
      } else {
        assert u[..|u| - 1] == gs;
      }
    }
  }

  /** One more row adds its amount to the dropped rows' sum exactly when its key is missing. */
  lemma DroppedStep(init: seq<Row>, last: Row, keyCol: string, valCol: string)
    ensures ColumnSum(WithKey(init + [last], keyCol, Missing), valCol)
      == ColumnSum(WithKey(init, keyCol, Missing), valCol)
        + (if Get(last, keyCol).Missing? then Amount(Get(last, valCol)) else 0.0)
  {
    var dropped := WithKey(init, keyCol, Missing);
    WithKeySnoc(init, last, keyCol, Missing);
    if Get(last, keyCol).Missing? {
      ColumnSumSnoc(dropped, last, valCol);
    } else {
      assert dropped + [] == dropped;
    }
  }

  /** Partition identity: the groups' totals add up to the column's sum,
      less what the rows with a missing key (which the group-by drops) hold. */
  lemma {:induction false} GroupSumPartition(rows: seq<Row>, keyCol: string, valCol: string)
    ensures GroupTotal(GroupSum(rows, keyCol, valCol))
      == ColumnSum(rows, valCol) - ColumnSum(WithKey(rows, keyCol, Missing), valCol)
    decreases |rows|
  {
    if rows != [] {
      var init := rows[..|rows| - 1];
      var last := rows[|rows| - 1];
      var prev := GroupSum(init, keyCol, valCol);
      GroupSumPartition(init, keyCol, valCol);
      assert rows == init + [last];
      GroupTotalStep(prev, Get(last, keyCol), Amount(Get(last, valCol)));
      ColumnSumSnoc(init, last, valCol);
      DroppedStep(init, last, keyCol, valCol);
    }
  }

  /** When every row has a key, the groups' totals add up to the column's sum. */
  lemma GroupSumCoversTotal(rows: seq<Row>, keyCol: string, valCol: string)
    requires forall i :: 0 <= i < |rows| ==> !Get(rows[i], keyCol).Missing?
    ensures GroupTotal(GroupSum(rows, keyCol, valCol)) == ColumnSum(rows, valCol)
  {
    GroupSumPartition(rows, keyCol, valCol);
    NoRowsWithAbsentKey(rows, keyCol, Missing);
  }
}
