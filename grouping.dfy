/** The grouping loop of CreateSalesForTime (sus.py:103-115), stated for any
    row type: each row's key is computed (this can fail); a key seen for the
    first time stores the row with quantity 1 and runs the first-occurrence
    action on it (for sales, CreateTimeDim), threading that action's state;
    a key seen before adds one to its group's quantity. */
module Grouping {
  import opened Base

  /** A group: its first row, how many rows it has, and what the
      first-occurrence action produced for it. */
  datatype Group<R, E> = Group(row: R, quantity: nat, record: E)

  /** The dictionary of groups, with its keys in insertion order. */
  datatype Grouped<K, R, E> = Grouped(order: seq<K>, groups: map<K, Group<R, E>>)

  /** One iteration of the loop. */
  function Step<S, R, K(==), E>(st: S, d: Grouped<K, R, E>, row: R, keyOf: R -> Result<K>, onFirst: (S, R) -> Result<(S, E)>)
    : Result<(S, Grouped<K, R, E>)>
  {
    match keyOf(row)
    case Err(e) => Err(e)
    case Ok(key) =>
      if key !in d.groups then
        match onFirst(st, row)
        case Err(e) => Err(e)
        case Ok((st1, rec)) => Ok((st1, Grouped(d.order + [key], d.groups[key := Group(row, 1, rec)])))
      else
        var g := d.groups[key];
        Ok((st, Grouped(d.order, d.groups[key := g.(quantity := g.quantity + 1)])))
  }

  /** The whole loop over `rows`, or the first error. */
  function GroupRows<S, R, K(==), E>(st: S, rows: seq<R>, keyOf: R -> Result<K>, onFirst: (S, R) -> Result<(S, E)>)
    : Result<(S, Grouped<K, R, E>)>
    decreases |rows|
  {
    if |rows| == 0 then Ok((st, Grouped([], map[])))
    else
      match GroupRows(st, rows[..|rows| - 1], keyOf, onFirst)
      case Err(e) => Err(e)
      case Ok((st1, d)) => Step(st1, d, rows[|rows| - 1], keyOf, onFirst)
  }

  /** Number of rows whose key is `key`. */
  function Count<R, K(==)>(rows: seq<R>, key: K, keyOf: R -> Result<K>): nat
    decreases |rows|
  {
    if |rows| == 0 then 0
    else Count(rows[..|rows| - 1], key, keyOf) + (if keyOf(rows[|rows| - 1]) == Ok(key) then 1 else 0)
  }

  /** The key order lists each group exactly once. */
  predicate OrderMatches<K(==), R, E>(d: Grouped<K, R, E>) {
    && (forall i :: 0 <= i < |d.order| ==> d.order[i] in d.groups)
    && (forall k :: k in d.groups ==> k in d.order)
    && (forall i, j :: 0 <= i < j < |d.order| ==> d.order[i] != d.order[j])
  }

  /** The sum of the quantities of the groups listed in `order`. */
  function SumQuantities<K(==), R, E>(order: seq<K>, groups: map<K, Group<R, E>>): nat
    requires forall i :: 0 <= i < |order| ==> order[i] in groups
    decreases |order|
  {
    if |order| == 0 then 0
    else SumQuantities(order[..|order| - 1], groups) + groups[order[|order| - 1]].quantity
  }

  /** The first-occurrence action run over `rows` in turn, threading its
      state; the records it produced, in order. */
  function RunFirsts<S, R, E>(st: S, rows: seq<R>, onFirst: (S, R) -> Result<(S, E)>): Result<(S, seq<E>)>
    decreases |rows|
  {
    if |rows| == 0 then Ok((st, []))
    else
      match RunFirsts(st, rows[..|rows| - 1], onFirst)
      case Err(e) => Err(e)
      case Ok((st1, recs)) =>
        match onFirst(st1, rows[|rows| - 1])
        case Err(e) => Err(e)
        case Ok((st2, rec)) => Ok((st2, recs + [rec]))
  }

  /** The stored rows of the groups, in key order. */
  function RowsInOrder<K(==), R, E>(order: seq<K>, groups: map<K, Group<R, E>>): (rows: seq<R>)
    requires forall i :: 0 <= i < |order| ==> order[i] in groups
    ensures |rows| == |order| && forall j :: 0 <= j < |order| ==> rows[j] == groups[order[j]].row
  {
    seq(|order|, j requires 0 <= j < |order| => groups[order[j]].row)
  }

  /** The records of the groups, in key order. */
  function RecordsInOrder<K(==), R, E>(order: seq<K>, groups: map<K, Group<R, E>>): (recs: seq<E>)
    requires forall i :: 0 <= i < |order| ==> order[i] in groups
    ensures |recs| == |order| && forall j :: 0 <= j < |order| ==> recs[j] == groups[order[j]].record
  {
    seq(|order|, j requires 0 <= j < |order| => groups[order[j]].record)
  }

  // ---------------------------------------------------------------- one step

  /** A step keeps the row's key, and appends it to the order when it is new. */
  lemma StepKeys<S, R, K, E>(st: S, d: Grouped<K, R, E>, row: R, keyOf: R -> Result<K>, onFirst: (S, R) -> Result<(S, E)>)
    requires Step(st, d, row, keyOf, onFirst).Ok?
    ensures keyOf(row).Ok?
    ensures Step(st, d, row, keyOf, onFirst).value.1.groups.Keys == d.groups.Keys + {keyOf(row).value}
    ensures Step(st, d, row, keyOf, onFirst).value.1.order ==
              if keyOf(row).value in d.groups then d.order else d.order + [keyOf(row).value]
  {
  }

  /** A new group holds the row with quantity 1, a known group gains one,
      every other group is untouched; the action runs only for a new key. */
  lemma StepGroups<S, R, K, E>(st: S, d: Grouped<K, R, E>, row: R, keyOf: R -> Result<K>, onFirst: (S, R) -> Result<(S, E)>)
    requires Step(st, d, row, keyOf, onFirst).Ok?
    ensures keyOf(row).Ok?
    ensures forall k :: k in d.groups && k != keyOf(row).value ==> Step(st, d, row, keyOf, onFirst).value.1.groups[k] == d.groups[k]
    ensures var key := keyOf(row).value;
            var (st', d') := Step(st, d, row, keyOf, onFirst).value;
            if key in d.groups then
              st' == st && d'.groups[key] == d.groups[key].(quantity := d.groups[key].quantity + 1)
            else
              onFirst(st, row) == Ok((st', d'.groups[key].record)) && d'.groups[key].row == row && d'.groups[key].quantity == 1
  {
  }

  /** The row a step leaves stored for a key: unchanged when the key was
      grouped already, the new row when the step opened its group. */
  lemma StepRow<S, R, K, E>(st: S, d: Grouped<K, R, E>, row: R, keyOf: R -> Result<K>, onFirst: (S, R) -> Result<(S, E)>, k: K)
    requires Step(st, d, row, keyOf, onFirst).Ok?
    requires k in d.groups || (keyOf(row).Ok? && k == keyOf(row).value)
    ensures keyOf(row).Ok?
    ensures var d' := Step(st, d, row, keyOf, onFirst).value.1;
            k in d'.groups && d'.groups[k].row == if k in d.groups then d.groups[k].row else row
  {
    StepKeys(st, d, row, keyOf, onFirst);
    StepGroups(st, d, row, keyOf, onFirst);
  }

  // ---------------------------------------------------------------- the loop

  /** Once a prefix fails, the loop fails with that error. */
  lemma {:induction false} GroupErrSticky<S, R, K, E>(st: S, rows: seq<R>, k: nat, keyOf: R -> Result<K>, onFirst: (S, R) -> Result<(S, E)>)
    requires k <= |rows|
    requires GroupRows(st, rows[..k], keyOf, onFirst).Err?
    ensures GroupRows(st, rows, keyOf, onFirst) == GroupRows(st, rows[..k], keyOf, onFirst)
    decreases |rows| - k
  {
    if k < |rows| {
      assert rows[..k + 1][..k] == rows[..k];
      GroupErrSticky(st, rows, k + 1, keyOf, onFirst);
    } else {
      assert rows[..k] == rows;
    }
  }

  /** The groups are exactly the distinct keys, each listed once in order. */
  lemma {:induction false} GroupKeys<S, R, K, E>(st: S, rows: seq<R>, keyOf: R -> Result<K>, onFirst: (S, R) -> Result<(S, E)>)
    requires GroupRows(st, rows, keyOf, onFirst).Ok?
    ensures forall i :: 0 <= i < |rows| ==> keyOf(rows[i]).Ok?
    ensures var d := GroupRows(st, rows, keyOf, onFirst).value.1;
            && OrderMatches(d)
            && d.groups.Keys == set i | 0 <= i < |rows| :: keyOf(rows[i]).value
    decreases |rows|
  {
    if |rows| > 0 {
      var n := |rows| - 1;
      var init := rows[..n];
      GroupKeys(st, init, keyOf, onFirst);
      var (st1, d1) := GroupRows(st, init, keyOf, onFirst).value;
      StepKeys(st1, d1, rows[n], keyOf, onFirst);
      var d := GroupRows(st, rows, keyOf, onFirst).value.1;
      assert forall i :: 0 <= i < n ==> init[i] == rows[i];
      assert (set i | 0 <= i < |rows| :: keyOf(rows[i]).value) ==
             (set i | 0 <= i < n :: keyOf(init[i]).value) + {keyOf(rows[n]).value};
      var key := keyOf(rows[n]).value;
      if key !in d1.groups {
        assert forall i :: 0 <= i < |d1.order| ==> d.order[i] == d1.order[i];
        assert d.order[|d1.order|] == key;
      }
    }
  }

  /** Each group's quantity is the number of rows with its key, and a key no
      row has has no group. */
  lemma {:induction false} GroupCounts<S, R, K, E>(st: S, rows: seq<R>, keyOf: R -> Result<K>, onFirst: (S, R) -> Result<(S, E)>)
    requires GroupRows(st, rows, keyOf, onFirst).Ok?
    ensures var d := GroupRows(st, rows, keyOf, onFirst).value.1;
            forall k :: k in d.groups ==> d.groups[k].quantity == Count(rows, k, keyOf)
    ensures var d := GroupRows(st, rows, keyOf, onFirst).value.1;
            forall k :: k !in d.groups ==> Count(rows, k, keyOf) == 0
    decreases |rows|
  {
    if |rows| > 0 {
      var n := |rows| - 1;
      GroupCounts(st, rows[..n], keyOf, onFirst);
      var (st1, d1) := GroupRows(st, rows[..n], keyOf, onFirst).value;
      StepKeys(st1, d1, rows[n], keyOf, onFirst);
      StepGroups(st1, d1, rows[n], keyOf, onFirst);
      var d := GroupRows(st, rows, keyOf, onFirst).value.1;
      var key := keyOf(rows[n]).value;
      forall k | k in d.groups ensures d.groups[k].quantity == Count(rows, k, keyOf) {
        assert Count(rows, k, keyOf) == Count(rows[..n], k, keyOf) + (if k == key then 1 else 0);
      }
      forall k | k !in d.groups ensures Count(rows, k, keyOf) == 0 {
        assert Count(rows, k, keyOf) == Count(rows[..n], k, keyOf) + (if k == key then 1 else 0);
      }
    }
  }

  /** Changing a group the order does not list leaves the sum alone. */
  lemma {:induction false} SumFrame<K, R, E>(order: seq<K>, groups: map<K, Group<R, E>>, k: K, g: Group<R, E>)
    requires forall i :: 0 <= i < |order| ==> order[i] in groups
    requires k !in order
    ensures SumQuantities(order, groups[k := g]) == SumQuantities(order, groups)
    decreases |order|
  {
    if |order| > 0 {
      SumFrame(order[..|order| - 1], groups, k, g);
    }
  }

  /** Adding one to a listed group adds one to the sum. */
  lemma {:induction false} SumIncrement<K, R, E>(order: seq<K>, groups: map<K, Group<R, E>>, k: K)
    requires forall i :: 0 <= i < |order| ==> order[i] in groups
    requires forall i, j :: 0 <= i < j < |order| ==> order[i] != order[j]
    requires k in order
    ensures var g := groups[k];
            SumQuantities(order, groups[k := g.(quantity := g.quantity + 1)]) == SumQuantities(order, groups) + 1
    decreases |order|
  {
    var g := groups[k];
    var n := |order| - 1;
    var init := order[..n];
    if order[n] == k {
      assert k !in init by {
        forall i | 0 <= i < n ensures init[i] != k { assert init[i] == order[i]; }
      }
      SumFrame(init, groups, k, g.(quantity := g.quantity + 1));
    } else {
      assert k in init by {
        var i :| 0 <= i < |order| && order[i] == k;
        assert i < n && init[i] == k;
      }
      SumIncrement(init, groups, k);
    }
  }

  /** Listing a new group at the end adds its quantity to the sum. */
  lemma SumAppend<K, R, E>(order: seq<K>, groups: map<K, Group<R, E>>, k: K, g: Group<R, E>)
    requires forall i :: 0 <= i < |order| ==> order[i] in groups
    requires k !in order
    ensures SumQuantities(order + [k], groups[k := g]) == SumQuantities(order, groups) + g.quantity
  {
    SumFrame(order, groups, k, g);
    assert (order + [k])[..|order|] == order;
  }

  /** A step keeps every group listed exactly once. */
  lemma StepOrder<S, R, K, E>(st: S, d: Grouped<K, R, E>, row: R, keyOf: R -> Result<K>, onFirst: (S, R) -> Result<(S, E)>)
    requires OrderMatches(d)
    requires Step(st, d, row, keyOf, onFirst).Ok?
    ensures OrderMatches(Step(st, d, row, keyOf, onFirst).value.1)
  {
    StepKeys(st, d, row, keyOf, onFirst);
    var key := keyOf(row).value;
    if key !in d.groups {
      assert key !in d.order;
    }
  }

  /** A step adds one to the sum of the quantities. */
  lemma StepTotal<S, R, K, E>(st: S, d: Grouped<K, R, E>, row: R, keyOf: R -> Result<K>, onFirst: (S, R) -> Result<(S, E)>)
    requires OrderMatches(d)
    requires Step(st, d, row, keyOf, onFirst).Ok?
    ensures var d' := Step(st, d, row, keyOf, onFirst).value.1;
            OrderMatches(d') && SumQuantities(d'.order, d'.groups) == SumQuantities(d.order, d.groups) + 1
  {
    StepOrder(st, d, row, keyOf, onFirst);
    StepKeys(st, d, row, keyOf, onFirst);
    StepGroups(st, d, row, keyOf, onFirst);
    var d' := Step(st, d, row, keyOf, onFirst).value.1;
    var key := keyOf(row).value;
    if key !in d.groups {
      assert key !in d.order;
      SumAppend(d.order, d.groups, key, d'.groups[key]);
    } else {
      assert d'.groups == d.groups[key := d.groups[key].(quantity := d.groups[key].quantity + 1)];
      SumIncrement(d.order, d.groups, key);
    }
  }

  /** The quantities add up to the number of rows. */
  lemma {:induction false} GroupTotal<S, R, K, E>(st: S, rows: seq<R>, keyOf: R -> Result<K>, onFirst: (S, R) -> Result<(S, E)>)
    requires GroupRows(st, rows, keyOf, onFirst).Ok?
    ensures var d := GroupRows(st, rows, keyOf, onFirst).value.1;
            OrderMatches(d) && SumQuantities(d.order, d.groups) == |rows|
    decreases |rows|
  {
    if |rows| > 0 {
      var n := |rows| - 1;
      GroupTotal(st, rows[..n], keyOf, onFirst);
      var (st1, d1) := GroupRows(st, rows[..n], keyOf, onFirst).value;
      StepTotal(st1, d1, rows[n], keyOf, onFirst);
    }
  }

  /** The row stored for a group is its first occurrence. */
  lemma {:induction false} GroupFirst<S, R, K, E>(st: S, rows: seq<R>, keyOf: R -> Result<K>, onFirst: (S, R) -> Result<(S, E)>, i: nat)
    requires GroupRows(st, rows, keyOf, onFirst).Ok?
    requires i < |rows|
    requires forall j :: 0 <= j < i ==> keyOf(rows[j]) != keyOf(rows[i])
    ensures keyOf(rows[i]).Ok?
    ensures var d := GroupRows(st, rows, keyOf, onFirst).value.1;
            keyOf(rows[i]).value in d.groups && d.groups[keyOf(rows[i]).value].row == rows[i]
    decreases |rows|
  {
    var n := |rows| - 1;
    var init := rows[..n];
    var (st1, d1) := GroupRows(st, init, keyOf, onFirst).value;
    if i < n {
      GroupFirst(st, init, keyOf, onFirst, i);
      assert init[i] == rows[i];
      StepRow(st1, d1, rows[n], keyOf, onFirst, keyOf(rows[i]).value);
    } else {
      StepRow(st1, d1, rows[n], keyOf, onFirst, keyOf(rows[n]).value);
      var k := keyOf(rows[i]).value;
      assert k !in d1.groups by {
        GroupKeys(st, init, keyOf, onFirst);
        forall j | 0 <= j < n ensures keyOf(init[j]).value != k {
          assert init[j] == rows[j];
        }
      }
    }
  }

  /** Running the action over one more row. */
  lemma RunFirstsSnoc<S, R, E>(st: S, rows: seq<R>, row: R, onFirst: (S, R) -> Result<(S, E)>)
    requires RunFirsts(st, rows, onFirst).Ok?
    ensures RunFirsts(st, rows + [row], onFirst) ==
              match onFirst(RunFirsts(st, rows, onFirst).value.0, row)
              case Err(e) => Err(e)
              case Ok((st2, rec)) => Ok((st2, RunFirsts(st, rows, onFirst).value.1 + [rec]))
  {
    assert (rows + [row])[..|rows|] == rows;
  }

  /** Rows and records in key order depend only on the groups listed. */
  lemma InOrderFrame<K, R, E>(order: seq<K>, groups: map<K, Group<R, E>>, groups': map<K, Group<R, E>>)
    requires forall i :: 0 <= i < |order| ==> order[i] in groups && order[i] in groups'
    requires forall i :: 0 <= i < |order| ==> groups'[order[i]].row == groups[order[i]].row && groups'[order[i]].record == groups[order[i]].record
    ensures RowsInOrder(order, groups') == RowsInOrder(order, groups)
    ensures RecordsInOrder(order, groups') == RecordsInOrder(order, groups)
  {
  }

  /** Listing one more key appends its group's row and record. */
  lemma InOrderSnoc<K, R, E>(order: seq<K>, key: K, groups: map<K, Group<R, E>>)
    requires forall i :: 0 <= i < |order| ==> order[i] in groups
    requires key in groups
    ensures RowsInOrder(order + [key], groups) == RowsInOrder(order, groups) + [groups[key].row]
    ensures RecordsInOrder(order + [key], groups) == RecordsInOrder(order, groups) + [groups[key].record]
  {
  }

  /** The last row of a successful run: the run of the rows before it
      succeeded, and the action on it extends that run by one record. */
  lemma RunFirstsLast<S, R, E>(st: S, rows: seq<R>, onFirst: (S, R) -> Result<(S, E)>)
    requires |rows| > 0
    requires RunFirsts(st, rows, onFirst).Ok?
    ensures RunFirsts(st, rows[..|rows| - 1], onFirst).Ok?
    ensures var (st1, recs1) := RunFirsts(st, rows[..|rows| - 1], onFirst).value;
            && onFirst(st1, rows[|rows| - 1]).Ok?
            && RunFirsts(st, rows, onFirst).value.0 == onFirst(st1, rows[|rows| - 1]).value.0
            && RunFirsts(st, rows, onFirst).value.1 == recs1 + [onFirst(st1, rows[|rows| - 1]).value.1]
  {
  }

  /** When every record the action makes satisfies `holds` with its row,
      so does every record of a run. */
  lemma {:induction false} RunFirstsEach<S, R, E>(st: S, rows: seq<R>, onFirst: (S, R) -> Result<(S, E)>, holds: (R, E) -> bool)
    requires forall s, r :: onFirst(s, r).Ok? ==> holds(r, onFirst(s, r).value.1)
    requires RunFirsts(st, rows, onFirst).Ok?
    ensures var recs := RunFirsts(st, rows, onFirst).value.1;
            |recs| == |rows| && forall j :: 0 <= j < |rows| ==> holds(rows[j], recs[j])
    decreases |rows|
  {
    if |rows| > 0 {
      var n := |rows| - 1;
      RunFirstsLast(st, rows, onFirst);
      RunFirstsEach(st, rows[..n], onFirst, holds);
      var (st1, recs1) := RunFirsts(st, rows[..n], onFirst).value;
      var rec := onFirst(st1, rows[n]).value.1;
      var recs := recs1 + [rec];
      forall j | 0 <= j < |rows|
        ensures holds(rows[j], recs[j])
      {
        if j < n {
          assert rows[..n][j] == rows[j];
          assert recs1[j] == recs[j];
        }
      }
    }
  }

  /** A step extends the stored rows and records in key order by the new
      group's, or leaves them alone for a known key. */
  lemma StepInOrder<S, R, K, E>(st: S, d: Grouped<K, R, E>, row: R, keyOf: R -> Result<K>, onFirst: (S, R) -> Result<(S, E)>)
    requires OrderMatches(d)
    requires Step(st, d, row, keyOf, onFirst).Ok?
    ensures keyOf(row).Ok?
    ensures var (st', d') := Step(st, d, row, keyOf, onFirst).value;
            && (forall i :: 0 <= i < |d'.order| ==> d'.order[i] in d'.groups)
            && if keyOf(row).value in d.groups then
                 && st' == st
                 && RowsInOrder(d'.order, d'.groups) == RowsInOrder(d.order, d.groups)
                 && RecordsInOrder(d'.order, d'.groups) == RecordsInOrder(d.order, d.groups)
               else
                 && onFirst(st, row) == Ok((st', d'.groups[keyOf(row).value].record))
                 && RowsInOrder(d'.order, d'.groups) == RowsInOrder(d.order, d.groups) + [row]
                 && RecordsInOrder(d'.order, d'.groups) == RecordsInOrder(d.order, d.groups) + [d'.groups[keyOf(row).value].record]
  {
    StepKeys(st, d, row, keyOf, onFirst);
    StepGroups(st, d, row, keyOf, onFirst);
    var d' := Step(st, d, row, keyOf, onFirst).value.1;
    var key := keyOf(row).value;
    if key in d.groups {
      InOrderFrame(d.order, d.groups, d'.groups);
    } else {
      assert forall i :: 0 <= i < |d.order| ==> d.order[i] != key;
      InOrderFrame(d.order, d.groups, d'.groups);
      InOrderSnoc(d.order, key, d'.groups);
    }
  }

  /** The first-occurrence action runs exactly once per group, on the group's
      stored row, in the order the groups were first seen, and nowhere else:
      the loop's final state and the groups' records are those of running the
      action over the stored rows in key order. */
  lemma {:induction false} GroupRunsFirsts<S, R, K, E>(st: S, rows: seq<R>, keyOf: R -> Result<K>, onFirst: (S, R) -> Result<(S, E)>)
    requires GroupRows(st, rows, keyOf, onFirst).Ok?
    ensures var (st', d) := GroupRows(st, rows, keyOf, onFirst).value;
            && OrderMatches(d)
            && RunFirsts(st, RowsInOrder(d.order, d.groups), onFirst) == Ok((st', RecordsInOrder(d.order, d.groups)))
    decreases |rows|
  {
    if |rows| > 0 {
      var n := |rows| - 1;
      GroupRunsFirsts(st, rows[..n], keyOf, onFirst);
      var (st1, d1) := GroupRows(st, rows[..n], keyOf, onFirst).value;
      StepTotal(st1, d1, rows[n], keyOf, onFirst);
      StepInOrder(st1, d1, rows[n], keyOf, onFirst);
      RunFirstsSnoc(st, RowsInOrder(d1.order, d1.groups), rows[n], onFirst);
    }
  }

  /** When the action's success depends only on the row, and rows with the
      same key agree on it, the loop succeeds exactly when every row has a key
      and passes the action's test. */
  lemma {:induction false} GroupOk<S, R, K, E>(st: S, rows: seq<R>, keyOf: R -> Result<K>, onFirst: (S, R) -> Result<(S, E)>, accepts: R -> bool)
    requires forall s, r :: onFirst(s, r).Ok? == accepts(r)
    requires forall r1, r2 :: keyOf(r1).Ok? && keyOf(r1) == keyOf(r2) ==> accepts(r1) == accepts(r2)
    ensures GroupRows(st, rows, keyOf, onFirst).Ok? <==>
              forall i :: 0 <= i < |rows| ==> keyOf(rows[i]).Ok? && accepts(rows[i])
    decreases |rows|
  {
    if |rows| > 0 {
      var n := |rows| - 1;
      var init := rows[..n];
      GroupOk(st, init, keyOf, onFirst, accepts);
      assert forall i :: 0 <= i < n ==> init[i] == rows[i];
      var row := rows[n];
      if GroupRows(st, init, keyOf, onFirst).Ok? {
        var (st1, d1) := GroupRows(st, init, keyOf, onFirst).value;
        if keyOf(row).Ok? && keyOf(row).value in d1.groups {
          GroupKeys(st, init, keyOf, onFirst);
          var j :| 0 <= j < n && keyOf(init[j]).value == keyOf(row).value;
          assert keyOf(init[j]) == keyOf(row);
        }
      }
    }
  }

  /** Under the same conditions, a loop that fails stops at its first row
      that has no key or is not accepted, with that row's error: the key's
      error, or else the error of the action run on it in the state the
      loop has reached after the rows before it. */
  lemma {:induction false} GroupFirstError<S, R, K, E>(st: S, rows: seq<R>, keyOf: R -> Result<K>, onFirst: (S, R) -> Result<(S, E)>, accepts: R -> bool)
    returns (i: nat, st1: S)
    requires forall s, r :: onFirst(s, r).Ok? == accepts(r)
    requires forall r1, r2 :: keyOf(r1).Ok? && keyOf(r1) == keyOf(r2) ==> accepts(r1) == accepts(r2)
    requires GroupRows(st, rows, keyOf, onFirst).Err?
    ensures i < |rows|
    ensures forall j :: 0 <= j < i ==> keyOf(rows[j]).Ok? && accepts(rows[j])
    ensures !(keyOf(rows[i]).Ok? && accepts(rows[i]))
    ensures GroupRows(st, rows[..i], keyOf, onFirst).Ok? && GroupRows(st, rows[..i], keyOf, onFirst).value.0 == st1
    ensures GroupRows(st, rows, keyOf, onFirst).error ==
              if keyOf(rows[i]).Err? then keyOf(rows[i]).error else onFirst(st1, rows[i]).error
    decreases |rows|
  {
    var n := |rows| - 1;
    var init := rows[..n];
    assert forall j :: 0 <= j < n ==> init[j] == rows[j];
    if GroupRows(st, init, keyOf, onFirst).Err? {
      i, st1 := GroupFirstError(st, init, keyOf, onFirst, accepts);
      assert init[..i] == rows[..i];
    } else {
      GroupOk(st, init, keyOf, onFirst, accepts);
      var (s1, d1) := GroupRows(st, init, keyOf, onFirst).value;
      i, st1 := n, s1;
    }
  }

  /** Three rows with one key followed by one row with another make two
      groups, in that order, of quantity 3 and 1. */
  lemma ThreeAndOne<S, R, K, E>(st: S, a1: R, a2: R, a3: R, b: R, keyOf: R -> Result<K>, onFirst: (S, R) -> Result<(S, E)>)
    requires keyOf(a1).Ok? && keyOf(a2) == keyOf(a1) && keyOf(a3) == keyOf(a1)
    requires keyOf(b).Ok? && keyOf(b) != keyOf(a1)
    requires GroupRows(st, [a1, a2, a3, b], keyOf, onFirst).Ok?
    ensures var d := GroupRows(st, [a1, a2, a3, b], keyOf, onFirst).value.1;
            && d.order == [keyOf(a1).value, keyOf(b).value]
            && d.groups.Keys == {keyOf(a1).value, keyOf(b).value}
            && d.groups[keyOf(a1).value].row == a1
            && d.groups[keyOf(a1).value].quantity == 3
            && d.groups[keyOf(b).value].row == b
            && d.groups[keyOf(b).value].quantity == 1
  {
    var rows := [a1, a2, a3, b];
    assert rows[..3] == [a1, a2, a3] && [a1, a2, a3][..2] == [a1, a2] && [a1, a2][..1] == [a1] && [a1][..0] == [];
    var ka, kb := keyOf(a1).value, keyOf(b).value;
    assert rows[..1] == [a1] && rows[..2] == [a1, a2];
    forall k | 0 <= k <= 3 ensures GroupRows(st, rows[..k], keyOf, onFirst).Ok? {
      if GroupRows(st, rows[..k], keyOf, onFirst).Err? {
        GroupErrSticky(st, rows, k, keyOf, onFirst);
      }
    }
    var d0: Grouped<K, R, E> := Grouped([], map[]);
    assert GroupRows(st, [a1][..0], keyOf, onFirst) == Ok((st, d0));
    assert GroupRows(st, [a1], keyOf, onFirst) == Step(st, d0, a1, keyOf, onFirst);
    var (st1, d1) := GroupRows(st, [a1], keyOf, onFirst).value;
    assert d1.order == [ka] && d1.groups.Keys == {ka} && d1.groups[ka].quantity == 1 && d1.groups[ka].row == a1;
    assert GroupRows(st, [a1, a2], keyOf, onFirst) == Step(st1, d1, a2, keyOf, onFirst);
    var d2 := GroupRows(st, [a1, a2], keyOf, onFirst).value.1;
    assert d2.order == [ka] && d2.groups.Keys == {ka} && d2.groups[ka].quantity == 2 && d2.groups[ka].row == a1;
    assert GroupRows(st, [a1, a2, a3], keyOf, onFirst) == Step(st1, d2, a3, keyOf, onFirst);
    var d3 := GroupRows(st, [a1, a2, a3], keyOf, onFirst).value.1;
    assert d3.order == [ka] && d3.groups.Keys == {ka} && d3.groups[ka].quantity == 3 && d3.groups[ka].row == a1;
  }
}
