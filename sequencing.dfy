/**
  Sequence numbers (`changeid`) for the change rows of one transaction spread
  over several tables that reference each other. The tables are given
  parents first; a shared counter hands out the numbers, so that replaying the
  rows by increasing `changeid` never leaves a child row pointing at a missing
  parent.
 */
module Sequencing {
  import opened Relational
  import opened TableDiff

  /** A row that a numbering pass for `txid` and `op` stamps: one of that transaction and operation not numbered yet. */
  predicate InPass(r: ChangeRow, txid: int, op: Operation) {
    r.txid == txid && r.operation == op && r.changeid.None?
  }

  /** A row of the transaction still waiting for its number. */
  predicate Unnumbered(r: ChangeRow, txid: int) {
    r.txid == txid && r.changeid.None?
  }

  /**
    `assignSequenceNumbers` for one table and one operation: the rows of the
    transaction with that operation and no number yet get the next numbers of
    the counter, in log order; every other row, a numbered one included, is
    left alone. Returns the new log and the
    counter after the pass.
   */
  function NumberRows(log: ChangeLog, txid: int, op: Operation, next: int): (r: (ChangeLog, int))
    ensures |r.0| == |log| && next <= r.1
    decreases |log|
  {
    if log == [] then ([], next)
    else if InPass(log[0], txid, op) then
      var rest := NumberRows(log[1..], txid, op, next + 1);
      ([log[0].(changeid := Some(next))] + rest.0, rest.1)
    else
      var rest := NumberRows(log[1..], txid, op, next);
      ([log[0]] + rest.0, rest.1)
  }

  /** One pass stamps exactly its rows, each with a number from `[next, r.1)`, and leaves every other row as it was. */
  lemma {:induction false} NumberRowsStamps(log: ChangeLog, txid: int, op: Operation, next: int)
    ensures var r := NumberRows(log, txid, op, next);
      && (forall i :: 0 <= i < |log| && !InPass(log[i], txid, op) ==> r.0[i] == log[i])
      && (forall i :: 0 <= i < |log| && InPass(log[i], txid, op) ==>
            && r.0[i].changeid.Some? && r.0[i] == log[i].(changeid := r.0[i].changeid)
            && next <= r.0[i].changeid.value < r.1)
    decreases |log|
  {
    if log != [] {
      var tail := log[1..];
      var next' := if InPass(log[0], txid, op) then next + 1 else next;
      NumberRowsStamps(tail, txid, op, next');
      var r := NumberRows(log, txid, op, next);
      var rest := NumberRows(tail, txid, op, next');
      assert forall i :: 1 <= i < |log| ==> r.0[i] == rest.0[i - 1] && log[i] == tail[i - 1];
    }
  }

  /** The numbers of one pass increase in log order. */
  lemma {:induction false} NumberRowsIncreasing(log: ChangeLog, txid: int, op: Operation, next: int)
    ensures var r := NumberRows(log, txid, op, next);
      forall i, j :: 0 <= i < j < |log| && InPass(log[i], txid, op) && InPass(log[j], txid, op) ==>
        r.0[i].changeid.Some? && r.0[j].changeid.Some? && r.0[i].changeid.value < r.0[j].changeid.value
    decreases |log|
  {
    if log != [] {
      var tail := log[1..];
      var next' := if InPass(log[0], txid, op) then next + 1 else next;
      NumberRowsIncreasing(tail, txid, op, next');
      NumberRowsStamps(tail, txid, op, next');
      var r := NumberRows(log, txid, op, next);
      var rest := NumberRows(tail, txid, op, next');
      assert forall i :: 1 <= i < |log| ==> r.0[i] == rest.0[i - 1] && log[i] == tail[i - 1];
    }
  }

  /**
    The position of the numbering pass for table `t` (of `n`) and `op`: the
    delete passes come first, children before parents, then each table's
    insert pass and update pass, parents before children.
   */
  function PassIndex(n: nat, t: nat, op: Operation): int {
    match op
    case Delete => n - 1 - t
    case Insert => n + 2 * t
    case Update => n + 2 * t + 1
  }

  /**
    After the first `p` passes: the rows of those passes carry numbers from
    `[lo, hi)` and nothing else about them changed; every other row is as it
    was.
   */
  ghost predicate StampedBelow(logs: seq<ChangeLog>, cur: seq<ChangeLog>, txid: int, lo: int, hi: int, p: int) {
    && |cur| == |logs|
    && (forall t :: 0 <= t < |logs| ==> |cur[t]| == |logs[t]|)
    && (forall t, i :: 0 <= t < |logs| && 0 <= i < |logs[t]| ==>
          if Unnumbered(logs[t][i], txid) && PassIndex(|logs|, t, logs[t][i].operation) < p
          then cur[t][i].changeid.Some? && cur[t][i] == logs[t][i].(changeid := cur[t][i].changeid)
               && lo <= cur[t][i].changeid.value < hi
          else cur[t][i] == logs[t][i])
  }

  /** Among the rows the first `p` passes numbered, an earlier pass, or an earlier row of the same pass, has the smaller number. */
  ghost predicate OrderedBelow(logs: seq<ChangeLog>, cur: seq<ChangeLog>, txid: int, p: int)
    requires |cur| == |logs| && forall t :: 0 <= t < |logs| ==> |cur[t]| == |logs[t]|
  {
    forall t1, i1, t2, i2 ::
      && 0 <= t1 < |logs| && 0 <= i1 < |logs[t1]| && 0 <= t2 < |logs| && 0 <= i2 < |logs[t2]|
      && Unnumbered(logs[t1][i1], txid) && Unnumbered(logs[t2][i2], txid)
      && cur[t1][i1].txid == txid && cur[t2][i2].txid == txid
      && cur[t1][i1].changeid.Some? && cur[t2][i2].changeid.Some?
      && PassIndex(|logs|, t1, cur[t1][i1].operation) < p && PassIndex(|logs|, t2, cur[t2][i2].operation) < p
      && (|| PassIndex(|logs|, t1, cur[t1][i1].operation) < PassIndex(|logs|, t2, cur[t2][i2].operation)
          || (t1 == t2 && cur[t1][i1].operation == cur[t2][i2].operation && i1 < i2))
      ==> cur[t1][i1].changeid.value < cur[t2][i2].changeid.value
  }

  ghost predicate Sequenced(logs: seq<ChangeLog>, cur: seq<ChangeLog>, txid: int, lo: int, hi: int, p: int) {
    StampedBelow(logs, cur, txid, lo, hi, p) && OrderedBelow(logs, cur, txid, p)
  }

  /** One more pass keeps the numbering sequenced: its numbers are above every number handed out before. */
  lemma PassStep(logs: seq<ChangeLog>, cur: seq<ChangeLog>, txid: int, lo: int, next: int, p: int, t: nat, op: Operation)
    requires Sequenced(logs, cur, txid, lo, next, p) && lo <= next
    requires t < |logs| && PassIndex(|logs|, t, op) == p
    ensures Sequenced(logs, cur[t := NumberRows(cur[t], txid, op, next).0], txid, lo, NumberRows(cur[t], txid, op, next).1, p + 1)
  {
    StampedStep(logs, cur, txid, lo, next, p, t, op);
    OrderedStep(logs, cur, txid, lo, next, p, t, op);
  }

  lemma StampedStep(logs: seq<ChangeLog>, cur: seq<ChangeLog>, txid: int, lo: int, next: int, p: int, t: nat, op: Operation)
    requires StampedBelow(logs, cur, txid, lo, next, p) && lo <= next
    requires t < |logs| && PassIndex(|logs|, t, op) == p
    ensures StampedBelow(logs, cur[t := NumberRows(cur[t], txid, op, next).0], txid, lo, NumberRows(cur[t], txid, op, next).1, p + 1)
  {
    var n := |logs|;
    var numbered := NumberRows(cur[t], txid, op, next);
    var stamped, after := numbered.0, numbered.1;
    NumberRowsStamps(cur[t], txid, op, next);
    var cur': seq<ChangeLog> := cur[t := stamped];
    forall u, i | 0 <= u < n && 0 <= i < |logs[u]|
      ensures if Unnumbered(logs[u][i], txid) && PassIndex(n, u, logs[u][i].operation) < p + 1
              then cur'[u][i].changeid.Some? && cur'[u][i] == logs[u][i].(changeid := cur'[u][i].changeid)
                   && lo <= cur'[u][i].changeid.value < after
              else cur'[u][i] == logs[u][i]
    {
      if u == t {
        if Unnumbered(logs[u][i], txid) && logs[u][i].operation == op {
          assert cur[u][i] == logs[u][i];
        }
      }
    }
  }

  lemma OrderedStep(logs: seq<ChangeLog>, cur: seq<ChangeLog>, txid: int, lo: int, next: int, p: int, t: nat, op: Operation)
    requires Sequenced(logs, cur, txid, lo, next, p) && lo <= next
    requires t < |logs| && PassIndex(|logs|, t, op) == p
    ensures var cur' := cur[t := NumberRows(cur[t], txid, op, next).0];
      && |cur'| == |logs| && (forall u :: 0 <= u < |logs| ==> |cur'[u]| == |logs[u]|)
      && OrderedBelow(logs, cur', txid, p + 1)
  {
    var n := |logs|;
    var numbered := NumberRows(cur[t], txid, op, next);
    var stamped := numbered.0;
    NumberRowsStamps(cur[t], txid, op, next);
    NumberRowsIncreasing(cur[t], txid, op, next);
    var cur': seq<ChangeLog> := cur[t := stamped];
    forall t1, i1, t2, i2 |
      && 0 <= t1 < n && 0 <= i1 < |logs[t1]| && 0 <= t2 < n && 0 <= i2 < |logs[t2]|
      && Unnumbered(logs[t1][i1], txid) && Unnumbered(logs[t2][i2], txid)
      && cur'[t1][i1].txid == txid && cur'[t2][i2].txid == txid
      && cur'[t1][i1].changeid.Some? && cur'[t2][i2].changeid.Some?
      && PassIndex(n, t1, cur'[t1][i1].operation) < p + 1 && PassIndex(n, t2, cur'[t2][i2].operation) < p + 1
      && (|| PassIndex(n, t1, cur'[t1][i1].operation) < PassIndex(n, t2, cur'[t2][i2].operation)
          || (t1 == t2 && cur'[t1][i1].operation == cur'[t2][i2].operation && i1 < i2))
      ensures cur'[t1][i1].changeid.value < cur'[t2][i2].changeid.value
    {
      var new1 := PassIndex(n, t1, cur'[t1][i1].operation) == p;
      var new2 := PassIndex(n, t2, cur'[t2][i2].operation) == p;
      if new1 {
        assert t1 == t && cur'[t1][i1].operation == op;
      }
      if new2 {
        assert t2 == t && cur'[t2][i2].operation == op;
      }
      if !new1 && t1 == t {
        assert cur'[t1][i1] == cur[t1][i1];
      }
      if !new2 && t2 == t {
        assert cur'[t2][i2] == cur[t2][i2];
      }
    }
  }

  /**
    `result` is `logs` with a number from `[lo, hi)` stamped on every row of
    transaction `txid` that had none; nothing else differs, and a number
    already given is kept.
   */
  ghost predicate Restamped(logs: seq<ChangeLog>, result: seq<ChangeLog>, txid: int, lo: int, hi: int) {
    && SameShape(logs, result)
    && (forall t, i :: 0 <= t < |logs| && 0 <= i < |logs[t]| && !Unnumbered(logs[t][i], txid) ==>
          result[t][i] == logs[t][i])
    && (forall t, i :: 0 <= t < |logs| && 0 <= i < |logs[t]| && Unnumbered(logs[t][i], txid) ==>
          && result[t][i].changeid.Some? && result[t][i] == logs[t][i].(changeid := result[t][i].changeid)
          && lo <= result[t][i].changeid.value < hi)
  }

  ghost predicate SameShape(logs: seq<ChangeLog>, result: seq<ChangeLog>) {
    |result| == |logs| && forall t :: 0 <= t < |logs| ==> |result[t]| == |logs[t]|
  }

  /** Of two rows of the transaction numbered here, the one that must be replayed first has the smaller number. */
  ghost predicate StampsRespectDependencies(logs: seq<ChangeLog>, result: seq<ChangeLog>, txid: int) {
    SameShape(logs, result) &&
    forall t1, i1, t2, i2 ::
      && 0 <= t1 < |logs| && 0 <= i1 < |logs[t1]| && 0 <= t2 < |logs| && 0 <= i2 < |logs[t2]|
      && Unnumbered(logs[t1][i1], txid) && Unnumbered(logs[t2][i2], txid)
      && result[t1][i1].changeid.Some? && result[t2][i2].changeid.Some?
      && Precedes(t1, i1, logs[t1][i1].operation, t2, i2, logs[t2][i2].operation)
      ==> result[t1][i1].changeid.value < result[t2][i2].changeid.value
  }

  /** No two rows numbered here share a number. */
  ghost predicate StampsDistinct(logs: seq<ChangeLog>, result: seq<ChangeLog>, txid: int) {
    SameShape(logs, result) &&
    forall t1, i1, t2, i2 ::
      && 0 <= t1 < |logs| && 0 <= i1 < |logs[t1]| && 0 <= t2 < |logs| && 0 <= i2 < |logs[t2]|
      && Unnumbered(logs[t1][i1], txid) && Unnumbered(logs[t2][i2], txid) && (t1 != t2 || i1 != i2)
      ==> result[t1][i1].changeid != result[t2][i2].changeid
  }

  /**
    `assignSequenceNumbersToDependentTables`: the delete passes run over the
    tables in reverse order, then each table in the given order gets its
    insert pass and its update pass. Every row of the transaction without a
    number gets one from `[next0, next)`, no number is handed out twice, and
    the numbers respect the dependencies between the tables; rows of other
    transactions and rows already numbered are left alone.
   */
  method AssignSequenceNumbersToDependentTables(txid: int, logs: seq<ChangeLog>, next0: int)
    returns (result: seq<ChangeLog>, next: int)
    ensures next0 <= next
    ensures Restamped(logs, result, txid, next0, next)
    ensures StampsRespectDependencies(logs, result, txid)
    ensures StampsDistinct(logs, result, txid)
  {
    var n := |logs|;
    result, next := logs, next0;
    for k := 0 to n
      invariant Sequenced(logs, result, txid, next0, next, k) && next0 <= next
    {
      result, next := NumberPass(logs, result, txid, next0, next, k, n - 1 - k, Delete);
    }
    for t := 0 to n
      invariant Sequenced(logs, result, txid, next0, next, n + 2 * t) && next0 <= next
    {
      result, next := NumberPass(logs, result, txid, next0, next, n + 2 * t, t, Insert);
      result, next := NumberPass(logs, result, txid, next0, next, n + 2 * t + 1, t, Update);
    }
    SequencedComplete(logs, result, txid, next0, next);
  }

  /** Pass number `p`, for table `t` and `op`: one call of `assignSequenceNumbers` on the current logs. */
  method NumberPass(ghost logs: seq<ChangeLog>, cur: seq<ChangeLog>, txid: int, ghost lo: int, next: int, ghost p: int, t: nat, op: Operation)
    returns (result: seq<ChangeLog>, after: int)
    requires Sequenced(logs, cur, txid, lo, next, p) && lo <= next
    requires t < |logs| && PassIndex(|logs|, t, op) == p
    ensures Sequenced(logs, result, txid, lo, after, p + 1) && next <= after
  {
    PassStep(logs, cur, txid, lo, next, p, t, op);
    var numbered := NumberRows(cur[t], txid, op, next);
    result, after := cur[t := numbered.0], numbered.1;
  }

  /** After all `3 * |logs|` passes, every row of the transaction is numbered, the new numbers in dependency order and without repeats. */
  lemma SequencedComplete(logs: seq<ChangeLog>, result: seq<ChangeLog>, txid: int, lo: int, hi: int)
    requires Sequenced(logs, result, txid, lo, hi, 3 * |logs|)
    ensures Restamped(logs, result, txid, lo, hi)
    ensures StampsRespectDependencies(logs, result, txid)
    ensures StampsDistinct(logs, result, txid)
  {
    var n := |logs|;
    forall t, i | 0 <= t < n && 0 <= i < |logs[t]|
      ensures PassIndex(n, t, logs[t][i].operation) < 3 * n
    {
    }
    SequencedRespectsDependencies(logs, result, txid, lo, hi);
    forall t1, i1, t2, i2 |
      && 0 <= t1 < n && 0 <= i1 < |logs[t1]| && 0 <= t2 < n && 0 <= i2 < |logs[t2]|
      && Unnumbered(logs[t1][i1], txid) && Unnumbered(logs[t2][i2], txid) && (t1 != t2 || i1 != i2)
      ensures result[t1][i1].changeid != result[t2][i2].changeid
    {
      PrecedesTotal(t1, i1, logs[t1][i1].operation, t2, i2, logs[t2][i2].operation);
    }
  }

  /** Of two different rows, one precedes the other: the numbering is a total order and hands out no number twice. */
  lemma PrecedesTotal(t1: nat, i1: nat, op1: Operation, t2: nat, i2: nat, op2: Operation)
    requires t1 != t2 || i1 != i2
    ensures Precedes(t1, i1, op1, t2, i2, op2) || Precedes(t2, i2, op2, t1, i1, op1)
  {
  }

  /**
    The replay order the numbering guarantees between two rows of the
    transaction, at positions `i1` of table `t1` and `i2` of table `t2` (tables
    listed parents first): a child's delete before its parent's, every delete
    before every insert and update, a parent's insert and update before its
    child's, a table's inserts before its updates, and log order within one
    table and operation.
   */
  predicate Precedes(t1: nat, i1: nat, op1: Operation, t2: nat, i2: nat, op2: Operation) {
    || (op1 == Delete && op2 == Delete && t1 > t2)
    || (op1 == Delete && op2 != Delete)
    || (op1 != Delete && op2 != Delete && t1 < t2)
    || (t1 == t2 && op1 == Insert && op2 == Update)
    || (t1 == t2 && op1 == op2 && i1 < i2)
  }

  lemma SequencedRespectsDependencies(logs: seq<ChangeLog>, result: seq<ChangeLog>, txid: int, lo: int, hi: int)
    requires Sequenced(logs, result, txid, lo, hi, 3 * |logs|)
    ensures forall t1, i1, t2, i2 ::
      && 0 <= t1 < |logs| && 0 <= i1 < |logs[t1]| && 0 <= t2 < |logs| && 0 <= i2 < |logs[t2]|
      && Unnumbered(logs[t1][i1], txid) && Unnumbered(logs[t2][i2], txid)
      && Precedes(t1, i1, logs[t1][i1].operation, t2, i2, logs[t2][i2].operation)
      ==> result[t1][i1].changeid.value < result[t2][i2].changeid.value
  {
    var n := |logs|;
    forall t1, i1, t2, i2 |
      && 0 <= t1 < n && 0 <= i1 < |logs[t1]| && 0 <= t2 < n && 0 <= i2 < |logs[t2]|
      && Unnumbered(logs[t1][i1], txid) && Unnumbered(logs[t2][i2], txid)
      && Precedes(t1, i1, logs[t1][i1].operation, t2, i2, logs[t2][i2].operation)
      ensures result[t1][i1].changeid.value < result[t2][i2].changeid.value
    {
      assert PassIndex(n, t1, logs[t1][i1].operation) < 3 * n;
      assert PassIndex(n, t2, logs[t2][i2].operation) < 3 * n;
      assert result[t1][i1].operation == logs[t1][i1].operation;
      assert result[t2][i2].operation == logs[t2][i2].operation;
    }
  }
}
