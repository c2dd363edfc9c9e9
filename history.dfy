/**
 * `GET /api/transactions` of server.js: the transactions joined with their
 * kid's name, initials and colour, optionally only those of one kid, newest
 * timestamp first, at most `limit` of them. Transactions are stored in insertion order with non-decreasing timestamps,
 * so the newest rows are found by scanning the table from its end. Timestamps
 * are whole seconds, so rows written in the same second tie; SQLite may return
 * tied rows in any order, and this model fixes one of the allowed orders:
 * newest-inserted first.
 */
module History {
  import opened Wrappers
  import opened Ledger

  /** `limit` when the query string has none. */
  const DEFAULT_LIMIT: nat := 50

  /** One result row: the transaction joined with its kid's display fields. */
  datatype HistoryRow = HistoryRow(tx: Transaction, name: string, initials: string, color: string)

  /** The join finds the kid and the optional `kid_id` filter accepts it. */
  predicate Selected(kids: seq<Kid>, t: Transaction, kidFilter: Option<int>) {
    HasKid(kids, t.kidId) && (kidFilter.None? || kidFilter.value == t.kidId)
  }

  /** The number of selected transactions. */
  function CountSelected(kids: seq<Kid>, txs: seq<Transaction>, kidFilter: Option<int>): nat {
    if txs == [] then 0
    else CountSelected(kids, txs[..|txs| - 1], kidFilter) + (if Selected(kids, txs[|txs| - 1], kidFilter) then 1 else 0)
  }

  /** The newest `limit` selected transactions, newest first. */
  function Newest(kids: seq<Kid>, txs: seq<Transaction>, kidFilter: Option<int>, limit: nat): seq<HistoryRow>
    decreases |txs|
  {
    if limit == 0 || txs == [] then []
    else
      var t := txs[|txs| - 1];
      var older := txs[..|txs| - 1];
      match FindKid(kids, t.kidId)
      case Some(k) =>
        if kidFilter.None? || kidFilter.value == t.kidId then
          [HistoryRow(t, k.name, k.initials, k.color)] + Newest(kids, older, kidFilter, limit - 1)
        else Newest(kids, older, kidFilter, limit)
      case None => Newest(kids, older, kidFilter, limit)
  }

  /** Timestamps never decrease along the table (the clock does not run backwards). */
  predicate TimesNonDecreasing(txs: seq<Transaction>) {
    forall i, j :: 0 <= i < j < |txs| ==> txs[i].timestamp <= txs[j].timestamp
  }

  /** Rowids strictly increase along the table. */
  predicate TxIdsAscending(txs: seq<Transaction>) {
    forall i, j :: 0 <= i < j < |txs| ==> txs[i].id < txs[j].id
  }

  /**
   * Every row is a stored transaction accepted by the join and the filter, shown
   * with its own kid's name, initials and colour; there are at most `limit` rows.
   */
  lemma {:induction false} NewestSound(kids: seq<Kid>, txs: seq<Transaction>, kidFilter: Option<int>, limit: nat)
    ensures var r := Newest(kids, txs, kidFilter, limit);
      && |r| <= limit
      && forall i :: 0 <= i < |r| ==>
           && r[i].tx in txs
           && Selected(kids, r[i].tx, kidFilter)
           && exists k :: k in kids && k.id == r[i].tx.kidId
                && r[i].name == k.name && r[i].initials == k.initials && r[i].color == k.color
    decreases |txs|
  {
    if limit != 0 && txs != [] {
      var older := txs[..|txs| - 1];
      NewestSound(kids, older, kidFilter, limit);
      NewestSound(kids, older, kidFilter, limit - 1);
      assert forall t :: t in older ==> t in txs;
    }
  }

  /** With a `kid_id` filter, every row belongs to that kid. */
  lemma FilterRespected(kids: seq<Kid>, txs: seq<Transaction>, kidId: int, limit: nat)
    ensures forall row :: row in Newest(kids, txs, Some(kidId), limit) ==> row.tx.kidId == kidId
  {
    NewestSound(kids, txs, Some(kidId), limit);
  }

  /** Newest first: timestamps do not increase and rowids strictly decrease along the rows. */
  predicate NewestFirst(r: seq<HistoryRow>) {
    forall i, j :: 0 <= i < j < |r| ==> r[i].tx.timestamp >= r[j].tx.timestamp && r[i].tx.id > r[j].tx.id
  }

  lemma ConsNewestFirst(head: HistoryRow, rest: seq<HistoryRow>)
    requires NewestFirst(rest)
    requires forall row :: row in rest ==> row.tx.timestamp <= head.tx.timestamp && row.tx.id < head.tx.id
    ensures NewestFirst([head] + rest)
  {
    var r := [head] + rest;
    forall i, j | 0 <= i < j < |r| ensures r[i].tx.timestamp >= r[j].tx.timestamp && r[i].tx.id > r[j].tx.id {
      assert r[j] == rest[j - 1];
      if i > 0 {
        assert r[i] == rest[i - 1];
      }
    }
  }

  /** Every row comes from the table. */
  lemma {:induction false} NewestFromTable(kids: seq<Kid>, txs: seq<Transaction>, kidFilter: Option<int>, limit: nat)
    ensures forall row :: row in Newest(kids, txs, kidFilter, limit) ==> row.tx in txs
    decreases |txs|
  {
    if limit != 0 && txs != [] {
      var older := txs[..|txs| - 1];
      NewestFromTable(kids, older, kidFilter, limit);
      NewestFromTable(kids, older, kidFilter, limit - 1);
      assert forall t :: t in older ==> t in txs;
    }
  }

  /** The rows come newest first. */
  lemma {:induction false} NewestOrdered(kids: seq<Kid>, txs: seq<Transaction>, kidFilter: Option<int>, limit: nat)
    requires TimesNonDecreasing(txs) && TxIdsAscending(txs)
    ensures NewestFirst(Newest(kids, txs, kidFilter, limit))
    decreases |txs|
  {
    if limit != 0 && txs != [] {
      var t := txs[|txs| - 1];
      var older := txs[..|txs| - 1];
      NewestOrdered(kids, older, kidFilter, limit);
      if Selected(kids, t, kidFilter) {
        NewestOrdered(kids, older, kidFilter, limit - 1);
        NewestFromTable(kids, older, kidFilter, limit - 1);
        var rest := Newest(kids, older, kidFilter, limit - 1);
        var k := FindKid(kids, t.kidId).value;
        forall row | row in rest ensures row.tx.timestamp <= t.timestamp && row.tx.id < t.id {
          var m :| 0 <= m < |older| && older[m] == row.tx;
          assert txs[m] == row.tx;
        }
        ConsNewestFirst(HistoryRow(t, k.name, k.initials, k.color), rest);
      }
    }
  }

  /** The query returns `limit` rows, or every selected transaction when there are fewer. */
  lemma {:induction false} NewestCount(kids: seq<Kid>, txs: seq<Transaction>, kidFilter: Option<int>, limit: nat)
    ensures |Newest(kids, txs, kidFilter, limit)| ==
      if CountSelected(kids, txs, kidFilter) < limit then CountSelected(kids, txs, kidFilter) else limit
    decreases |txs|
  {
    if limit != 0 && txs != [] {
      var older := txs[..|txs| - 1];
      NewestStep(kids, txs, kidFilter, limit);
      if Selected(kids, txs[|txs| - 1], kidFilter) {
        NewestCount(kids, older, kidFilter, limit - 1);
      } else {
        NewestCount(kids, older, kidFilter, limit);
      }
    }
  }

  /** One step of the scan: the last transaction is taken exactly when it is selected. */
  lemma NewestStep(kids: seq<Kid>, txs: seq<Transaction>, kidFilter: Option<int>, limit: nat)
    requires limit != 0 && txs != []
    ensures var older := txs[..|txs| - 1];
      |Newest(kids, txs, kidFilter, limit)| ==
        if Selected(kids, txs[|txs| - 1], kidFilter) then 1 + |Newest(kids, older, kidFilter, limit - 1)|
        else |Newest(kids, older, kidFilter, limit)|
  {
  }

  /**
   * Nothing selected is dropped while room is left: when the query returns fewer
   * than `limit` rows, every selected transaction is among them.
   */
  lemma {:induction false} NewestComplete(kids: seq<Kid>, txs: seq<Transaction>, kidFilter: Option<int>, limit: nat)
    requires |Newest(kids, txs, kidFilter, limit)| < limit
    ensures forall t :: t in txs && Selected(kids, t, kidFilter) ==>
      exists row :: row in Newest(kids, txs, kidFilter, limit) && row.tx == t
    decreases |txs|
  {
    if txs != [] {
      var last := txs[|txs| - 1];
      var older := txs[..|txs| - 1];
      assert txs == older + [last];
      var r := Newest(kids, txs, kidFilter, limit);
      if Selected(kids, last, kidFilter) {
        NewestComplete(kids, older, kidFilter, limit - 1);
        assert r[0].tx == last;
        forall t | t in older && Selected(kids, t, kidFilter)
          ensures exists row :: row in r && row.tx == t
        {
          var row :| row in Newest(kids, older, kidFilter, limit - 1) && row.tx == t;
          assert row in r;
        }
      } else {
        NewestComplete(kids, older, kidFilter, limit);
      }
    }
  }

  /**
   * The `LIMIT` drops only older rows: a selected transaction missing from the
   * result is no newer than any row that was returned.
   */
  lemma {:induction false} NewestKeepsNewer(kids: seq<Kid>, txs: seq<Transaction>, kidFilter: Option<int>, limit: nat, t: Transaction)
    requires TimesNonDecreasing(txs)
    requires t in txs && Selected(kids, t, kidFilter)
    requires forall row :: row in Newest(kids, txs, kidFilter, limit) ==> row.tx != t
    ensures forall row :: row in Newest(kids, txs, kidFilter, limit) ==> row.tx.timestamp >= t.timestamp
    decreases |txs|
  {
    var last := txs[|txs| - 1];
    var older := txs[..|txs| - 1];
    var r := Newest(kids, txs, kidFilter, limit);
    if limit != 0 && last != t {
      assert t in older by {
        var m :| 0 <= m < |txs| && txs[m] == t;
        assert m < |txs| - 1;
        assert older[m] == t;
      }
      var lim := if Selected(kids, last, kidFilter) then limit - 1 else limit;
      NewestKeepsNewer(kids, older, kidFilter, lim, t);
      assert last.timestamp >= t.timestamp by {
        var m :| 0 <= m < |txs| && txs[m] == t;
      }
    }
  }
}
