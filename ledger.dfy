/**
 * The balance ledger of server.js: the `kids` and `transactions` tables, the
 * running balance kept on each kid, and the invariant that ties the two:
 * a kid's balance is the sum of the points of that kid's transactions.
 */
module Ledger {
  import opened Wrappers

  /** A row of `kids`. */
  datatype Kid = Kid(id: int, name: string, initials: string, color: string, balance: int)

  /** A row of `transactions`; `timestamp` is `CURRENT_TIMESTAMP` at insertion, in whole seconds. */
  datatype Transaction = Transaction(id: int, kidId: int, points: int, tag: string, note: string, timestamp: int)

  /** The points one transaction contributes to kid `kidId`. */
  function Contribution(t: Transaction, kidId: int): int {
    if t.kidId == kidId then t.points else 0
  }

  /** The sum of `points` over the transactions of kid `kidId`. */
  function SumPoints(txs: seq<Transaction>, kidId: int): int {
    if txs == [] then 0 else Contribution(txs[0], kidId) + SumPoints(txs[1..], kidId)
  }

  lemma {:induction false} SumPointsConcat(a: seq<Transaction>, b: seq<Transaction>, kidId: int)
    ensures SumPoints(a + b, kidId) == SumPoints(a, kidId) + SumPoints(b, kidId)
  {
    if a == [] {
      assert a + b == b;
    } else {
      assert (a + b)[1..] == a[1..] + b;
      SumPointsConcat(a[1..], b, kidId);
    }
  }

  /** Appending one transaction adds exactly its contribution. */
  lemma SumPointsAppend(txs: seq<Transaction>, t: Transaction, kidId: int)
    ensures SumPoints(txs + [t], kidId) == SumPoints(txs, kidId) + Contribution(t, kidId)
  {
    SumPointsConcat(txs, [t], kidId);
  }

  /** A kid with no transactions has a sum of zero. */
  lemma {:induction false} SumPointsOfOthers(txs: seq<Transaction>, kidId: int)
    requires forall j :: 0 <= j < |txs| ==> txs[j].kidId != kidId
    ensures SumPoints(txs, kidId) == 0
  {
    if txs != [] {
      SumPointsOfOthers(txs[1..], kidId);
    }
  }

  /** Removing the entry at `j` takes away exactly its contribution. */
  lemma SumPointsRemove(txs: seq<Transaction>, j: int, kidId: int)
    requires 0 <= j < |txs|
    ensures SumPoints(txs, kidId) == Contribution(txs[j], kidId) + SumPoints(txs[..j] + txs[j + 1..], kidId)
  {
    assert txs == txs[..j] + ([txs[j]] + txs[j + 1..]);
    SumPointsConcat(txs[..j], [txs[j]] + txs[j + 1..], kidId);
    SumPointsConcat(txs[..j], txs[j + 1..], kidId);
  }

  /** Removing the entry at `j` removes one occurrence of it from the multiset. */
  lemma MultisetRemove(b: seq<Transaction>, j: int)
    requires 0 <= j < |b|
    ensures multiset(b[..j] + b[j + 1..]) == multiset(b) - multiset{b[j]}
  {
    assert b == b[..j] + [b[j]] + b[j + 1..];
    assert multiset(b) == multiset(b[..j]) + multiset{b[j]} + multiset(b[j + 1..]);
  }

  /** Dropping the first entry removes one occurrence of it from the multiset. */
  lemma MultisetTail(a: seq<Transaction>)
    requires a != []
    ensures multiset(a[1..]) == multiset(a) - multiset{a[0]}
  {
    assert a == [a[0]] + a[1..];
  }

  /**
   * The order in which transactions were applied does not matter: any
   * rearrangement of the same history gives every kid the same sum.
   */
  lemma {:induction false} SumPointsPermutation(a: seq<Transaction>, b: seq<Transaction>, kidId: int)
    requires multiset(a) == multiset(b)
    ensures SumPoints(a, kidId) == SumPoints(b, kidId)
    decreases |a|
  {
    if a == [] {
      assert |b| == |multiset(b)| == 0;
    } else {
      var j := MatchFirst(a, b);
      SumPointsPermutation(a[1..], b[..j] + b[j + 1..], kidId);
      SumPointsRemove(b, j, kidId);
    }
  }

  /** The first entry of `a` sits at some `j` of its rearrangement `b`; the rest match without it. */
  lemma MatchFirst(a: seq<Transaction>, b: seq<Transaction>) returns (j: int)
    requires multiset(a) == multiset(b) && a != []
    ensures 0 <= j < |b| && b[j] == a[0]
    ensures multiset(a[1..]) == multiset(b[..j] + b[j + 1..])
  {
    assert a[0] in multiset(a);
    j := IndexOf(b, a[0]);
    MultisetTail(a);
    MultisetRemove(b, j);
  }

  /** A position of `x` in `b`, given that `x` occurs in it. */
  function IndexOf(b: seq<Transaction>, x: Transaction): (j: int)
    requires x in multiset(b)
    ensures 0 <= j < |b| && b[j] == x
  {
    if b[0] == x then 0
    else
      assert b == [b[0]] + b[1..];
      1 + IndexOf(b[1..], x)
  }

  /** Some row of `kids` has this id. */
  predicate HasKid(kids: seq<Kid>, id: int) {
    exists i :: 0 <= i < |kids| && kids[i].id == id
  }

  /** The kid row with this id, if there is one. */
  function FindKid(kids: seq<Kid>, id: int): (r: Option<Kid>)
    ensures r.Some? <==> HasKid(kids, id)
    ensures r.Some? ==> r.value.id == id && r.value in kids
  {
    if kids == [] then None
    else if kids[0].id == id then Some(kids[0])
    else
      var r := FindKid(kids[1..], id);
      assert HasKid(kids, id) ==> HasKid(kids[1..], id) by {
        if HasKid(kids, id) {
          var i :| 0 <= i < |kids| && kids[i].id == id;
          assert kids[1..][i - 1].id == id;
        }
      }
      r
  }

  /** `ORDER BY id` holds of the table as stored: ids strictly increase. */
  predicate IdsAscending(kids: seq<Kid>) {
    forall i, j :: 0 <= i < j < |kids| ==> kids[i].id < kids[j].id
  }

  /** Every transaction names an existing kid (the foreign key). */
  predicate Attributed(kids: seq<Kid>, txs: seq<Transaction>) {
    forall j :: 0 <= j < |txs| ==> HasKid(kids, txs[j].kidId)
  }

  /** The ledger invariant: each kid's stored balance is the sum of its transactions. */
  predicate BalancesMatch(kids: seq<Kid>, txs: seq<Transaction>) {
    forall i :: 0 <= i < |kids| ==> kids[i].balance == SumPoints(txs, kids[i].id)
  }

  /** The balance update of a new transaction: `points` added to the row with id `kidId`. */
  function Credit(kids: seq<Kid>, kidId: int, points: int): (r: seq<Kid>)
    ensures |r| == |kids|
    ensures forall i :: 0 <= i < |kids| ==>
      r[i] == kids[i].(balance := kids[i].balance + (if kids[i].id == kidId then points else 0))
  {
    seq(|kids|, i requires 0 <= i < |kids| =>
      if kids[i].id == kidId then kids[i].(balance := kids[i].balance + points) else kids[i])
  }

  /** The same kids keep the same ids after a credit. */
  lemma CreditKeepsIds(kids: seq<Kid>, kidId: int, points: int)
    ensures IdsAscending(kids) ==> IdsAscending(Credit(kids, kidId, points))
    ensures forall id :: HasKid(Credit(kids, kidId, points), id) <==> HasKid(kids, id)
  {
    var r := Credit(kids, kidId, points);
    forall id ensures HasKid(r, id) <==> HasKid(kids, id) {
      if HasKid(r, id) {
        var i :| 0 <= i < |r| && r[i].id == id;
        assert kids[i].id == id;
      }
      if HasKid(kids, id) {
        var i :| 0 <= i < |kids| && kids[i].id == id;
        assert r[i].id == id;
      }
    }
  }

  /**
   * Adding a transaction and crediting its kid keeps the ledger invariant:
   * the balance rises by the same amount as the sum.
   */
  lemma CreditKeepsBalancesMatch(kids: seq<Kid>, txs: seq<Transaction>, t: Transaction)
    requires BalancesMatch(kids, txs)
    ensures BalancesMatch(Credit(kids, t.kidId, t.points), txs + [t])
  {
    var r := Credit(kids, t.kidId, t.points);
    forall i | 0 <= i < |r|
      ensures r[i].balance == SumPoints(txs + [t], r[i].id)
    {
      SumPointsAppend(txs, t, kids[i].id);
    }
  }

  /** After a credit, the kid looked up by id is the old row with `points` added to its balance. */
  lemma {:induction false} FindKidAfterCredit(kids: seq<Kid>, kidId: int, points: int, before: Kid)
    requires FindKid(kids, kidId) == Some(before)
    ensures FindKid(Credit(kids, kidId, points), kidId) == Some(before.(balance := before.balance + points))
  {
    CreditTail(kids, kidId, points);
    if kids[0].id != kidId {
      FindKidAfterCredit(kids[1..], kidId, points, before);
    }
  }

  /** A credit acts row by row, so it commutes with dropping the first row. */
  lemma CreditTail(kids: seq<Kid>, kidId: int, points: int)
    requires kids != []
    ensures Credit(kids, kidId, points)[1..] == Credit(kids[1..], kidId, points)
    ensures Credit(kids, kidId, points)[0] ==
      kids[0].(balance := kids[0].balance + (if kids[0].id == kidId then points else 0))
  {
    var r := Credit(kids, kidId, points);
    var t := Credit(kids[1..], kidId, points);
    assert forall i :: 0 <= i < |t| ==> r[1..][i] == r[i + 1] && t[i] == kids[1..][i].(balance := kids[1..][i].balance + (if kids[1..][i].id == kidId then points else 0));
  }

  /** A credit followed by the opposite credit leaves every kid as it was. */
  lemma CreditUndone(kids: seq<Kid>, kidId: int, points: int)
    ensures Credit(Credit(kids, kidId, points), kidId, -points) == kids
  {
    var r := Credit(Credit(kids, kidId, points), kidId, -points);
    assert forall i :: 0 <= i < |kids| ==> r[i] == kids[i];
  }

  /** Credits to any kids commute: the final balances do not depend on their order. */
  lemma CreditsCommute(kids: seq<Kid>, a: int, p: int, b: int, q: int)
    ensures Credit(Credit(kids, a, p), b, q) == Credit(Credit(kids, b, q), a, p)
  {
    var x := Credit(Credit(kids, a, p), b, q);
    var y := Credit(Credit(kids, b, q), a, p);
    assert forall i :: 0 <= i < |kids| ==> x[i] == y[i];
  }

  /** The kid update: new name, initials and colour on the row with id `id`, if any. */
  function Restyle(kids: seq<Kid>, id: int, name: string, initials: string, color: string): (r: seq<Kid>)
    ensures |r| == |kids|
    ensures forall i :: 0 <= i < |kids| ==>
      r[i] == if kids[i].id == id then kids[i].(name := name, initials := initials, color := color) else kids[i]
  {
    seq(|kids|, i requires 0 <= i < |kids| =>
      if kids[i].id == id then kids[i].(name := name, initials := initials, color := color) else kids[i])
  }

  /** An update for an unknown id matches no row and changes nothing. */
  lemma RestyleUnknownIsNoop(kids: seq<Kid>, id: int, name: string, initials: string, color: string)
    requires !HasKid(kids, id)
    ensures Restyle(kids, id, name, initials, color) == kids
  {
    var r := Restyle(kids, id, name, initials, color);
    assert forall i :: 0 <= i < |kids| ==> r[i] == kids[i];
  }

  /** A kid update never writes `balance` and never changes ids, so the ledger invariant survives it. */
  lemma RestyleKeepsLedger(kids: seq<Kid>, txs: seq<Transaction>, id: int, name: string, initials: string, color: string)
    ensures var r := Restyle(kids, id, name, initials, color);
      && (BalancesMatch(kids, txs) ==> BalancesMatch(r, txs))
      && (IdsAscending(kids) ==> IdsAscending(r))
      && (forall k :: HasKid(r, k) <==> HasKid(kids, k))
  {
    var r := Restyle(kids, id, name, initials, color);
    forall k ensures HasKid(r, k) <==> HasKid(kids, k) {
      if HasKid(r, k) {
        var i :| 0 <= i < |r| && r[i].id == k;
        assert kids[i].id == k;
      }
      if HasKid(kids, k) {
        var i :| 0 <= i < |kids| && kids[i].id == k;
        assert r[i].id == k;
      }
    }
  }
}
