/** The credit ledger: balance, grants, FIFO consumption and the one-time
    welcome bonus, each as a pure function of the ledger. */
module Credits {
  import opened Wrappers
  import opened Schema
  import Text

  /** Credits given once to a user who has never received a grant */
  const FREE_CREDITS: int := 5

  /** A grant of `u` that still has credit to spend */
  predicate Spendable(r: CreditRecord, u: UserId) {
    r.userId == u && r.transactionType == Grant && r.remainingCredits > 0
  }

  /** What a record adds to `u`'s balance */
  function Contribution(r: CreditRecord, u: UserId): int {
    if Spendable(r, u) then r.remainingCredits else 0
  }

  /** `getUserCredits`: the sum of `remainingCredits` over `u`'s grant
      records that still have some (an empty sum is 0). */
  function GetUserCredits(l: Ledger, u: UserId): (balance: int)
    ensures balance >= 0
    ensures balance == 0 <==> forall i :: 0 <= i < |l| ==> !Spendable(l[i], u)
  {
    if |l| == 0 then 0
    else
      var prefix := l[..|l| - 1];
      assert forall i :: 0 <= i < |prefix| ==> prefix[i] == l[i];
      GetUserCredits(prefix, u) + Contribution(l[|l| - 1], u)
  }

  /** Sum of `credits` over all of `u`'s grant records, spent or not; what
      the welcome-bonus check reads. */
  function GrantedTotal(l: Ledger, u: UserId): int {
    if |l| == 0 then 0
    else
      var r := l[|l| - 1];
      GrantedTotal(l[..|l| - 1], u) + (if r.userId == u && r.transactionType == Grant then r.credits else 0)
  }

  /** Number of consume records of `u` */
  function ConsumedCount(l: Ledger, u: UserId): nat {
    if |l| == 0 then 0
    else
      var r := l[|l| - 1];
      ConsumedCount(l[..|l| - 1], u) + (if r.userId == u && r.transactionType == Consume then 1 else 0)
  }

  lemma AppendSums(l: Ledger, r: CreditRecord, u: UserId)
    ensures GetUserCredits(l + [r], u) == GetUserCredits(l, u) + Contribution(r, u)
    ensures GrantedTotal(l + [r], u)
            == GrantedTotal(l, u) + (if r.userId == u && r.transactionType == Grant then r.credits else 0)
    ensures ConsumedCount(l + [r], u)
            == ConsumedCount(l, u) + (if r.userId == u && r.transactionType == Consume then 1 else 0)
  {
    assert (l + [r])[..|l|] == l;
  }

  /** Replacing one record changes the balance by the difference of the two
      records' contributions. */
  lemma {:induction false} UpdateBalance(l: Ledger, i: nat, r: CreditRecord, u: UserId)
    requires i < |l|
    ensures GetUserCredits(l[i := r], u) == GetUserCredits(l, u) - Contribution(l[i], u) + Contribution(r, u)
  {
    var n := |l| - 1;
    if i < n {
      UpdateBalance(l[..n], i, r, u);
      assert l[i := r][..n] == l[..n][i := r];
    } else {
      assert l[i := r][..n] == l[..n];
    }
  }

  /** Replacing a record by one of the same user and type with other
      remaining credits keeps the sum of granted credits and the count of
      consumptions. */
  lemma {:induction false} UpdateKeepsTotals(l: Ledger, i: nat, r: CreditRecord, u: UserId)
    requires i < |l|
    requires r.userId == l[i].userId && r.transactionType == l[i].transactionType && r.credits == l[i].credits
    ensures GrantedTotal(l[i := r], u) == GrantedTotal(l, u)
    ensures ConsumedCount(l[i := r], u) == ConsumedCount(l, u)
  {
    var n := |l| - 1;
    if i < n {
      UpdateKeepsTotals(l[..n], i, r, u);
      assert l[i := r][..n] == l[..n][i := r];
    } else {
      assert l[i := r][..n] == l[..n];
    }
  }

  /** The record `grantCredits` inserts: an empty order number is stored as
      null, an empty description is replaced by a default one. */
  function GrantRecord(id: string, u: UserId, amount: int, orderNo: Option<string>, description: Option<string>): CreditRecord {
    var desc := if description.Some? && description.value != "" then description.value
                else "Granted " + Text.IntToString(amount) + " credits";
    var tag := if orderNo.Some? && orderNo.value != "" then orderNo else None;
    CreditRecord(id, u, Grant, amount, amount, desc, tag)
  }

  /** `grantCredits`: append one grant record; nothing already there changes. */
  function GrantCredits(l: Ledger, u: UserId, amount: int, orderNo: Option<string>,
                        description: Option<string>, id: string): (l': Ledger)
    ensures |l'| == |l| + 1 && l'[..|l|] == l
    ensures l'[|l|].userId == u && l'[|l|].transactionType == Grant
    ensures l'[|l|].credits == amount && l'[|l|].remainingCredits == amount
    ensures l'[|l|].orderNo.Some? <==> orderNo.Some? && orderNo.value != ""
    ensures l'[|l|].orderNo.Some? ==> l'[|l|].orderNo == orderNo
    ensures GetUserCredits(l', u) == GetUserCredits(l, u) + (if amount > 0 then amount else 0)
    ensures forall v :: v != u ==> GetUserCredits(l', v) == GetUserCredits(l, v)
  {
    var r := GrantRecord(id, u, amount, orderNo, description);
    assert (l + [r])[..|l|] == l;
    AppendSums(l, r, u);
    assert forall v :: v != u ==> GetUserCredits(l + [r], v) == GetUserCredits(l, v) by {
      forall v | v != u
        ensures GetUserCredits(l + [r], v) == GetUserCredits(l, v)
      {
        AppendSums(l, r, v);
      }
    }
    l + [r]
  }

  /** The earliest (FIFO) spendable grant of `u` at or after position `from` */
  function FirstSpendableFrom(l: Ledger, u: UserId, from: nat): (r: Option<nat>)
    requires from <= |l|
    ensures r.Some? ==> from <= r.value < |l| && Spendable(l[r.value], u)
    ensures r.Some? ==> forall j :: from <= j < r.value ==> !Spendable(l[j], u)
    ensures r.None? ==> forall j :: from <= j < |l| ==> !Spendable(l[j], u)
    decreases |l| - from
  {
    if from == |l| then None
    else if Spendable(l[from], u) then Some(from)
    else FirstSpendableFrom(l, u, from + 1)
  }

  /** The record selected for deduction: the oldest grant of `u` with credit left */
  function OldestSpendable(l: Ledger, u: UserId): (r: Option<nat>)
    ensures r.Some? ==> r.value < |l| && Spendable(l[r.value], u)
    ensures r.Some? ==> forall j :: 0 <= j < r.value ==> !Spendable(l[j], u)
    ensures r.None? <==> GetUserCredits(l, u) == 0
  {
    FirstSpendableFrom(l, u, 0)
  }

  /** The audit record a successful consumption appends */
  function ConsumeRecord(id: string, u: UserId): CreditRecord {
    CreditRecord(id, u, Consume, -1, 0, "Image generation", None)
  }

  /** `consumeCredit`: with no balance, report false and change nothing;
      otherwise take one credit from the oldest grant that has some, append a
      consume record and report true. */
  function ConsumeCredit(l: Ledger, u: UserId, id: string): (res: (bool, Ledger))
    ensures !res.0 <==> GetUserCredits(l, u) <= 0
    ensures !res.0 ==> res.1 == l
    ensures res.0 ==> OldestSpendable(l, u).Some?
    ensures res.0 ==>
      var i := OldestSpendable(l, u).value;
      var l' := res.1;
      && |l'| == |l| + 1
      && l'[i] == l[i].(remainingCredits := l[i].remainingCredits - 1)
      && (forall j :: 0 <= j < |l| && j != i ==> l'[j] == l[j])
      && l'[|l|].userId == u && l'[|l|].transactionType == Consume
      && l'[|l|].credits == -1 && l'[|l|].remainingCredits == 0
    ensures res.0 ==> GetUserCredits(res.1, u) == GetUserCredits(l, u) - 1
    ensures forall v :: v != u ==> GetUserCredits(res.1, v) == GetUserCredits(l, v)
  {
    if GetUserCredits(l, u) <= 0 then (false, l)
    else
      match OldestSpendable(l, u)
      case None => (false, l)
      case Some(i) =>
        var g := l[i].(remainingCredits := l[i].remainingCredits - 1);
        var updated := l[i := g];
        var c := ConsumeRecord(id, u);
        UpdateBalance(l, i, g, u);
        AppendSums(updated, c, u);
        assert forall v :: v != u ==> GetUserCredits(updated + [c], v) == GetUserCredits(l, v) by {
          forall v | v != u
            ensures GetUserCredits(updated + [c], v) == GetUserCredits(l, v)
          {
            UpdateBalance(l, i, g, v);
            AppendSums(updated, c, v);
          }
        }
        (true, updated + [c])
  }

  /** `ensureFreeCredits`: grant the welcome bonus when the user's grants sum to nothing. */
  function EnsureFreeCredits(l: Ledger, u: UserId, id: string): (l': Ledger)
    ensures GrantedTotal(l, u) != 0 ==> l' == l
    ensures GrantedTotal(l, u) == 0 ==>
      && |l'| == |l| + 1 && l'[..|l|] == l
      && l'[|l|].userId == u && l'[|l|].transactionType == Grant
      && l'[|l|].credits == FREE_CREDITS && l'[|l|].remainingCredits == FREE_CREDITS
      && GetUserCredits(l', u) == GetUserCredits(l, u) + FREE_CREDITS
  {
    if GrantedTotal(l, u) == 0 then
      GrantCredits(l, u, FREE_CREDITS, None, Some("Welcome bonus - free credits"), id)
    else l
  }

  /** Only records of `u` differ, and every appended record belongs to `u`. */
  ghost predicate OnlyUserChanged(l: Ledger, l': Ledger, u: UserId) {
    && |l| <= |l'|
    && (forall i :: 0 <= i < |l| && l[i].userId != u ==> l'[i] == l[i])
    && (forall i :: 0 <= i < |l| ==> l'[i].userId == l[i].userId)
    && (forall i :: |l| <= i < |l'| ==> l'[i].userId == u)
  }

  /** Operations on `u` never touch another user's records. */
  lemma OperationsIsolateUsers(l: Ledger, u: UserId, amount: int, orderNo: Option<string>,
                               description: Option<string>, id: string)
    ensures OnlyUserChanged(l, GrantCredits(l, u, amount, orderNo, description, id), u)
    ensures OnlyUserChanged(l, ConsumeCredit(l, u, id).1, u)
    ensures OnlyUserChanged(l, EnsureFreeCredits(l, u, id), u)
  {
    var res := ConsumeCredit(l, u, id);
    if res.0 {
      var i := OldestSpendable(l, u).value;
      assert l[i].userId == u;
    }
  }

  /** Calling `ensureFreeCredits` a second time grants nothing more. */
  lemma EnsureFreeCreditsIdempotent(l: Ledger, u: UserId, id1: string, id2: string)
    ensures EnsureFreeCredits(EnsureFreeCredits(l, u, id1), u, id2) == EnsureFreeCredits(l, u, id1)
  {
    var l1 := EnsureFreeCredits(l, u, id1);
    if GrantedTotal(l, u) == 0 {
      AppendSums(l, l1[|l|], u);
      assert l1 == l + [l1[|l|]];
    }
  }

  /** Spending a credit leaves the sum of granted credits as it was, so a user
      who has spent the welcome bonus is not given it again. */
  lemma ConsumeKeepsGrantedTotal(l: Ledger, u: UserId, id: string, v: UserId)
    ensures GrantedTotal(ConsumeCredit(l, u, id).1, v) == GrantedTotal(l, v)
  {
    var res := ConsumeCredit(l, u, id);
    if res.0 {
      var i := OldestSpendable(l, u).value;
      var g := l[i].(remainingCredits := l[i].remainingCredits - 1);
      UpdateKeepsTotals(l, i, g, v);
      assert res.1 == l[i := g] + [ConsumeRecord(id, u)];
      AppendSums(l[i := g], ConsumeRecord(id, u), v);
    }
  }

  // ----- ledger invariants -----

  /** Every record is in a shape the operations can produce: remaining
      credits never negative and never above what was granted; a consume
      record is a single spent credit with nothing remaining. */
  predicate RecordOk(r: CreditRecord) {
    && 0 <= r.remainingCredits
    && (r.transactionType == Grant ==> r.remainingCredits <= r.credits)
    && (r.transactionType == Consume ==> r.credits == -1 && r.remainingCredits == 0)
  }

  ghost predicate LedgerOk(l: Ledger) {
    forall i :: 0 <= i < |l| ==> RecordOk(l[i])
  }

  /** Every credit `u` was granted is either still spendable or matched by one consume record. */
  ghost predicate Accounted(l: Ledger, u: UserId) {
    GrantedTotal(l, u) == GetUserCredits(l, u) + ConsumedCount(l, u)
  }

  /** A ledger operation as a caller issues it; ids are supplied fresh. */
  datatype LedgerOp =
    | GrantOp(user: UserId, amount: int, orderNo: Option<string>, description: Option<string>, id: string)
    | ConsumeOp(user: UserId, id: string)
    | BonusOp(user: UserId, id: string)

  function Apply(l: Ledger, op: LedgerOp): Ledger {
    match op
    case GrantOp(u, a, o, d, id) => GrantCredits(l, u, a, o, d, id)
    case ConsumeOp(u, id) => ConsumeCredit(l, u, id).1
    case BonusOp(u, id) => EnsureFreeCredits(l, u, id)
  }

  function ApplyAll(l: Ledger, ops: seq<LedgerOp>): Ledger
    decreases |ops|
  {
    if |ops| == 0 then l else ApplyAll(Apply(l, ops[0]), ops[1..])
  }

  /** Grants of non-negative amounts only */
  predicate GrantsNonNegative(ops: seq<LedgerOp>) {
    forall k :: 0 <= k < |ops| ==> (ops[k].GrantOp? ==> ops[k].amount >= 0)
  }

  /** One operation keeps every record well formed and every user's credits accounted for. */
  lemma ApplyPreservesInvariants(l: Ledger, op: LedgerOp)
    requires LedgerOk(l) && forall u :: Accounted(l, u)
    requires op.GrantOp? ==> op.amount >= 0
    ensures LedgerOk(Apply(l, op)) && forall u :: Accounted(Apply(l, op), u)
  {
    var l' := Apply(l, op);
    match op
    case GrantOp(u, a, o, d, id) =>
      var r := GrantRecord(id, u, a, o, d);
      assert l' == l + [r];
      forall v ensures Accounted(l', v) {
        AppendSums(l, r, v);
        assert Accounted(l, v);
      }
    case BonusOp(u, id) =>
      if GrantedTotal(l, u) == 0 {
        var r := GrantRecord(id, u, FREE_CREDITS, None, Some("Welcome bonus - free credits"));
        assert l' == l + [r];
        forall v ensures Accounted(l', v) {
          AppendSums(l, r, v);
          assert Accounted(l, v);
        }
      }
    case ConsumeOp(u, id) =>
      var res := ConsumeCredit(l, u, id);
      if res.0 {
        var i := OldestSpendable(l, u).value;
        var g := l[i].(remainingCredits := l[i].remainingCredits - 1);
        var c := ConsumeRecord(id, u);
        assert l' == l[i := g] + [c];
        assert RecordOk(g);
        forall v ensures Accounted(l', v) {
          assert Accounted(l, v);
          UpdateBalance(l, i, g, v);
          UpdateKeepsTotals(l, i, g, v);
          AppendSums(l[i := g], c, v);
        }
      }
  }

  /** From an empty ledger, any sequence of grants (of non-negative amounts),
      bonuses and consumptions leaves no negative remaining credits, and each
      user's grants equal their balance plus their consumptions. */
  lemma {:induction false} InvariantsHoldForAnyHistory(l: Ledger, ops: seq<LedgerOp>)
    requires LedgerOk(l) && forall u :: Accounted(l, u)
    requires GrantsNonNegative(ops)
    ensures LedgerOk(ApplyAll(l, ops))
    ensures forall u :: Accounted(ApplyAll(l, ops), u)
    decreases |ops|
  {
    if |ops| > 0 {
      ApplyPreservesInvariants(l, ops[0]);
      assert GrantsNonNegative(ops[1..]) by {
        forall k | 0 <= k < |ops[1..]| ensures ops[1..][k].GrantOp? ==> ops[1..][k].amount >= 0 {
          assert ops[1..][k] == ops[k + 1];
        }
      }
      InvariantsHoldForAnyHistory(Apply(l, ops[0]), ops[1..]);
    }
  }

  /** Two grants of 3 then 2 credits: three consumptions empty the older
      grant and leave the newer one whole; grants add up. */
  lemma FifoExample(u: UserId)
    ensures var l0 := GrantCredits(GrantCredits([], u, 3, None, None, "g1"), u, 2, None, None, "g2");
            var l3 := ConsumeCredit(ConsumeCredit(ConsumeCredit(l0, u, "c1").1, u, "c2").1, u, "c3").1;
            && GetUserCredits(l0, u) == 5
            && l3[0].remainingCredits == 0 && l3[1].remainingCredits == 2
            && GetUserCredits(l3, u) == 2 && |l3| == 5
  {
    var l0 := GrantCredits(GrantCredits([], u, 3, None, None, "g1"), u, 2, None, None, "g2");
    var l1 := ConsumeCredit(l0, u, "c1").1;
    assert OldestSpendable(l0, u) == Some(0);
    var l2 := ConsumeCredit(l1, u, "c2").1;
    assert OldestSpendable(l1, u) == Some(0);
    assert OldestSpendable(l2, u) == Some(0);
  }

  /** Starting from the empty ledger, every reachable ledger keeps the invariants. */
  lemma HistoryFromEmpty(ops: seq<LedgerOp>)
    requires GrantsNonNegative(ops)
    ensures LedgerOk(ApplyAll([], ops))
    ensures forall u :: Accounted(ApplyAll([], ops), u)
  {
    InvariantsHoldForAnyHistory([], ops);
  }
}
