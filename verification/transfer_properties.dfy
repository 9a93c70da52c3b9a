/**
 Properties of the transfer handler that relate its outcome to the store as a
 whole: conservation of the total, non-negativity, atomicity when a database
 call throws, the boundary cases of the amount, and what serialised transfers
 from one account can and cannot do.
 */
module TransferProperties {
  import opened Optional
  import opened AccountStore
  import opened Accounts

  /** Whatever the inputs and wherever an exception strikes, the total of all balances is unchanged. */
  lemma HandleTransferConserves(s: Store, actor: UserId, to: Option<UserId>, amount: AmountInput,
                                fault: Option<Stage>)
    ensures Total(HandleTransfer(s, actor, to, amount, fault).store) == Total(s)
  {
    var r := HandleTransfer(s, actor, to, amount, fault);
    if r.outcome.Transferred? {
      var n := r.outcome.amount;
      var from, dest := CastObjectId(actor).value, CastObjectId(to.value).value;
      IncTotal(s, from, -n);
      IncTotal(Inc(s, from, -n), dest, n);
    }
  }

  /** A transfer never makes an account negative when none was negative before. */
  lemma HandleTransferKeepsNonNegative(s: Store, actor: UserId, to: Option<UserId>, amount: AmountInput,
                                       fault: Option<Stage>)
    requires NonNegative(s)
    ensures NonNegative(HandleTransfer(s, actor, to, amount, fault).store)
  {
    var r := HandleTransfer(s, actor, to, amount, fault);
    if r.outcome.Transferred? {
      var s' := r.store;
      forall id | id in s'
        ensures s'[id] >= 0
      {
        assert id in s;
      }
    }
  }

  /**
   Atomicity under fault injection: when the fault-free handler would commit, an
   exception at any stage, including between the debit and the credit, answers
   500 and leaves the store exactly as it was.
   */
  lemma FaultAbortsWholeTransfer(s: Store, actor: UserId, to: Option<UserId>, amount: AmountInput, st: Stage)
    requires Transfer(s, actor, to, amount).outcome.Transferred?
    ensures HandleTransfer(s, actor, to, amount, Some(st)) == TransferResponse(Failed(InternalError), s)
  {
  }

  /** An exception either answers 500 with the store untouched or strikes a stage the handler never reached. */
  lemma FaultIsAbortOrIrrelevant(s: Store, actor: UserId, to: Option<UserId>, amount: AmountInput, st: Stage)
    ensures var r := HandleTransfer(s, actor, to, amount, Some(st));
      r == TransferResponse(Failed(InternalError), s) || r == Transfer(s, actor, to, amount)
  {
  }

  /**
   The handler answers 500 exactly when an exception strikes a stage the request
   reaches, so that the answer differs from the fault-free one, or when the
   fault-free request already fails on an id that does not cast.
   */
  lemma ServerErrorExactlyWhenFaultStrikes(s: Store, actor: UserId, to: Option<UserId>, amount: AmountInput,
                                           fault: Option<Stage>)
    ensures StatusCode(HandleTransfer(s, actor, to, amount, fault).outcome) == 500
        <==> || HandleTransfer(s, actor, to, amount, fault) != Transfer(s, actor, to, amount)
             || StatusCode(Transfer(s, actor, to, amount).outcome) == 500
  {
  }

  /**
   The amount passes the second check exactly when it is a number, or converts
   to one, that is strictly positive; a value converting to NaN never passes.
   */
  lemma PositiveAmountExactly(a: AmountInput)
    ensures PositiveAmount(a) <==> (a.NumberValue? || a.Coercible?) && a.n > 0
  {
  }

  /** Transferring the sender's whole balance succeeds and leaves the sender at 0. */
  lemma ExactBalanceTransfer(s: Store, actor: UserId, recipient: UserId)
    requires Canonical(actor) && Canonical(recipient)
    requires actor in s && recipient in s && actor != recipient
    requires s[actor] > 0
    ensures var r := Transfer(s, actor, Some(recipient), NumberValue(s[actor]));
      && r.outcome == Transferred(s[actor], 0)
      && r.store[actor] == 0
      && r.store[recipient] == s[recipient] + s[actor]
  {
  }

  /**
   The amount boundary: 0 as a number is falsy and stops at the first check,
   while "0" as a string and every negative number stop at the second.
   */
  lemma AmountBoundaries(s: Store, actor: UserId, recipient: UserId, n: int)
    requires recipient != ""
    requires n < 0
    ensures Transfer(s, actor, Some(recipient), NumberValue(0)).outcome == Failed(FieldsRequired)
    ensures Transfer(s, actor, Some(recipient), Coercible(0)).outcome == Failed(InvalidAmount)
    ensures Transfer(s, actor, Some(recipient), NumberValue(n)).outcome == Failed(InvalidAmount)
    ensures Transfer(s, actor, Some(recipient), Coercible(n)).outcome == Failed(InvalidAmount)
  {
  }

  /** Sending to oneself is refused whatever the balance, with the store unchanged. */
  lemma SelfTransferRejected(s: Store, actor: UserId, n: int)
    requires actor != "" && n > 0
    ensures Transfer(s, actor, Some(actor), NumberValue(n)) == TransferResponse(Failed(SelfTransfer), s)
  {
  }

  /**
   A short balance is reported whatever the recipient: with no account, or even
   with an id that does not cast, the recipient is never looked up.
   */
  lemma InsufficientBeforeRecipient(s: Store, actor: UserId, recipient: UserId, n: int)
    requires Canonical(actor) && actor in s && actor != recipient && recipient != ""
    requires 0 < n && s[actor] < n
    ensures Transfer(s, actor, Some(recipient), NumberValue(n))
         == TransferResponse(Failed(InsufficientBalance(s[actor])), s)
  {
  }

  /**
   The balance query after a committed transfer shows both legs, provided the two
   ids name different accounts; when they name one account its balance reads as
   before. Every other account reads as before.
   */
  lemma BalanceAfterTransfer(s: Store, actor: UserId, to: Option<UserId>, amount: AmountInput, other: UserId)
    requires Transfer(s, actor, to, amount).outcome.Transferred?
    ensures var r := Transfer(s, actor, to, amount);
      var from, dest := CastObjectId(actor).value, CastObjectId(to.value).value;
      && (from != dest ==> GetBalance(r.store, actor) == Balance(s[from] - r.outcome.amount))
      && (from != dest ==> GetBalance(r.store, to.value) == Balance(s[dest] + r.outcome.amount))
      && (from == dest ==> GetBalance(r.store, actor) == Balance(s[from]))
      && (CastObjectId(other) != CastObjectId(actor) && CastObjectId(other) != CastObjectId(to.value) ==>
            GetBalance(r.store, other) == GetBalance(s, other))
  {
  }

  /** One request of a serial history of transfers. */
  datatype TransferRequest = TransferRequest(actor: UserId, to: Option<UserId>, amount: AmountInput)

  /** The store after handling the requests one after the other, each as one atomic step. */
  function ApplyAll(s: Store, reqs: seq<TransferRequest>): (r: Store)
    ensures r.Keys == s.Keys
    decreases |reqs|
  {
    if reqs == [] then s
    else
      var q := reqs[0];
      ApplyAll(Transfer(s, q.actor, q.to, q.amount).store, reqs[1..])
  }

  /** Conservation over any history of transfers, committed or refused. */
  lemma {:induction false} ApplyAllConserves(s: Store, reqs: seq<TransferRequest>)
    ensures Total(ApplyAll(s, reqs)) == Total(s)
    decreases |reqs|
  {
    if reqs != [] {
      var q := reqs[0];
      HandleTransferConserves(s, q.actor, q.to, q.amount, None);
      ApplyAllConserves(Transfer(s, q.actor, q.to, q.amount).store, reqs[1..]);
    }
  }

  /** Non-negativity over any history of transfers. */
  lemma {:induction false} ApplyAllKeepsNonNegative(s: Store, reqs: seq<TransferRequest>)
    requires NonNegative(s)
    ensures NonNegative(ApplyAll(s, reqs))
    decreases |reqs|
  {
    if reqs != [] {
      var q := reqs[0];
      HandleTransferKeepsNonNegative(s, q.actor, q.to, q.amount, None);
      ApplyAllKeepsNonNegative(Transfer(s, q.actor, q.to, q.amount).store, reqs[1..]);
    }
  }

  /**
   No double spending: two transfers out of one account, each affordable alone
   but not together, handled one after the other. The first commits and the
   second is refused as insufficient, reporting what the first one left.
   */
  lemma NoDoubleSpend(s: Store, actor: UserId, to1: UserId, to2: UserId, x1: int, x2: int)
    requires Canonical(actor) && Canonical(to1) && Canonical(to2)
    requires actor in s && to1 in s && to2 in s
    requires actor != to1 && actor != to2
    requires 0 < x1 <= s[actor] && 0 < x2 <= s[actor] && x1 + x2 > s[actor]
    ensures var first := Transfer(s, actor, Some(to1), NumberValue(x1));
      var second := Transfer(first.store, actor, Some(to2), NumberValue(x2));
      && first.outcome.Transferred?
      && second == TransferResponse(Failed(InsufficientBalance(s[actor] - x1)), first.store)
  {
  }

  /**
   The self-check compares spellings, while the lookups and the updates compare
   accounts. A recipient id that spells the sender's own ObjectId differently
   therefore passes the self-check, and both legs hit the sender's account: the
   transfer commits, the store is unchanged, and the reported new balance is the
   old one minus an amount that never left.
   */
  lemma CaseVariantSelfTransferCommits(s: Store, actor: UserId, to: UserId, n: int)
    requires Canonical(actor) && actor in s
    requires to != actor && CastObjectId(to) == Some(actor)
    requires 0 < n <= s[actor]
    ensures Transfer(s, actor, Some(to), NumberValue(n)) == TransferResponse(Transferred(n, s[actor] - n), s)
  {
  }

  /** Such a spelling exists: the server issues lower-case ids, and mongoose also casts upper-case ones. */
  lemma UpperCaseSpellingNamesSameAccount()
    ensures Canonical("507f1f77bcf86cd799439011")
    ensures CastObjectId("507F1F77BCF86CD799439011") == Some("507f1f77bcf86cd799439011")
  {
    var lower: string := "507f1f77bcf86cd799439011";
    var upper: string := "507F1F77BCF86CD799439011";
    assert forall i :: 0 <= i < |upper| ==> IsHexDigit(upper[i]) && LowerHex(upper[i]) == lower[i];
    assert forall i :: 0 <= i < |lower| ==> IsHexDigit(lower[i]) && LowerHex(lower[i]) == lower[i];
    var fromUpper, fromLower := CastObjectId(upper).value, CastObjectId(lower).value;
    assert fromUpper == lower by {
      assert forall i :: 0 <= i < |lower| ==> fromUpper[i] == lower[i];
    }
    assert fromLower == lower by {
      assert forall i :: 0 <= i < |lower| ==> fromLower[i] == lower[i];
    }
  }

  /** With the corrected self-check, every spelling of the sender's own id is refused, whatever the balance. */
  lemma CorrectedSelfTransferRejected(s: Store, actor: UserId, to: UserId, n: int)
    requires to != "" && n > 0
    requires to == actor || (CastObjectId(to).Some? && CastObjectId(to) == CastObjectId(actor))
    ensures TransferCorrected(s, actor, Some(to), NumberValue(n)) == TransferResponse(Failed(SelfTransfer), s)
  {
  }

  /** The correction changes only requests whose two ids spell one account differently. */
  lemma CorrectionOnlyAffectsCaseVariants(s: Store, actor: UserId, to: Option<UserId>, amount: AmountInput)
    requires !(WellFormedRequest(to, amount) && to.value != actor && SameUser(actor, to.value))
    ensures TransferCorrected(s, actor, to, amount) == Transfer(s, actor, to, amount)
  {
  }
}
