/**
 The account routes: the balance query and the funds-transfer handler.

 The transfer handler runs its checks in a fixed order inside one database
 session; every early exit aborts the session, and only when all checks pass
 are the debit and the credit applied and committed together. An aborted
 session discards its writes, so an aborted handler returns the store it was
 given.
 */
module Accounts {
  import opened Optional
  import opened AccountStore

  /**
   The `amount` field of a request body, classified by how JavaScript treats it.
   - Missing: a falsy value that is not a number (absent, null, false, "");
   - NumberValue(n): a JSON number, falsy exactly when n == 0;
   - Coercible(n): a truthy non-number that Number() turns into n (a numeric
     string such as "0" or "250", or true);
   - NonNumeric: a truthy value that Number() turns into NaN ("abc", an object).
   */
  datatype AmountInput = Missing | NumberValue(n: int) | Coercible(n: int) | NonNumeric

  /** JavaScript truthiness of the amount field. */
  predicate AmountFalsy(a: AmountInput) {
    a.Missing? || a == NumberValue(0)
  }

  /**
   The result of Number(amount), None standing for NaN. A Missing amount never
   reaches the conversion, because the falsy check returns first; it is sent to
   None only to keep the function total.
   */
  function NumberOf(a: AmountInput): (r: Option<int>)
    ensures a.NumberValue? || a.Coercible? ==> r == Some(a.n)
    ensures a.NonNumeric? ==> r.None?
  {
    match a
    case NumberValue(n) => Some(n)
    case Coercible(n) => Some(n)
    case _ => None
  }

  /** JavaScript truthiness of the recipient field: absent or the empty string is falsy. */
  predicate RecipientFalsy(to: Option<UserId>) {
    to.None? || to.value == ""
  }

  /** The first check: the amount or the recipient is missing or falsy. */
  predicate FieldsMissing(to: Option<UserId>, a: AmountInput) {
    AmountFalsy(a) || RecipientFalsy(to)
  }

  /** The amount converts to a number and that number is strictly positive. */
  predicate PositiveAmount(a: AmountInput) {
    NumberOf(a).Some? && NumberOf(a).value > 0
  }

  /** Both fields are present, truthy and the amount is a positive number. */
  predicate WellFormedRequest(to: Option<UserId>, a: AmountInput) {
    !FieldsMissing(to, a) && PositiveAmount(a)
  }

  /** The reasons a transfer is refused. */
  datatype TransferError =
    | FieldsRequired                            // 400 "Amount and recipient are required"
    | InvalidAmount                             // 400 "Invalid amount"
    | SelfTransfer                              // 400 "Cannot transfer to yourself"
    | SenderNotFound                            // 404 "Sender account not found"
    | InsufficientBalance(currentBalance: int)  // 400 "Insufficient balance"
    | RecipientNotFound                         // 404 "Recipient account not found"
    | InternalError                             // 500, any exception caught by the handler

  datatype TransferOutcome =
    | Transferred(amount: int, newBalance: int)
    | Failed(error: TransferError)

  /** What the handler answers together with the store it leaves behind. */
  datatype TransferResponse = TransferResponse(outcome: TransferOutcome, store: Store)

  /**
   The database calls inside the session before the commit, any of which may
   throw. A fault at a stage the handler never reaches has no effect.
   */
  datatype Stage = ReadSender | ReadRecipient | Debit | Credit

  /** The HTTP status the handler sends for an outcome. */
  function StatusCode(o: TransferOutcome): (code: int)
    ensures code == 200 <==> o.Transferred?
    ensures code == 404 <==> o.Failed? && (o.error.SenderNotFound? || o.error.RecipientNotFound?)
    ensures code == 500 <==> o == Failed(InternalError)
    ensures code in {200, 400, 404, 500}
  {
    match o
    case Transferred(_, _) => 200
    case Failed(e) =>
      match e
      case SenderNotFound => 404
      case RecipientNotFound => 404
      case InternalError => 500
      case _ => 400
  }

  datatype BalanceResult = Balance(balance: int) | AccountNotFound | BalanceServerError

  /**
   GET /balance: a point read of the caller's account. The id is cast first; a
   cast error throws and is answered 500.
   */
  function GetBalance(s: Store, id: UserId): (r: BalanceResult)
    ensures r.Balance? <==> CastObjectId(id).Some? && CastObjectId(id).value in s
    ensures r.Balance? ==> r.balance == s[CastObjectId(id).value]
    ensures r == BalanceServerError <==> CastObjectId(id).None?
  {
    match CastObjectId(id)
    case None => BalanceServerError
    case Some(k) => if k in s then Balance(s[k]) else AccountNotFound
  }

  /**
   Whether two user id strings name the same account: equal as strings, or
   both castable to the same ObjectId.
   */
  predicate SameUser(a: UserId, b: UserId) {
    a == b || (CastObjectId(a).Some? && CastObjectId(a) == CastObjectId(b))
  }

  /** The request passes the first three checks of the handler as written. */
  predicate ReachesSenderLookup(actor: UserId, to: Option<UserId>, a: AmountInput) {
    WellFormedRequest(to, a) && to.value != actor
  }

  /**
   The body of POST /transfer with a possible exception at one database stage.
   The self-check compares the raw strings, as the handler does, unless
   `castSelfCheck` asks it to compare the accounts they name. The sender's
   lookup and debit use the cast of the actor id, the recipient's lookup and
   credit the cast of `to`; a cast error throws like any other database fault.
   */
  function Handle(s: Store, actor: UserId, to: Option<UserId>, amount: AmountInput,
                  fault: Option<Stage>, castSelfCheck: bool): (r: TransferResponse)
    ensures r.outcome.Failed? ==> r.store == s
    ensures r.outcome.Transferred? ==> fault.None?
  {
    var abort := (e: TransferError) => TransferResponse(Failed(e), s);
    if FieldsMissing(to, amount) then abort(FieldsRequired)
    else if !PositiveAmount(amount) then abort(InvalidAmount)
    else
      var n := NumberOf(amount).value;
      var recipient := to.value;
      if (if castSelfCheck then SameUser(actor, recipient) else actor == recipient) then abort(SelfTransfer)
      else if fault == Some(ReadSender) || CastObjectId(actor).None? then abort(InternalError)
      else
        var from := CastObjectId(actor).value;
        if from !in s then abort(SenderNotFound)
        else if s[from] < n then abort(InsufficientBalance(s[from]))
        else if fault == Some(ReadRecipient) || CastObjectId(recipient).None? then abort(InternalError)
        else
          var dest := CastObjectId(recipient).value;
          if dest !in s then abort(RecipientNotFound)
          else if fault == Some(Debit) then abort(InternalError)
          else
            // the session's working copy after the debit leg
            var debited := Inc(s, from, -n);
            // every earlier stage is ruled out, so a remaining fault is the credit leg throwing
            if fault.Some? then abort(InternalError)
            else TransferResponse(Transferred(n, s[from] - n), Inc(debited, dest, n))
  }

  /**
   POST /transfer as written, with a possible exception at one database stage.
   Every exit other than the committed one answers with the store it was given.
   */
  function HandleTransfer(s: Store, actor: UserId, to: Option<UserId>, amount: AmountInput,
                          fault: Option<Stage>): (r: TransferResponse)
    ensures r.outcome.Failed? ==> r.store == s
    ensures r.outcome.Transferred? ==> fault.None?
    ensures r.outcome == Failed(InternalError) ==>
      fault.Some? || CastObjectId(actor).None? || (to.Some? && CastObjectId(to.value).None?)
  {
    Handle(s, actor, to, amount, fault, false)
  }

  /**
   POST /transfer as written, when no database call throws. The contract lists,
   in the handler's order, exactly when each outcome is produced, and what a
   committed transfer does to the store.
   */
  function Transfer(s: Store, actor: UserId, to: Option<UserId>, amount: AmountInput): (r: TransferResponse)
    // 1. a missing or falsy field (an amount of 0 stops here)
    ensures r.outcome == Failed(FieldsRequired) <==> FieldsMissing(to, amount)
    // 2. NaN or not positive
    ensures r.outcome == Failed(InvalidAmount) <==> !FieldsMissing(to, amount) && !PositiveAmount(amount)
    // 3. self-transfer, whatever the balance: the raw strings are compared
    ensures r.outcome == Failed(SelfTransfer) <==> WellFormedRequest(to, amount) && to.value == actor
    // the sender lookup throws on an actor id that does not cast
    ensures r.outcome == Failed(InternalError) <==>
      && ReachesSenderLookup(actor, to, amount)
      && (|| CastObjectId(actor).None?
          || (var from := CastObjectId(actor).value;
              from in s && s[from] >= NumberOf(amount).value && CastObjectId(to.value).None?))
    // 4. no sender account
    ensures r.outcome == Failed(SenderNotFound) <==>
      ReachesSenderLookup(actor, to, amount) && CastObjectId(actor).Some? && CastObjectId(actor).value !in s
    // 5. the balance is short: reported before the recipient is looked up
    ensures r.outcome.Failed? && r.outcome.error.InsufficientBalance? <==>
      && ReachesSenderLookup(actor, to, amount) && CastObjectId(actor).Some?
      && CastObjectId(actor).value in s && s[CastObjectId(actor).value] < NumberOf(amount).value
    ensures r.outcome.Failed? && r.outcome.error.InsufficientBalance? ==>
      r.outcome.error.currentBalance == s[CastObjectId(actor).value]
    // 6. no recipient account
    ensures r.outcome == Failed(RecipientNotFound) <==>
      && ReachesSenderLookup(actor, to, amount) && CastObjectId(actor).Some?
      && CastObjectId(actor).value in s && s[CastObjectId(actor).value] >= NumberOf(amount).value
      && CastObjectId(to.value).Some? && CastObjectId(to.value).value !in s
    // atomicity: every refusal leaves the store as it was
    ensures r.outcome.Failed? ==> r.store == s
    // a commit debits the sender's account and credits the recipient's by exactly the amount;
    // when both ids name one account the two legs cancel
    ensures r.outcome.Transferred? ==>
      && ReachesSenderLookup(actor, to, amount)
      && CastObjectId(actor).Some? && CastObjectId(to.value).Some?
      && var from := CastObjectId(actor).value;
         var dest := CastObjectId(to.value).value;
         && from in s && dest in s
         && r.outcome.amount == NumberOf(amount).value > 0
         && r.outcome.amount <= s[from]
         && r.outcome.newBalance == s[from] - r.outcome.amount
         && (from != dest ==>
               && SameExcept(s, r.store, {from, dest})
               && r.store[from] == s[from] - r.outcome.amount
               && r.store[dest] == s[dest] + r.outcome.amount)
         && (from == dest ==> r.store == s)
  {
    HandleTransfer(s, actor, to, amount, None)
  }

  /**
   POST /transfer with the self-check comparing the accounts the two ids name
   rather than their spellings. A committed transfer then always involves two
   different accounts, moves exactly the amount from one to the other, and
   reports the sender's real new balance.
   */
  function TransferCorrected(s: Store, actor: UserId, to: Option<UserId>, amount: AmountInput): (r: TransferResponse)
    ensures r.outcome == Failed(SelfTransfer) <==> WellFormedRequest(to, amount) && SameUser(actor, to.value)
    ensures r.outcome.Failed? ==> r.store == s
    ensures r.outcome.Transferred? ==>
      && WellFormedRequest(to, amount) && !SameUser(actor, to.value)
      && CastObjectId(actor).Some? && CastObjectId(to.value).Some?
      && var from := CastObjectId(actor).value;
         var dest := CastObjectId(to.value).value;
         && from != dest && from in s && dest in s
         && r.outcome.amount == NumberOf(amount).value > 0
         && SameExcept(s, r.store, {from, dest})
         && r.store[from] == s[from] - r.outcome.amount
         && r.store[dest] == s[dest] + r.outcome.amount
         && r.outcome.newBalance == r.store[from]
  {
    Handle(s, actor, to, amount, None, true)
  }
}
