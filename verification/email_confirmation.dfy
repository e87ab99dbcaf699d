/** Account activation by emailed code: `/activate-account` consumes a
    valid confirmation and activates its user; `/resend-code` issues a new
    confirmation unless a valid one is outstanding. Hashing is abstracted:
    `matches(code, hash)` stands for the bcrypt comparison, and the hash of
    a new code is a parameter. */
module EmailConfirmation {
  import opened Core
  import opened Calendar

  datatype Account = Account(id: UserId, email: string, active: bool, updatedAt: int)

  datatype Confirmation = Confirmation(
    id: nat,
    userId: UserId,
    codeHash: string,
    consumed: bool,
    expiresAt: int)

  datatype AuthDb = AuthDb(accounts: seq<Account>, confirmations: seq<Confirmation>)

  /** How long a freshly issued code stays valid: ten minutes. */
  const CodeLifetimeMs: int := 10 * MinuteMs

  /** A confirmation a user may still redeem at `now`. */
  predicate IsValid(c: Confirmation, uid: UserId, now: int) {
    c.userId == uid && !c.consumed && c.expiresAt > now
  }

  function FindAccount(accounts: seq<Account>, email: string): (r: Option<nat>)
    ensures r.Some? ==> r.value < |accounts| && accounts[r.value].email == email
    ensures r.None? <==> forall i :: 0 <= i < |accounts| ==> accounts[i].email != email
  {
    FindFirst(accounts, (a: Account) => a.email == email)
  }

  function FindValid(cs: seq<Confirmation>, uid: UserId, now: int): (r: Option<nat>)
    ensures r.Some? ==> r.value < |cs| && IsValid(cs[r.value], uid, now)
    ensures r.None? <==> forall i :: 0 <= i < |cs| ==> !IsValid(cs[i], uid, now)
  {
    FindFirst(cs, (c: Confirmation) => IsValid(c, uid, now))
  }

  /** No user holds two confirmations that are both valid at `now`. */
  predicate AtMostOneValid(cs: seq<Confirmation>, now: int) {
    forall i, j :: 0 <= i < j < |cs| && IsValid(cs[i], cs[i].userId, now) ==>
      !IsValid(cs[j], cs[i].userId, now)
  }

  // ---------------------------------------------------------------------
  // activate-account

  datatype ActivateReply =
    | Activated(confirmation: nat)
    | ActivateUserMissing
    | NoValidCode
    | WrongCode
  {
    function Code(): nat {
      if Activated? then 200 else 400
    }
  }

  function ActivateAccount(db: AuthDb, email: string, code: string, now: int,
                           matches: (string, string) -> bool): (r: Step<ActivateReply, AuthDb>)
    ensures !r.reply.Activated? ==> r.db == db
    ensures r.reply == ActivateUserMissing <==> FindAccount(db.accounts, email).None?
    ensures r.reply == NoValidCode <==>
              && FindAccount(db.accounts, email).Some?
              && FindValid(db.confirmations, db.accounts[FindAccount(db.accounts, email).value].id, now).None?
    ensures r.reply == WrongCode ==>
              var a := FindAccount(db.accounts, email).value;
              var j := FindValid(db.confirmations, db.accounts[a].id, now);
              j.Some? && !matches(code, db.confirmations[j.value].codeHash)
    ensures r.reply.Activated? ==>
              r.reply.confirmation == FindValid(db.confirmations,
                                                db.accounts[FindAccount(db.accounts, email).value].id, now).value
    ensures r.reply.Activated? ==>
              var a := FindAccount(db.accounts, email).value;
              var j := r.reply.confirmation;
              && j < |db.confirmations|
              && IsValid(db.confirmations[j], db.accounts[a].id, now)
              && matches(code, db.confirmations[j].codeHash)
              && r.db.confirmations == db.confirmations[j := db.confirmations[j].(consumed := true)]
              && r.db.accounts == db.accounts[a := db.accounts[a].(active := true, updatedAt := now)]
  {
    match FindAccount(db.accounts, email)
    case None => Step(ActivateUserMissing, db)
    case Some(a) =>
      var user := db.accounts[a];
      match FindValid(db.confirmations, user.id, now)
      case None => Step(NoValidCode, db)
      case Some(j) =>
        var v := db.confirmations[j];
        if !matches(code, v.codeHash) then Step(WrongCode, db)
        else
          Step(Activated(j), AuthDb(
            db.accounts[a := user.(active := true, updatedAt := now)],
            db.confirmations[j := v.(consumed := true)]))
  }

  /** A confirmation that has activated an account is spent: no later
      activation attempt, with any code at any time, can use it again. */
  lemma ConsumedConfirmationIsSpent(db: AuthDb, email: string, code: string, now: int,
                                    matches: (string, string) -> bool,
                                    email': string, code': string, now': int)
    requires ActivateAccount(db, email, code, now, matches).reply.Activated?
    ensures var r := ActivateAccount(db, email, code, now, matches);
            ActivateAccount(r.db, email', code', now', matches).reply != r.reply
  {
    var r := ActivateAccount(db, email, code, now, matches);
    var j := r.reply.confirmation;
    assert r.db.confirmations[j].consumed;
  }

  /** Activation only ever consumes a confirmation, so it keeps every user
      down to at most one valid confirmation. */
  lemma ActivateKeepsAtMostOneValid(db: AuthDb, email: string, code: string, now: int,
                                    matches: (string, string) -> bool, t: int)
    requires AtMostOneValid(db.confirmations, t)
    ensures AtMostOneValid(ActivateAccount(db, email, code, now, matches).db.confirmations, t)
  {
    var r := ActivateAccount(db, email, code, now, matches);
    var cs := db.confirmations;
    var cs' := r.db.confirmations;
    assert |cs'| == |cs|;
    assert forall i, u :: 0 <= i < |cs| && IsValid(cs'[i], u, t) ==> IsValid(cs[i], u, t) && cs'[i].userId == cs[i].userId;
  }

  // ---------------------------------------------------------------------
  // resend-code

  datatype ResendReply =
    | CodeStillValid
    | CodeSent
    | ResendUserMissing
    | MailFailed
  {
    /** A failed send throws and reaches the generic error handler. */
    function Code(): nat {
      match this
      case ResendUserMissing => 400
      case MailFailed => 500
      case _ => 200
    }
  }

  /** Whether this request stores a new confirmation: the account exists
      and holds no valid one. The mail is sent only after the insert. */
  predicate IssuesCode(db: AuthDb, email: string, now: int) {
    && FindAccount(db.accounts, email).Some?
    && FindValid(db.confirmations, db.accounts[FindAccount(db.accounts, email).value].id, now).None?
  }

  /** `mailSent` is the outcome of the mail service's call, which runs after
      the new confirmation is stored; a failure does not undo the insert. */
  function ResendCode(db: AuthDb, email: string, now: int, newId: nat, newHash: string, mailSent: bool)
    : (r: Step<ResendReply, AuthDb>)
    ensures r.db.accounts == db.accounts
    ensures !IssuesCode(db, email, now) ==> r.db == db
    ensures r.reply == ResendUserMissing <==> FindAccount(db.accounts, email).None?
    ensures r.reply == CodeStillValid <==>
              && FindAccount(db.accounts, email).Some?
              && FindValid(db.confirmations, db.accounts[FindAccount(db.accounts, email).value].id, now).Some?
    ensures r.reply == CodeSent <==> IssuesCode(db, email, now) && mailSent
    ensures r.reply == MailFailed <==> IssuesCode(db, email, now) && !mailSent
    ensures IssuesCode(db, email, now) ==>
              var uid := db.accounts[FindAccount(db.accounts, email).value].id;
              && r.db.confirmations == db.confirmations + [Confirmation(newId, uid, newHash, false, now + CodeLifetimeMs)]
              && IsValid(r.db.confirmations[|db.confirmations|], uid, now)
  {
    match FindAccount(db.accounts, email)
    case None => Step(ResendUserMissing, db)
    case Some(a) =>
      var uid := db.accounts[a].id;
      if FindValid(db.confirmations, uid, now).Some? then Step(CodeStillValid, db)
      else
        var db' := db.(confirmations :=
          db.confirmations + [Confirmation(newId, uid, newHash, false, now + CodeLifetimeMs)]);
        Step(if mailSent then CodeSent else MailFailed, db')
  }

  /** Asking twice at the same instant issues at most one code: the second
      request finds the first one's code still valid and changes nothing. */
  lemma ResendTwiceIssuesAtMostOne(db: AuthDb, email: string, now: int,
                                   id1: nat, hash1: string, sent1: bool,
                                   id2: nat, hash2: string, sent2: bool)
    ensures var r1 := ResendCode(db, email, now, id1, hash1, sent1);
            var r2 := ResendCode(r1.db, email, now, id2, hash2, sent2);
            && r2.db == r1.db
            && |r2.db.confirmations| <= |db.confirmations| + 1
  {
    var r1 := ResendCode(db, email, now, id1, hash1, sent1);
    if IssuesCode(db, email, now) {
      var uid := db.accounts[FindAccount(db.accounts, email).value].id;
      assert IsValid(r1.db.confirmations[|db.confirmations|], uid, now);
    }
  }

  /** A failed send still leaves the new code stored, so every later
      request within its lifetime answers 200 without sending anything: the
      user cannot obtain a code until the stored one expires. */
  lemma {:induction false} FailedSendSilencesResend(db: AuthDb, email: string, now: int, later: int,
                                                    newId: nat, newHash: string,
                                                    id2: nat, hash2: string, sent2: bool)
    requires IssuesCode(db, email, now)
    requires now <= later < now + CodeLifetimeMs
    ensures var r1 := ResendCode(db, email, now, newId, newHash, false);
            var r2 := ResendCode(r1.db, email, later, id2, hash2, sent2);
            && r1.reply == MailFailed && r1.reply.Code() == 500
            && r2.reply == CodeStillValid && r2.db == r1.db
  {
    var r1 := ResendCode(db, email, now, newId, newHash, false);
    var uid := db.accounts[FindAccount(db.accounts, email).value].id;
    assert IsValid(r1.db.confirmations[|db.confirmations|], uid, later);
  }

  /** Resending never gives a user a second valid confirmation: a new code
      is issued only when the user has none that is valid. */
  lemma ResendKeepsAtMostOneValid(db: AuthDb, email: string, now: int, newId: nat, newHash: string,
                                  mailSent: bool)
    requires AtMostOneValid(db.confirmations, now)
    ensures AtMostOneValid(ResendCode(db, email, now, newId, newHash, mailSent).db.confirmations, now)
  {
    var r := ResendCode(db, email, now, newId, newHash, mailSent);
    var cs := db.confirmations;
    if IssuesCode(db, email, now) {
      var cs' := r.db.confirmations;
      var uid := db.accounts[FindAccount(db.accounts, email).value].id;
      forall i, j | 0 <= i < j < |cs'| && IsValid(cs'[i], cs'[i].userId, now)
        ensures !IsValid(cs'[j], cs'[i].userId, now)
      {
        if j < |cs| {
          assert cs'[i] == cs[i] && cs'[j] == cs[j];
        } else {
          assert cs'[i] == cs[i];
          assert !IsValid(cs[i], uid, now);
        }
      }
    }
  }
}
