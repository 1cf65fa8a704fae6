/**
 * The distribute route (`POST /admin/profit/distribute`): the calculator's result
 * committed in one transaction that inserts the distribution, inserts one payout
 * per eligible user and raises each one's profit balance by the share.
 *
 * The audit entry is written through the global client, not the transaction
 * handle, so it survives a rollback of the transaction around it.
 */
module ProfitDistribute {
  import opened Wrappers
  import opened Sums
  import opened Records
  import opened ProfitCalculate

  /** The success body: the new distribution's id, the recipient count and the total. */
  datatype Distributed = Distributed(distributionId: Id, recipients: nat, totalDistributed: real)

  const MissingFields := Failure(400, "Missing fields")

  function PayoutOf(distId: Id, ln: Line): Payout {
    Payout(distId, ln.userId, ln.investmentSnapshot, ln.shareAmount)
  }

  function PayoutShare(p: Payout): real {
    p.shareAmount
  }

  /** The payout rows for the preview lines, in order. */
  function PayoutRecords(distId: Id, ls: seq<Line>): (r: seq<Payout>)
    ensures |r| == |ls|
    ensures forall k :: 0 <= k < |r| ==> r[k] == PayoutOf(distId, ls[k])
    decreases |ls|
  {
    if |ls| == 0 then [] else [PayoutOf(distId, ls[0])] + PayoutRecords(distId, ls[1..])
  }

  /** What `ls` credits to the user `id`: the shares of the lines naming that user. */
  function CreditTo(ls: seq<Line>, id: Id): real
    decreases |ls|
  {
    if |ls| == 0 then 0.0
    else (if ls[0].userId == id then ls[0].shareAmount else 0.0) + CreditTo(ls[1..], id)
  }

  /** No store failure is injected at any of the `n` payout steps. */
  predicate NoFault(fault: Option<nat>, n: nat) {
    fault.None? || fault.value >= n
  }

  /**
   * The payout loop on the transaction's working copy `w`: for each line, insert the
   * payout row, then increment that user's profit balance. Step `step` throws when
   * the store fails there (`fault`) or when the user to update does not exist.
   * The loop touches only the payout and user tables, and keeps every user's key.
   */
  function PayoutLoop(w: Ledger, distId: Id, ls: seq<Line>, step: nat, fault: Option<nat>): (r: Result<Ledger, Failure>)
    ensures r.Ok? ==> r.value == w.(users := r.value.users, payouts := w.payouts + PayoutRecords(distId, ls))
    ensures r.Ok? ==> SameIds(w.users, r.value.users)
    ensures r.Err? ==> r.error == ServerError
    decreases |ls|
  {
    if |ls| == 0 then
      assert w.payouts + PayoutRecords(distId, ls) == w.payouts;
      Ok(w)
    else if fault == Some(step) then Err(ServerError)
    else
      match FindUser(w.users, ls[0].userId)
      case None => Err(ServerError)
      case Some(i) =>
        var next := PayStep(w, distId, ls[0], i);
        assert w.payouts + [PayoutOf(distId, ls[0])] + PayoutRecords(distId, ls[1..])
            == w.payouts + PayoutRecords(distId, ls);
        var rest := PayoutLoop(next, distId, ls[1..], step + 1, fault);
        assert rest.Ok? ==> SameIds(w.users, rest.value.users) by {
          if rest.Ok? {
            SameIdsTransitive(w.users, next.users, rest.value.users);
          }
        }
        rest
  }

  /** The working copy after one payout step: the payout row added, the user at row `i` credited. */
  function PayStep(w: Ledger, distId: Id, ln: Line, i: nat): (r: Ledger)
    requires i < |w.users|
    ensures SameIds(w.users, r.users)
  {
    AddProfitKeepsIds(w.users, i, ln.shareAmount);
    w.(payouts := w.payouts + [PayoutOf(distId, ln)], users := AddProfit(w.users, i, ln.shareAmount))
  }

  /** One step of the payout loop: with no failure at this step and the user found, the rest of the loop runs on the step's result. */
  lemma PayoutLoopStep(w: Ledger, distId: Id, ls: seq<Line>, step: nat, fault: Option<nat>)
    requires |ls| > 0 && fault != Some(step)
    requires FindUser(w.users, ls[0].userId).Some?
    ensures PayoutLoop(w, distId, ls, step, fault)
         == PayoutLoop(PayStep(w, distId, ls[0], FindUser(w.users, ls[0].userId).value), distId, ls[1..], step + 1, fault)
  {
  }

  /** The distribution row a request creates, with the calculator's aggregates. */
  function NewDistribution(l: Ledger, actor: Id, req: ProfitRequest, c: Calculation): Distribution
    requires Complete(req)
  {
    Distribution(
      l.nextId, req.declaredProfit.value, req.distributionPercent.value, req.distributionDate.value,
      c.investmentPool, c.totalToDistribute, |c.lines|, actor, "distributed")
  }

  /** The transaction's working copy once the distribution row is inserted. */
  function Staged(l: Ledger, actor: Id, req: ProfitRequest): Ledger
    requires Complete(req)
  {
    var c := Calculate(l.users, req.distributionPercent.value);
    l.(distributions := l.distributions + [NewDistribution(l, actor, req, c)], nextId := l.nextId + 1)
  }

  function DistributionAudit(actor: Id, distId: Id, c: Calculation): AuditEntry {
    AuditEntry(actor, ProfitDistributed, "profitDistribution", distId, DistributionMeta(|c.lines|, c.totalToDistribute))
  }

  /**
   * The distribute route with the distribution's id read from the row the
   * transaction just created. `fault` is the payout step at which the store fails,
   * if any. A failure rolls back every table; only the audit entry, already written
   * outside the transaction, remains.
   */
  function Distribute(l: Ledger, actor: Id, req: ProfitRequest, fault: Option<nat>): (r: Reply<Distributed>)
    ensures !Complete(req) ==> r == Reply(l, Err(MissingFields))
    ensures r.response.Err? ==>
              && r.ledger.users == l.users
              && r.ledger.deposits == l.deposits
              && r.ledger.withdrawals == l.withdrawals
              && r.ledger.distributions == l.distributions
              && r.ledger.payouts == l.payouts
              && r.ledger.clock == l.clock
              && r.ledger.nextId >= l.nextId
    ensures r.response.Ok? ==>
              && Complete(req)
              && actor in UserIds(l.users)
              && var c := Calculate(l.users, req.distributionPercent.value);
                 && r.response.value == Distributed(l.nextId, |c.lines|, c.totalToDistribute)
                 && r.ledger.distributions == l.distributions + [NewDistribution(l, actor, req, c)]
                 && r.ledger.payouts == l.payouts + PayoutRecords(l.nextId, c.lines)
                 && r.ledger.audit == l.audit + [DistributionAudit(actor, l.nextId, c)]
                 && r.ledger.deposits == l.deposits
                 && r.ledger.withdrawals == l.withdrawals
                 && r.ledger.nextId == l.nextId + 1
                 && r.ledger.clock == l.clock
                 && SameIds(l.users, r.ledger.users)
  {
    if !Complete(req) then Reply(l, Err(MissingFields))
    else
      var c := Calculate(l.users, req.distributionPercent.value);
      if actor !in UserIds(l.users) then
        // the distribution insert violates the creator's foreign key: nothing is written
        Reply(l, Err(ServerError))
      else
        var dist := NewDistribution(l, actor, req, c);
        var entry := DistributionAudit(actor, dist.id, c);
        match PayoutLoop(Staged(l, actor, req), dist.id, c.lines, 0, fault)
        case Ok(done) =>
          Reply(done.(audit := l.audit + [entry]), Ok(Distributed(dist.id, |c.lines|, c.totalToDistribute)))
        case Err(_) =>
          // rolled back; the audit entry names an id no later row will reuse
          Reply(l.(audit := l.audit + [entry], nextId := l.nextId + 1), Err(ServerError))
  }

  /**
   * The distribute route as written: inside the transaction callback the audit call
   * reads `distribution`, the constant the transaction's result will initialise, so
   * the read throws before the audit entry is written; the transaction rolls back
   * and the route answers 500. No request reaching the transaction can succeed.
   */
  function DistributeAsWritten(l: Ledger, actor: Id, req: ProfitRequest, fault: Option<nat>): (r: Reply<Distributed>)
    ensures r.ledger == l
    ensures !Complete(req) ==> r.response == Err(MissingFields)
    ensures Complete(req) ==> r.response == Err(ServerError)
  {
    if !Complete(req) then Reply(l, Err(MissingFields))
    else if actor !in UserIds(l.users) then
      Reply(l, Err(ServerError))
    else
      // the distribution insert succeeds on the working copy; reading `distribution`
      // throws next, and the working copy is discarded
      Reply(l, Err(ServerError))
  }

  lemma {:induction false} CreditToAbsent(ls: seq<Line>, id: Id)
    requires forall k :: 0 <= k < |ls| ==> ls[k].userId != id
    ensures CreditTo(ls, id) == 0.0
    decreases |ls|
  {
    if |ls| > 0 {
      CreditToAbsent(ls[1..], id);
    }
  }

  /**
   * A fault-free payout loop over lines that name existing users succeeds, and
   * leaves each user's profit balance raised by what the lines credit to that user.
   */
  lemma {:induction false} PayoutLoopCredits(w: Ledger, distId: Id, ls: seq<Line>, step: nat, fault: Option<nat>)
    requires UniqueUsers(w.users)
    requires forall k :: 0 <= k < |ls| ==> ls[k].userId in UserIds(w.users)
    requires fault.None? || fault.value < step || fault.value >= step + |ls|
    ensures var r := PayoutLoop(w, distId, ls, step, fault);
      && r.Ok?
      && |r.value.users| == |w.users|
      && forall k :: 0 <= k < |w.users| ==>
           r.value.users[k] == w.users[k].(profitBalance := w.users[k].profitBalance + CreditTo(ls, w.users[k].id))
    decreases |ls|
  {
    if |ls| > 0 {
      var i := FindUser(w.users, ls[0].userId).value;
      var next := PayStep(w, distId, ls[0], i);
      SameIdsKeepLookups(w.users, next.users);
      PayoutLoopCredits(next, distId, ls[1..], step + 1, fault);
      var r := PayoutLoop(next, distId, ls[1..], step + 1, fault);
      forall k | 0 <= k < |w.users|
        ensures r.value.users[k] == w.users[k].(profitBalance := w.users[k].profitBalance + CreditTo(ls, w.users[k].id))
      {
        if k == i {
          assert w.users[k].id == ls[0].userId;
        } else {
          assert w.users[k].id != ls[0].userId;
        }
      }
    }
  }

  /** The lines of the eligible users credit each user its own share, or nothing if not eligible. */
  lemma {:induction false} EligibleCredit(us: seq<User>, percent: real, k: nat)
    requires UniqueUsers(us)
    requires k < |us|
    ensures CreditTo(Lines(Eligible(us), percent), us[k].id) == EligibleShare(us[k], percent)
    decreases |us|
  {
    var t := us[1..];
    var et := Eligible(t);
    HeadKeysNotInTail(us);
    if us[0].investmentBalance > 0.0 {
      assert Eligible(us) == [us[0]] + et;
      assert Lines(Eligible(us), percent) == [LineOf(us[0], percent)] + Lines(et, percent);
    } else {
      assert Eligible(us) == et;
    }
    if k == 0 {
      forall j | 0 <= j < |Lines(et, percent)| ensures Lines(et, percent)[j].userId != us[0].id {
        assert et[j] in t;
      }
      CreditToAbsent(Lines(et, percent), us[0].id);
    } else {
      assert t[k - 1] == us[k];
      EligibleCredit(t, percent, k - 1);
    }
  }

  /** The preview lines name only existing users. */
  lemma LinesNameUsers(us: seq<User>, percent: real)
    ensures forall k :: 0 <= k < |Calculate(us, percent).lines| ==> Calculate(us, percent).lines[k].userId in UserIds(us)
  {
    PreviewLinesMatchTheirUsers(us, percent);
  }

  /** A fault-free payout loop over the preview credits each user what the preview lines name. */
  lemma CommitLoopCredits(l: Ledger, actor: Id, req: ProfitRequest, fault: Option<nat>)
    requires UniqueUsers(l.users)
    requires Complete(req)
    requires NoFault(fault, |Calculate(l.users, req.distributionPercent.value).lines|)
    ensures var c := Calculate(l.users, req.distributionPercent.value);
      var loop := PayoutLoop(Staged(l, actor, req), l.nextId, c.lines, 0, fault);
      && loop.Ok?
      && |loop.value.users| == |l.users|
      && forall k :: 0 <= k < |l.users| ==>
           loop.value.users[k] == l.users[k].(profitBalance := l.users[k].profitBalance + CreditTo(c.lines, l.users[k].id))
  {
    var percent := req.distributionPercent.value;
    LinesNameUsers(l.users, percent);
    PayoutLoopCredits(Staged(l, actor, req), l.nextId, Calculate(l.users, percent).lines, 0, fault);
  }

  /** When the payout loop succeeds, the route commits the loop's user table. */
  lemma DistributeCommitsLoop(l: Ledger, actor: Id, req: ProfitRequest, fault: Option<nat>)
    requires Complete(req)
    requires actor in UserIds(l.users)
    requires PayoutLoop(Staged(l, actor, req), l.nextId, Calculate(l.users, req.distributionPercent.value).lines, 0, fault).Ok?
    ensures var r := Distribute(l, actor, req, fault);
      && r.response.Ok?
      && r.ledger.users == PayoutLoop(Staged(l, actor, req), l.nextId, Calculate(l.users, req.distributionPercent.value).lines, 0, fault).value.users
  {
  }

  /**
   * A complete request from an existing admin, with no store failure, commits: each
   * user with a positive investment balance gains exactly its share in profit
   * balance, and every other user, and every investment balance, is unchanged.
   */
  lemma DistributeCreditsEachShare(l: Ledger, actor: Id, req: ProfitRequest, fault: Option<nat>)
    requires UsersValid(l)
    requires Complete(req)
    requires actor in UserIds(l.users)
    requires NoFault(fault, |Calculate(l.users, req.distributionPercent.value).lines|)
    ensures var r := Distribute(l, actor, req, fault);
      && r.response.Ok?
      && |r.ledger.users| == |l.users|
      && forall k :: 0 <= k < |l.users| ==>
           r.ledger.users[k] == l.users[k].(profitBalance := l.users[k].profitBalance +
             EligibleShare(l.users[k], req.distributionPercent.value))
  {
    var percent := req.distributionPercent.value;
    var c := Calculate(l.users, percent);
    CommitLoopCredits(l, actor, req, fault);
    DistributeCommitsLoop(l, actor, req, fault);
    forall k | 0 <= k < |l.users|
      ensures CreditTo(c.lines, l.users[k].id) == EligibleShare(l.users[k], percent)
    {
      EligibleCredit(l.users, percent, k);
    }
  }

  /** When the payout loop fails, the route rolls back and keeps only the audit entry. */
  lemma DistributeRollsBackLoop(l: Ledger, actor: Id, req: ProfitRequest, fault: Option<nat>)
    requires Complete(req)
    requires actor in UserIds(l.users)
    requires PayoutLoop(Staged(l, actor, req), l.nextId, Calculate(l.users, req.distributionPercent.value).lines, 0, fault).Err?
    ensures Distribute(l, actor, req, fault)
         == Reply(l.(audit := l.audit + [DistributionAudit(actor, l.nextId, Calculate(l.users, req.distributionPercent.value))],
                     nextId := l.nextId + 1),
                  Err(ServerError))
  {
  }

  /** A store failure at any payout step rolls back every table, leaving one stray audit entry. */
  lemma DistributeFaultRollsBack(l: Ledger, actor: Id, req: ProfitRequest, k: nat)
    requires Complete(req)
    requires actor in UserIds(l.users)
    requires k < |Calculate(l.users, req.distributionPercent.value).lines|
    ensures var r := Distribute(l, actor, req, Some(k));
      && r.response == Err(ServerError)
      && r.ledger == l.(audit := r.ledger.audit, nextId := l.nextId + 1)
      && |r.ledger.audit| == |l.audit| + 1
  {
    var percent := req.distributionPercent.value;
    PayoutLoopFails(Staged(l, actor, req), l.nextId, Calculate(l.users, percent).lines, 0, k);
    DistributeRollsBackLoop(l, actor, req, Some(k));
  }

  /** A payout loop that succeeds met no store failure at any of its steps. */
  lemma {:induction false} PayoutLoopOkHasNoFault(w: Ledger, distId: Id, ls: seq<Line>, step: nat, fault: Option<nat>)
    requires PayoutLoop(w, distId, ls, step, fault).Ok?
    ensures fault.None? || fault.value < step || fault.value >= step + |ls|
    decreases |ls|
  {
    if |ls| > 0 {
      assert fault != Some(step) && FindUser(w.users, ls[0].userId).Some?;
      var next := PayStep(w, distId, ls[0], FindUser(w.users, ls[0].userId).value);
      PayoutLoopStep(w, distId, ls, step, fault);
      PayoutLoopOkHasNoFault(next, distId, ls[1..], step + 1, fault);
    }
  }

  /**
   * The payout loop fails when the store fails at one of its steps (an earlier step
   * whose user is missing fails too).
   */
  lemma {:induction false} PayoutLoopFails(w: Ledger, distId: Id, ls: seq<Line>, step: nat, k: nat)
    requires step <= k < step + |ls|
    ensures PayoutLoop(w, distId, ls, step, Some(k)).Err?
    decreases |ls|
  {
    if k == step {
      assert PayoutLoop(w, distId, ls, step, Some(k)).Err?;
    } else {
      match FindUser(w.users, ls[0].userId)
      case None =>
        assert PayoutLoop(w, distId, ls, step, Some(k)).Err?;
      case Some(i) =>
        PayoutLoopStep(w, distId, ls, step, Some(k));
        PayoutLoopFails(PayStep(w, distId, ls[0], i), distId, ls[1..], step + 1, k);
        assert PayoutLoop(w, distId, ls, step, Some(k)).Err?;
    }
  }

  lemma {:induction false} PayoutRecordsTotal(distId: Id, ls: seq<Line>)
    ensures SumOf(PayoutRecords(distId, ls), PayoutShare) == SumOf(ls, ShareOf)
    decreases |ls|
  {
    if |ls| > 0 {
      assert PayoutRecords(distId, ls)[1..] == PayoutRecords(distId, ls[1..]);
      PayoutRecordsTotal(distId, ls[1..]);
    }
  }

  /** A successful reply is the payout loop's ledger with the audit entry added. */
  lemma DistributeOkIsLoop(l: Ledger, actor: Id, req: ProfitRequest, fault: Option<nat>)
    requires Distribute(l, actor, req, fault).response.Ok?
    ensures Complete(req) && actor in UserIds(l.users)
    ensures var c := Calculate(l.users, req.distributionPercent.value);
      var loop := PayoutLoop(Staged(l, actor, req), l.nextId, c.lines, 0, fault);
      && loop.Ok?
      && Distribute(l, actor, req, fault)
         == Reply(loop.value.(audit := l.audit + [DistributionAudit(actor, l.nextId, c)]),
                  Ok(Distributed(l.nextId, |c.lines|, c.totalToDistribute)))
  {
  }

  /**
   * After a commit, the new payouts' shares add up to the new distribution's
   * `totalDistributed`, which is its pool (the sum of the eligible balances)
   * times the fraction, and its recipient count is the number of new payouts.
   */
  lemma DistributionMatchesItsPayouts(l: Ledger, actor: Id, req: ProfitRequest, fault: Option<nat>)
    requires Distribute(l, actor, req, fault).response.Ok?
    ensures var r := Distribute(l, actor, req, fault);
      var d := r.ledger.distributions[|l.distributions|];
      var added := r.ledger.payouts[|l.payouts|..];
      && d.id == r.response.value.distributionId
      && d.status == "distributed"
      && d.createdById == actor
      && SumOf(added, PayoutShare) == d.totalDistributed
      && d.investmentPool == SumOf(Eligible(l.users), InvestmentOf)
      && d.distributionPercent == req.distributionPercent.value
      && d.totalDistributed == Share(d.investmentPool, d.distributionPercent)
      && d.recipientsCount == |added|
      && forall k :: 0 <= k < |added| ==> added[k].distributionId == d.id
  {
    var r := Distribute(l, actor, req, fault);
    var c := Calculate(l.users, req.distributionPercent.value);
    var d := NewDistribution(l, actor, req, c);
    assert r.ledger.distributions[|l.distributions|] == d;
    assert r.ledger.payouts[|l.payouts|..] == PayoutRecords(l.nextId, c.lines);
    PayoutRecordsTotal(l.nextId, c.lines);
  }

  /** The payouts committed are the calculate route's preview, less the e-mail, for the same ledger and percent. */
  lemma PayoutsAreThePreview(l: Ledger, actor: Id, req: ProfitRequest, fault: Option<nat>)
    requires Distribute(l, actor, req, fault).response.Ok?
    ensures var added := Distribute(l, actor, req, fault).ledger.payouts[|l.payouts|..];
      var preview := CalculateRoute(l, req).value.lines;
      && |added| == |preview|
      && forall k :: 0 <= k < |added| ==>
           && added[k].userId == preview[k].userId
           && added[k].investmentSnapshot == preview[k].investmentSnapshot
           && added[k].shareAmount == preview[k].shareAmount
  {
    var r := Distribute(l, actor, req, fault);
    var c := Calculate(l.users, req.distributionPercent.value);
    assert r.ledger.payouts[|l.payouts|..] == PayoutRecords(l.nextId, c.lines);
  }

  /** What a distribution at `percent` credits to `u`: its share if eligible, else nothing. */
  function EligibleShare(u: User, percent: real): real {
    if u.investmentBalance > 0.0 then Share(u.investmentBalance, percent) else 0.0
  }

  /** The sum of the eligible shares over a user table. */
  function ShareTotal(us: seq<User>, percent: real): real
    decreases |us|
  {
    if |us| == 0 then 0.0 else EligibleShare(us[0], percent) + ShareTotal(us[1..], percent)
  }

  lemma {:induction false} ShareTotalIsPreviewTotal(us: seq<User>, percent: real)
    ensures ShareTotal(us, percent) == SumOf(Lines(Eligible(us), percent), ShareOf)
    decreases |us|
  {
    if |us| > 0 {
      var t := us[1..];
      ShareTotalIsPreviewTotal(t, percent);
      if us[0].investmentBalance > 0.0 {
        assert Eligible(us) == [us[0]] + Eligible(t);
        assert Lines(Eligible(us), percent) == [LineOf(us[0], percent)] + Lines(Eligible(t), percent);
      } else {
        assert Eligible(us) == Eligible(t);
      }
    }
  }

  /** Summing profit balances over users whose balances rose by their eligible share. */
  lemma {:induction false} ProfitSumAfterCredit(us: seq<User>, vs: seq<User>, percent: real)
    requires |vs| == |us|
    requires forall k :: 0 <= k < |us| ==> vs[k].profitBalance == us[k].profitBalance + EligibleShare(us[k], percent)
    ensures SumOf(vs, ProfitOf) == SumOf(us, ProfitOf) + ShareTotal(us, percent)
    decreases |us|
  {
    if |us| > 0 {
      var t, w := us[1..], vs[1..];
      forall k | 0 <= k < |t| ensures w[k].profitBalance == t[k].profitBalance + EligibleShare(t[k], percent) {
        assert t[k] == us[k + 1] && w[k] == vs[k + 1];
      }
      ProfitSumAfterCredit(t, w, percent);
    }
  }

  /** A commit adds exactly `totalDistributed` to the sum of all profit balances. */
  lemma DistributeConservesMoney(l: Ledger, actor: Id, req: ProfitRequest, fault: Option<nat>)
    requires UsersValid(l)
    requires Complete(req)
    requires actor in UserIds(l.users)
    requires NoFault(fault, |Calculate(l.users, req.distributionPercent.value).lines|)
    ensures var r := Distribute(l, actor, req, fault);
      && r.response.Ok?
      && SumOf(r.ledger.users, ProfitOf) == SumOf(l.users, ProfitOf) + r.response.value.totalDistributed
      && SumOf(r.ledger.users, InvestmentOf) == SumOf(l.users, InvestmentOf)
  {
    var percent := req.distributionPercent.value;
    var r := Distribute(l, actor, req, fault);
    DistributeCreditsEachShare(l, actor, req, fault);
    ProfitSumAfterCredit(l.users, r.ledger.users, percent);
    ShareTotalIsPreviewTotal(l.users, percent);
    InvestmentSumUnchanged(l.users, r.ledger.users);
  }

  lemma {:induction false} InvestmentSumUnchanged(us: seq<User>, vs: seq<User>)
    requires |vs| == |us|
    requires forall k :: 0 <= k < |us| ==> vs[k].investmentBalance == us[k].investmentBalance
    ensures SumOf(vs, InvestmentOf) == SumOf(us, InvestmentOf)
    decreases |us|
  {
    if |us| > 0 {
      InvestmentSumUnchanged(us[1..], vs[1..]);
    }
  }

  /** Adding one distribution created by an existing user, with payouts to it and to existing users, keeps validity. */
  lemma ValidAfterCommit(l: Ledger, l': Ledger, d: Distribution, ps: seq<Payout>)
    requires Valid(l)
    requires SameIds(l.users, l'.users)
    requires l'.deposits == l.deposits && l'.withdrawals == l.withdrawals
    requires l'.clock == l.clock && l'.nextId == l.nextId + 1
    requires d.id == l.nextId && d.createdById in UserIds(l.users)
    requires l'.distributions == l.distributions + [d]
    requires l'.payouts == l.payouts + ps
    requires forall k :: 0 <= k < |ps| ==> ps[k].distributionId == d.id && ps[k].userId in UserIds(l.users)
    ensures Valid(l')
  {
    SameIdsKeepLookups(l.users, l'.users);
    DistributionIdsAppend(l.distributions, d);
    assert UsersValid(l') by {
      forall k | 0 <= k < |l'.users| ensures l'.users[k].id < l'.nextId {
        assert l'.users[k].id == l.users[k].id;
      }
    }
    assert DistributionsValid(l') by {
      forall k | 0 <= k < |l'.payouts|
        ensures l'.payouts[k].distributionId in DistributionIds(l'.distributions)
        ensures l'.payouts[k].userId in UserIds(l'.users)
      {
        if k >= |l.payouts| {
          assert l'.payouts[k] == ps[k - |l.payouts|];
        }
      }
    }
  }

  /** A distribute request, committed or not, keeps the schema's integrity rules. */
  lemma DistributeKeepsValid(l: Ledger, actor: Id, req: ProfitRequest, fault: Option<nat>)
    requires Valid(l)
    ensures Valid(Distribute(l, actor, req, fault).ledger)
  {
    var r := Distribute(l, actor, req, fault);
    if r.response.Ok? {
      var c := Calculate(l.users, req.distributionPercent.value);
      var ps := PayoutRecords(l.nextId, c.lines);
      LinesNameUsers(l.users, req.distributionPercent.value);
      ValidAfterCommit(l, r.ledger, NewDistribution(l, actor, req, c), ps);
    } else {
      ValidWithoutTableChange(l, r.ledger);
    }
  }
}
