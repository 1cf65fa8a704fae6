/**
 * The profit calculator shared by the calculate and distribute routes, and the
 * read-only calculate route (`POST /admin/profit/calculate`).
 *
 * The eligible users are those whose investment balance is strictly positive.
 * Each one's share is `investmentBalance * (distributionPercent / 100)`; the pool
 * and the total are exact running sums of the balances and of the shares.
 */
module ProfitCalculate {
  import opened Wrappers
  import opened Sums
  import opened Records

  /** The body of a calculate or distribute request; each field may be missing. */
  datatype ProfitRequest = ProfitRequest(
    declaredProfit: Option<real>,
    distributionPercent: Option<real>,
    distributionDate: Option<nat>)

  /** One previewed recipient. */
  datatype Line = Line(userId: Id, email: Option<string>, investmentSnapshot: real, shareAmount: real)

  datatype Calculation = Calculation(
    investmentPool: real,
    totalToDistribute: real,
    recipientsCount: nat,
    lines: seq<Line>)

  /** All three fields pass the `!field` guard. */
  predicate Complete(req: ProfitRequest) {
    TruthyNumber(req.declaredProfit) && TruthyNumber(req.distributionPercent) && TruthyDate(req.distributionDate)
  }

  /** A balance's share at a percent: the percent is first turned into a fraction. */
  function Share(balance: real, percent: real): real {
    balance * (percent / 100.0)
  }

  function ShareOf(ln: Line): real {
    ln.shareAmount
  }

  /** The users whose investment balance is above zero, in table order. */
  function Eligible(us: seq<User>): (r: seq<User>)
    ensures |r| <= |us|
    ensures forall u :: u in r <==> u in us && u.investmentBalance > 0.0
    decreases |us|
  {
    if |us| == 0 then []
    else
      assert us == [us[0]] + us[1..];
      if us[0].investmentBalance > 0.0 then [us[0]] + Eligible(us[1..]) else Eligible(us[1..])
  }

  function LineOf(u: User, percent: real): Line {
    Line(u.id, u.email, u.investmentBalance, Share(u.investmentBalance, percent))
  }

  /** One line per eligible user, in the same order. */
  function Lines(es: seq<User>, percent: real): (r: seq<Line>)
    ensures |r| == |es|
    ensures forall k :: 0 <= k < |r| ==> r[k] == LineOf(es[k], percent)
    decreases |es|
  {
    if |es| == 0 then [] else [LineOf(es[0], percent)] + Lines(es[1..], percent)
  }

  /** The shares add up to the pool times the fraction, exactly. */
  lemma {:induction false} TotalIsScaledPool(es: seq<User>, percent: real)
    ensures SumOf(Lines(es, percent), ShareOf) == Share(SumOf(es, InvestmentOf), percent)
    decreases |es|
  {
    if |es| > 0 {
      var ls := Lines(es, percent);
      assert ls[1..] == Lines(es[1..], percent);
      TotalIsScaledPool(es[1..], percent);
    }
  }

  /**
   * The calculator: the pool of eligible balances, the total of the shares and
   * the per-user lines. The total is the sum of the returned shares, and so the
   * pool times the fraction.
   */
  function Calculate(us: seq<User>, percent: real): (c: Calculation)
    ensures c.recipientsCount == |c.lines| == |Eligible(us)|
    ensures forall k :: 0 <= k < |c.lines| ==>
              && c.lines[k].userId == Eligible(us)[k].id
              && c.lines[k].investmentSnapshot == Eligible(us)[k].investmentBalance
              && c.lines[k].investmentSnapshot > 0.0
              && c.lines[k].shareAmount == Share(Eligible(us)[k].investmentBalance, percent)
    ensures c.investmentPool == SumOf(Eligible(us), InvestmentOf)
    ensures c.totalToDistribute == SumOf(c.lines, ShareOf)
    ensures c.totalToDistribute == Share(c.investmentPool, percent)
  {
    var es := Eligible(us);
    var lines := Lines(es, percent);
    TotalIsScaledPool(es, percent);
    Calculation(SumOf(es, InvestmentOf), SumOf(lines, ShareOf), |es|, lines)
  }

  /**
   * The calculator as the route writes it: one pass over the eligible users that
   * pushes a line and adds to two running totals. It computes exactly `Calculate`.
   */
  method CalculateByRunningTotals(us: seq<User>, percent: real) returns (c: Calculation)
    ensures c.investmentPool == SumOf(Eligible(us), InvestmentOf)
    ensures c.totalToDistribute == SumOf(c.lines, ShareOf)
    ensures c.recipientsCount == |Eligible(us)|
    ensures c == Calculate(us, percent)
  {
    var es := Eligible(us);
    var fraction := percent / 100.0;
    var pool := 0.0;
    var total := 0.0;
    var lines: seq<Line> := [];
    for k := 0 to |es|
      invariant pool == SumOf(es[..k], InvestmentOf)
      invariant lines == Lines(es[..k], percent)
      invariant total == SumOf(lines, ShareOf)
    {
      var u := es[k];
      pool := pool + u.investmentBalance;
      var share := u.investmentBalance * fraction;
      total := total + share;
      var ln := Line(u.id, u.email, u.investmentBalance, share);
      assert ln == LineOf(u, percent);
      SumOfAppend(es[..k], [u], InvestmentOf);
      SumOfAppend(lines, [ln], ShareOf);
      assert es[..k + 1] == es[..k] + [u];
      assert Lines(es[..k + 1], percent) == lines + [ln];
      lines := lines + [ln];
    }
    assert es[..|es|] == es;
    c := Calculation(pool, total, |es|, lines);
  }

  /** The calculate route's reply: 400 on a missing field, otherwise the preview. */
  function CalculateRoute(l: Ledger, req: ProfitRequest): (r: Result<Calculation, Failure>)
    ensures !Complete(req) <==> r == Err(MissingRequiredFields)
    ensures r.Ok? ==> r.value == Calculate(l.users, req.distributionPercent.value)
  {
    if !Complete(req) then Err(MissingRequiredFields)
    else Ok(Calculate(l.users, req.distributionPercent.value))
  }

  /** Under unique keys, the first row shares no key with any later row. */
  lemma HeadKeysNotInTail(us: seq<User>)
    requires UniqueUsers(us)
    requires |us| > 0
    ensures forall u :: u in us[1..] ==> u.id != us[0].id && u.clerkId != us[0].clerkId
    ensures UniqueUsers(us[1..])
  {
    var t := us[1..];
    forall u | u in t ensures u.id != us[0].id && u.clerkId != us[0].clerkId {
      var k :| 0 <= k < |t| && t[k] == u;
      assert t[k] == us[k + 1];
    }
    forall i, j | 0 <= i < j < |t| ensures t[i].id != t[j].id && t[i].clerkId != t[j].clerkId {
      assert t[i] == us[i + 1] && t[j] == us[j + 1];
    }
  }

  /** The eligible users keep unique ids: nobody is previewed twice. */
  lemma {:induction false} EligibleKeepsUnique(us: seq<User>)
    requires UniqueUsers(us)
    ensures UniqueUsers(Eligible(us))
    decreases |us|
  {
    if |us| > 0 {
      var t := us[1..];
      HeadKeysNotInTail(us);
      EligibleKeepsUnique(t);
      if us[0].investmentBalance > 0.0 {
        var rest := Eligible(t);
        var r := [us[0]] + rest;
        forall i, j | 0 <= i < j < |r| ensures r[i].id != r[j].id && r[i].clerkId != r[j].clerkId {
          assert r[j] == rest[j - 1] && rest[j - 1] in t;
          if i > 0 {
            assert r[i] == rest[i - 1];
          }
        }
      }
    }
  }

  /** The preview names exactly the users with a positive investment balance. */
  lemma PreviewNamesExactlyTheEligible(us: seq<User>, percent: real)
    requires UniqueUsers(us)
    ensures forall i :: 0 <= i < |us| ==>
              (us[i].investmentBalance > 0.0 <==>
                 exists k :: 0 <= k < |Calculate(us, percent).lines| && Calculate(us, percent).lines[k].userId == us[i].id)
  {
    var ls := Calculate(us, percent).lines;
    var es := Eligible(us);
    assert ls == Lines(es, percent);
    forall i | 0 <= i < |us|
      ensures us[i].investmentBalance > 0.0 <==> exists k :: 0 <= k < |ls| && ls[k].userId == us[i].id
    {
      if us[i].investmentBalance > 0.0 {
        assert us[i] in es;
        var k :| 0 <= k < |es| && es[k] == us[i];
        assert ls[k].userId == us[i].id;
      } else {
        forall k | 0 <= k < |ls| ensures ls[k].userId != us[i].id {
          assert es[k] in us;
          var j :| 0 <= j < |us| && us[j] == es[k];
          assert j != i;
        }
      }
    }
  }

  /**
   * Every preview line belongs to an eligible user and holds that user's balance
   * as snapshot and `balance * percent / 100` as share.
   */
  lemma PreviewLinesMatchTheirUsers(us: seq<User>, percent: real)
    ensures var ls := Calculate(us, percent).lines;
      forall k :: 0 <= k < |ls| ==>
        exists i :: 0 <= i < |us| && us[i].id == ls[k].userId && us[i].investmentBalance > 0.0
          && ls[k].investmentSnapshot == us[i].investmentBalance
          && ls[k].shareAmount == Share(us[i].investmentBalance, percent)
  {
    var ls := Calculate(us, percent).lines;
    var es := Eligible(us);
    assert ls == Lines(es, percent);
    forall k | 0 <= k < |ls|
      ensures exists i :: 0 <= i < |us| && us[i].id == ls[k].userId && us[i].investmentBalance > 0.0
                && ls[k].investmentSnapshot == us[i].investmentBalance
                && ls[k].shareAmount == Share(us[i].investmentBalance, percent)
    {
      var u := es[k];
      assert u in us;
      var i :| 0 <= i < |us| && us[i] == u;
      assert ls[k] == LineOf(u, percent);
      assert us[i].id == ls[k].userId && us[i].investmentBalance > 0.0;
    }
  }

  /** No user appears twice in the preview. */
  lemma PreviewNamesEachUserOnce(us: seq<User>, percent: real)
    requires UniqueUsers(us)
    ensures var ls := Calculate(us, percent).lines;
      forall k, m :: 0 <= k < m < |ls| ==> ls[k].userId != ls[m].userId
  {
    var ls := Calculate(us, percent).lines;
    var es := Eligible(us);
    assert ls == Lines(es, percent);
    EligibleKeepsUnique(us);
    forall k, m | 0 <= k < m < |ls| ensures ls[k].userId != ls[m].userId {
      assert ls[k].userId == es[k].id && ls[m].userId == es[m].id;
    }
  }

  /** A request missing a field is refused whatever the ledger holds: no user is read first. */
  lemma MissingFieldIgnoresLedger(l1: Ledger, l2: Ledger, req: ProfitRequest)
    requires !Complete(req)
    ensures CalculateRoute(l1, req) == CalculateRoute(l2, req) == Err(MissingRequiredFields)
  {
  }

  /** Only a user's id, email and investment balance enter the calculation. */
  ghost predicate SameInvestors(us: seq<User>, vs: seq<User>) {
    |us| == |vs| && forall k :: 0 <= k < |us| ==>
      us[k].id == vs[k].id && us[k].email == vs[k].email && us[k].investmentBalance == vs[k].investmentBalance
  }

  lemma {:induction false} EligibleOfSameInvestors(us: seq<User>, vs: seq<User>, percent: real)
    requires SameInvestors(us, vs)
    ensures Lines(Eligible(us), percent) == Lines(Eligible(vs), percent)
    ensures SumOf(Eligible(us), InvestmentOf) == SumOf(Eligible(vs), InvestmentOf)
    ensures |Eligible(us)| == |Eligible(vs)|
    decreases |us|
  {
    if |us| > 0 {
      EligibleOfSameInvestors(us[1..], vs[1..], percent);
      assert LineOf(us[0], percent) == LineOf(vs[0], percent);
    }
  }

  /**
   * The result depends on the balances and the percent only: not on the declared
   * profit, not on the date, not on roles or profit balances.
   */
  lemma CalculationDependsOnBalancesAndPercent(l1: Ledger, l2: Ledger, req1: ProfitRequest, req2: ProfitRequest)
    requires Complete(req1) && Complete(req2)
    requires req1.distributionPercent == req2.distributionPercent
    requires SameInvestors(l1.users, l2.users)
    ensures CalculateRoute(l1, req1) == CalculateRoute(l2, req2)
  {
    EligibleOfSameInvestors(l1.users, l2.users, req1.distributionPercent.value);
  }
}
