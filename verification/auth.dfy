/**
 * The authentication middleware: the bearer token taken from the `Authorization`
 * header, the local user found or created for the token's subject, and the role
 * gate in front of every admin route.
 *
 * Signature, issuer and algorithm checks need keys fetched over the network; they
 * are a parameter here, `verify`, which answers the claims of a token it accepts
 * and nothing for a token it refuses.
 */
module Auth {
  import opened Wrappers
  import opened Text
  import opened Records

  /** The claims of an accepted token: the subject (the external user id) and the e-mail. */
  datatype Claims = Claims(sub: Option<string>, email: Option<string>)

  const MissingToken := Failure(401, "Missing authorization token")
  const InvalidToken := Failure(401, "Invalid or expired token")
  const InvalidStructure := Failure(401, "Invalid Clerk token structure")
  const NotAuthenticated := Failure(401, "Not authenticated")
  const AdminRequired := Failure(403, "Admin access required")

  const BearerPrefix := "Bearer "

  /**
   * The token of a request: the header with its first `"Bearer "` removed, wherever
   * that occurrence is; a header without one is the token as it stands.
   */
  function TokenOf(authorization: Option<string>): (r: Option<string>)
    ensures authorization.None? <==> r.None?
    ensures authorization.Some? && IndexOf(authorization.value, BearerPrefix).None? ==> r == authorization
    ensures authorization.Some? && IndexOf(authorization.value, BearerPrefix).Some? ==>
              var i := IndexOf(authorization.value, BearerPrefix).value;
              && r.value == authorization.value[..i] + authorization.value[i + |BearerPrefix|..]
              && |r.value| == |authorization.value| - |BearerPrefix|
  {
    match authorization
    case None => None
    case Some(h) => Some(ReplaceFirst(h, BearerPrefix, ""))
  }

  /** A header of the form `Bearer <t>` yields exactly `t`. */
  lemma TokenOfBearer(t: string)
    ensures TokenOf(Some(BearerPrefix + t)) == Some(t)
  {
    var h := BearerPrefix + t;
    assert h[0..|BearerPrefix|] == BearerPrefix;
    assert OccursAt(h, BearerPrefix, 0);
    assert IndexOf(h, BearerPrefix) == Some(0);
    assert ReplaceFirst(h, BearerPrefix, "") == h[..0] + "" + h[|BearerPrefix|..];
    assert h[..0] + "" + h[|BearerPrefix|..] == t;
  }

  /** The prefix is removed wherever it first occurs, not only at the start. */
  lemma TokenOfRemovesInnerPrefix(a: string, t: string)
    requires forall j :: !OccursAt(a, BearerPrefix, j)
    requires |a| > 0 && a[|a| - 1] == ' '
    ensures TokenOf(Some(a + BearerPrefix + t)) == Some(a + t)
  {
    var h := a + BearerPrefix + t;
    var n := |a|;
    assert OccursAt(h, BearerPrefix, n) by {
      assert h[n..n + |BearerPrefix|] == BearerPrefix;
    }
    // an occurrence inside `a` contradicts the first requirement; one straddling the
    // end of `a` would put the final space of `a` before the end of the prefix
    forall j | 0 <= j < n ensures !OccursAt(h, BearerPrefix, j) {
      if j + |BearerPrefix| <= n {
        assert h[j..j + |BearerPrefix|] == a[j..j + |BearerPrefix|];
        assert !OccursAt(a, BearerPrefix, j);
      } else {
        var o := n - 1 - j;
        assert BearerPrefix[o] != ' ' && h[n - 1] == ' ';
        assert h[j..j + |BearerPrefix|][o] == h[n - 1];
      }
    }
    var i := IndexOf(h, BearerPrefix).value;
    assert i == n;
    assert ReplaceFirst(h, BearerPrefix, "") == h[..n] + "" + h[n + |BearerPrefix|..];
    assert h[..n] + "" + h[n + |BearerPrefix|..] == a + t;
  }

  /** The user row the middleware creates for a subject seen for the first time. */
  function NewClient(l: Ledger, clerkId: string, email: Option<string>): User {
    User(l.nextId, clerkId, email, Client, 0.0, 0.0)
  }

  /**
   * `requireAuth`: refuses a request without a usable token, with a token `verify`
   * refuses, or with claims lacking a subject (401 each); otherwise attaches the user
   * holding that subject, creating a client with zero balances when there is none.
   */
  function RequireAuth(l: Ledger, authorization: Option<string>, verify: string -> Option<Claims>): (r: Reply<User>)
    ensures r.response.Err? ==> r.ledger == l
    ensures !TruthyText(TokenOf(authorization)) <==> r.response == Err(MissingToken)
    ensures TruthyText(TokenOf(authorization)) ==>
              (verify(TokenOf(authorization).value).None? <==> r.response == Err(InvalidToken))
    ensures TruthyText(TokenOf(authorization)) && verify(TokenOf(authorization).value).Some? ==>
              (!TruthyText(verify(TokenOf(authorization).value).value.sub) <==> r.response == Err(InvalidStructure))
    ensures r.response.Ok? ==>
              && TruthyText(TokenOf(authorization))
              && verify(TokenOf(authorization).value).Some?
              && var claims := verify(TokenOf(authorization).value).value;
                 && TruthyText(claims.sub)
                 && r.response.value.clerkId == claims.sub.value
                 && FindClerk(r.ledger.users, claims.sub.value).Some?
                 && r.ledger.users[FindClerk(r.ledger.users, claims.sub.value).value] == r.response.value
    ensures r.response.Ok? ==>
              || (r.ledger == l && r.response.value in l.users)
              || (&& r.ledger == l.(users := l.users + [r.response.value], nextId := l.nextId + 1)
                  && r.response.value.role == Client
                  && r.response.value.investmentBalance == 0.0
                  && r.response.value.profitBalance == 0.0)
  {
    var token := TokenOf(authorization);
    if !TruthyText(token) then Reply(l, Err(MissingToken))
    else
      match verify(token.value)
      case None => Reply(l, Err(InvalidToken))
      case Some(claims) =>
        if !TruthyText(claims.sub) then Reply(l, Err(InvalidStructure))
        else
          match FindClerk(l.users, claims.sub.value)
          case Some(i) => Reply(l, Ok(l.users[i]))
          case None =>
            var u := NewClient(l, claims.sub.value, claims.email);
            var users := l.users + [u];
            assert FindClerk(users, u.clerkId) == Some(|l.users|) by {
              assert users[|l.users|].clerkId == u.clerkId;
            }
            Reply(l.(users := users, nextId := l.nextId + 1), Ok(u))
  }

  predicate IsAdmin(role: Role) {
    role == Admin || role == SuperAdmin
  }

  /** `requireAdmin`: 401 without a user, through for admins and superadmins, 403 for anyone else. */
  function RequireAdmin(user: Option<User>): (r: Result<User, Failure>)
    ensures user.None? ==> r == Err(NotAuthenticated)
    ensures user.Some? ==> (r.Ok? <==> IsAdmin(user.value.role))
    ensures user.Some? && !IsAdmin(user.value.role) ==> r == Err(AdminRequired)
    ensures r.Ok? ==> r.value == user.value
  {
    match user
    case None => Err(NotAuthenticated)
    case Some(u) => if IsAdmin(u.role) then Ok(u) else Err(AdminRequired)
  }

  /**
   * The two middlewares in front of an admin route. A user created by the first
   * stays created when the second refuses the request.
   */
  function AdminGate(l: Ledger, authorization: Option<string>, verify: string -> Option<Claims>): (r: Reply<User>)
    ensures r.ledger == RequireAuth(l, authorization, verify).ledger
    ensures r.response.Ok? <==> RequireAuth(l, authorization, verify).response.Ok?
                                && IsAdmin(RequireAuth(l, authorization, verify).response.value.role)
  {
    var a := RequireAuth(l, authorization, verify);
    match a.response
    case Err(e) => a
    case Ok(u) => Reply(a.ledger, RequireAdmin(Some(u)))
  }

  /** A second request with the same header finds the user the first attached, and writes nothing. */
  lemma RequireAuthIdempotent(l: Ledger, authorization: Option<string>, verify: string -> Option<Claims>)
    requires RequireAuth(l, authorization, verify).response.Ok?
    ensures var r := RequireAuth(l, authorization, verify);
      RequireAuth(r.ledger, authorization, verify) == r
  {
    var r := RequireAuth(l, authorization, verify);
    var sub := verify(TokenOf(authorization).value).value.sub.value;
    var i := FindClerk(r.ledger.users, sub).value;
    assert r.ledger.users[i] == r.response.value;
  }

  /** A known subject attaches the existing row and creates nothing. */
  lemma KnownSubjectCreatesNothing(l: Ledger, authorization: Option<string>, verify: string -> Option<Claims>, k: nat)
    requires k < |l.users|
    requires TruthyText(TokenOf(authorization))
    requires verify(TokenOf(authorization).value).Some?
    requires verify(TokenOf(authorization).value).value.sub == Some(l.users[k].clerkId)
    requires UniqueUsers(l.users)
    requires l.users[k].clerkId != ""
    ensures RequireAuth(l, authorization, verify) == Reply(l, Ok(l.users[k]))
  {
    var i := FindClerk(l.users, l.users[k].clerkId).value;
    assert i == k;
  }

  /** An unknown subject creates exactly one client row, with the token's e-mail and zero balances. */
  lemma UnknownSubjectCreatesClient(l: Ledger, authorization: Option<string>, verify: string -> Option<Claims>, sub: string)
    requires TruthyText(TokenOf(authorization))
    requires verify(TokenOf(authorization).value).Some?
    requires verify(TokenOf(authorization).value).value.sub == Some(sub)
    requires sub != ""
    requires forall k :: 0 <= k < |l.users| ==> l.users[k].clerkId != sub
    ensures var email := verify(TokenOf(authorization).value).value.email;
      RequireAuth(l, authorization, verify)
        == Reply(l.(users := l.users + [User(l.nextId, sub, email, Client, 0.0, 0.0)], nextId := l.nextId + 1),
                 Ok(User(l.nextId, sub, email, Client, 0.0, 0.0)))
  {
  }

  /** A subject seen for the first time is a client: the gate refuses it with 403, after creating its row. */
  lemma NewSubjectIsRefusedByGate(l: Ledger, authorization: Option<string>, verify: string -> Option<Claims>, sub: string)
    requires TruthyText(TokenOf(authorization))
    requires verify(TokenOf(authorization).value).Some?
    requires verify(TokenOf(authorization).value).value.sub == Some(sub)
    requires sub != ""
    requires forall k :: 0 <= k < |l.users| ==> l.users[k].clerkId != sub
    ensures var r := AdminGate(l, authorization, verify);
      && r.response == Err(AdminRequired)
      && |r.ledger.users| == |l.users| + 1
  {
    UnknownSubjectCreatesClient(l, authorization, verify, sub);
  }

  /** Finding or creating the user keeps the schema's integrity rules. */
  lemma RequireAuthKeepsValid(l: Ledger, authorization: Option<string>, verify: string -> Option<Claims>)
    requires Valid(l)
    ensures Valid(RequireAuth(l, authorization, verify).ledger)
  {
    var r := RequireAuth(l, authorization, verify);
    if r.ledger != l {
      var u := r.response.value;
      var l' := r.ledger;
      assert l' == l.(users := l.users + [u], nextId := l.nextId + 1);
      UserIdsAppend(l.users, u);
      assert u.id == l.nextId;
      var sub := verify(TokenOf(authorization).value).value.sub.value;
      assert FindClerk(l.users, sub).None?;
      assert UniqueUsers(l'.users) by {
        forall i, j | 0 <= i < j < |l'.users|
          ensures l'.users[i].id != l'.users[j].id && l'.users[i].clerkId != l'.users[j].clerkId
        {
          if j == |l.users| {
            assert l'.users[i] == l.users[i];
          } else {
            assert l'.users[i] == l.users[i] && l'.users[j] == l.users[j];
          }
        }
      }
      assert UsersValid(l') by {
        forall k | 0 <= k < |l'.users| ensures l'.users[k].id < l'.nextId {
          if k < |l.users| {
            assert l'.users[k] == l.users[k];
          }
        }
      }
    }
  }
}
