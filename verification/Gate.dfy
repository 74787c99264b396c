/** The request path: signature and expiry, then the revocation list, then the role's permissions. */
module Gate {
  import opened Domain
  import opened Store
  import Authz

  datatype Verdict = Admitted(claims: Claims) | Refused(status: nat)

  /** A token string carries the claims of the pair it was signed for, or no valid signature (None).
      Parse accepts it strictly before its expiry. */
  function Parse(issued: map<Id, Pair>, token: Option<Id>, at: Time): Option<Claims> {
    if token.Some? && token.value in issued && at < issued[token.value].claims.expiresAt
    then Some(issued[token.value].claims)
    else None
  }

  /** The Auth middleware. It fails closed: when Redis does not answer, a good token gets 503 and a bad one 401. */
  function Auth(st: State, token: Option<Id>, redisUp: bool, at: Time): (v: Verdict)
    ensures v.Admitted? <==> && token.Some? && token.value in st.issued && at < st.issued[token.value].claims.expiresAt
                             && redisUp && !IsListed(st.listed, token.value, at)
    ensures v.Admitted? ==> v.claims == st.issued[token.value].claims
    ensures v == Refused(503) <==> !redisUp && Parse(st.issued, token, at).Some?
    ensures v.Refused? ==> v.status == 401 || v.status == 503
  {
    var claims := Parse(st.issued, token, at);
    if claims.None? then Refused(401)
    else if !redisUp then Refused(503)
    else if IsListed(st.listed, token.value, at) then Refused(401)
    else Admitted(claims.value)
  }

  /** The Require middleware: the role comes from the token, not from the user's row. */
  function Require(policy: Authz.Policy, v: Verdict, resource: string, action: string): (r: Verdict)
    ensures r.Admitted? <==> v.Admitted? && Authz.PolicyAllows(policy, v.claims.role, resource, action)
    ensures r.Admitted? || v.Refused? ==> r == v
    ensures v.Admitted? && r.Refused? ==> r.status == 403
  {
    if v.Admitted? && !Authz.PolicyAllows(policy, v.claims.role, resource, action) then Refused(403) else v
  }

  /** What the browser is told a role may do is what the middleware lets it do: a request with the claims of an
      admitted token passes Require exactly when the pair's flat name is in the role's listing. */
  lemma ListingIsTheGate(role: Role, names: seq<string>, v: Verdict, resource: string, action: string)
    requires Authz.IsListing(Authz.DEFAULT_POLICY, role, names) && Authz.Plain(resource)
    requires v.Admitted? && v.claims.role == role
    ensures Require(Authz.DEFAULT_POLICY, v, resource, action).Admitted? <==> Authz.Name(resource, action) in names
  {
    forall res | Authz.Mentions(Authz.DEFAULT_POLICY[role], res)
      ensures Authz.Plain(res)
    {
      Authz.ShippedIsPlain(role, res);
    }
    Authz.ListingAnswers(Authz.DEFAULT_POLICY, role, names, resource, action);
  }
}
