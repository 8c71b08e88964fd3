/**
 * The claim-shape checks `_decode_jwt` runs on a payload that the signature
 * layer has already accepted (signature, `exp`, `nbf` and `iat` are checked
 * before this point and are not part of this module).
 */
module Claims {
  import opened Values

  const JtiMessage := "Missing or invalid claim: jti"
  const IdentityMessage := "Missing claim: identity"
  const TypeMessage := "Missing or invalid claim: type"
  const FreshMessage := "Missing or invalid claim: fresh"
  const UserClaimsMessage := "Missing or invalid claim: user_claims"

  datatype Checked = Ok(payload: Payload) | DecodeError(msg: string)

  predicate IsAccess(data: Payload)
  {
    "type" in data && data["type"] == JStr("access")
  }

  /**
   * The shape every accepted token has: a string `jti`, some `identity`, a
   * `type` of access or refresh, and for access tokens a bool `fresh` and a
   * dict `user_claims`. Refresh tokens are not asked for the last two.
   */
  predicate WellFormed(data: Payload)
  {
    && "jti" in data && data["jti"].JStr?
    && "identity" in data
    && "type" in data && data["type"] in {JStr("access"), JStr("refresh")}
    && (IsAccess(data) ==> "fresh" in data && data["fresh"].JBool?)
    && (IsAccess(data) ==> "user_claims" in data && data["user_claims"].JDict?)
  }

  /** The individual checks, each with its own error message. */
  datatype Check = JtiCheck | IdentityCheck | TypeCheck | FreshCheck | UserClaimsCheck

  /** The order in which the checks run: the first one that fails decides the error. */
  const CheckOrder: seq<Check> := [JtiCheck, IdentityCheck, TypeCheck, FreshCheck, UserClaimsCheck]

  predicate Passes(c: Check, data: Payload)
  {
    match c
    case JtiCheck => "jti" in data && data["jti"].JStr?
    case IdentityCheck => "identity" in data
    case TypeCheck => "type" in data && data["type"] in {JStr("access"), JStr("refresh")}
    case FreshCheck => IsAccess(data) ==> "fresh" in data && data["fresh"].JBool?
    case UserClaimsCheck => IsAccess(data) ==> "user_claims" in data && data["user_claims"].JDict?
  }

  function Message(c: Check): string
  {
    match c
    case JtiCheck => JtiMessage
    case IdentityCheck => IdentityMessage
    case TypeCheck => TypeMessage
    case FreshCheck => FreshMessage
    case UserClaimsCheck => UserClaimsMessage
  }

  /** Check `CheckOrder[i]` is the first one that `data` fails. */
  predicate FirstFailure(data: Payload, i: int)
    requires 0 <= i < |CheckOrder|
  {
    !Passes(CheckOrder[i], data) && forall j | 0 <= j < i :: Passes(CheckOrder[j], data)
  }

  /**
   * `_decode_jwt` after `jwt.decode`: the payload comes back unchanged exactly
   * when it is well formed; otherwise the first failing check names the error.
   */
  function ValidateClaims(data: Payload): (r: Checked)
    ensures r.Ok? <==> WellFormed(data)
    ensures r.Ok? ==> r.payload == data
    ensures forall i | 0 <= i < |CheckOrder| && FirstFailure(data, i) ::
              r == DecodeError(Message(CheckOrder[i]))
  {
    assert CheckOrder[0] == JtiCheck && CheckOrder[1] == IdentityCheck && CheckOrder[2] == TypeCheck
      && CheckOrder[3] == FreshCheck && CheckOrder[4] == UserClaimsCheck;
    if !("jti" in data && data["jti"].JStr?) then DecodeError(JtiMessage)
    else if "identity" !in data then DecodeError(IdentityMessage)
    else if !("type" in data && data["type"] in {JStr("refresh"), JStr("access")}) then DecodeError(TypeMessage)
    else if data["type"] == JStr("access") && !("fresh" in data && data["fresh"].JBool?) then DecodeError(FreshMessage)
    else if data["type"] == JStr("access") && !("user_claims" in data && data["user_claims"].JDict?) then DecodeError(UserClaimsMessage)
    else Ok(data)
  }

  /** Every rejected payload is rejected by the first check it fails, and there is one. */
  lemma RejectionNamesFirstFailure(data: Payload)
    requires !WellFormed(data)
    ensures exists i | 0 <= i < |CheckOrder| :: FirstFailure(data, i)
                                             && ValidateClaims(data) == DecodeError(Message(CheckOrder[i]))
  {
    if !Passes(JtiCheck, data) {
      assert FirstFailure(data, 0);
    } else if !Passes(IdentityCheck, data) {
      assert FirstFailure(data, 1);
    } else if !Passes(TypeCheck, data) {
      assert FirstFailure(data, 2);
    } else if !Passes(FreshCheck, data) {
      assert FirstFailure(data, 3);
    } else {
      assert FirstFailure(data, 4);
    }
  }

  /**
   * A refresh token is never checked for `fresh` or `user_claims`: setting
   * either claim to anything does not change the verdict.
   */
  lemma RefreshIgnoresAccessClaims(data: Payload, k: string, v: Value)
    requires "type" in data && data["type"] == JStr("refresh")
    requires k == "fresh" || k == "user_claims"
    ensures ValidateClaims(data[k := v]).Ok? == ValidateClaims(data).Ok?
    ensures ValidateClaims(data).DecodeError? ==> ValidateClaims(data[k := v]) == ValidateClaims(data)
  {
  }
}
