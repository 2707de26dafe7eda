/**
 * The login page (frontend/src/pages/LoginPage.jsx): the fixed credential
 * list, the trimmed and upper-cased comparison, the state change of
 * `handleLogin`, and the page `handleStart` navigates to.
 */
module LoginPage {
  import opened Wrappers
  import opened JsText

  datatype Credential = Credential(id: string, password: string)

  const ValidCredentials: seq<Credential> := [Credential("ADMIN", "ADMIN"), Credential("M24DE3076", "M24DE3076")]

  const AuthKey := "lidar_auth"
  const DefaultTarget := "/check-backend"

  /** How both fields are read: `trim()` then `toUpperCase()`. */
  function Normalize(s: string): (r: string)
    ensures |r| <= |s|
  {
    ToUpper(Trim(s))
  }

  /** `validCredentials.some(...)`: some stored pair matches both fields. */
  function AnyMatch(creds: seq<Credential>, id: string, pwd: string): (b: bool)
    ensures b <==> exists k :: 0 <= k < |creds| && creds[k].id == id && creds[k].password == pwd
    decreases |creds|
  {
    if creds == [] then false
    else if creds[0].id == id && creds[0].password == pwd then true
    else
      var b := AnyMatch(creds[1..], id, pwd);
      assert forall k :: 1 <= k < |creds| ==> creds[k] == creds[1..][k - 1];
      assert b ==> exists k :: 1 <= k < |creds| && creds[k].id == id && creds[k].password == pwd by {
        if b {
          var k :| 0 <= k < |creds[1..]| && creds[1..][k].id == id && creds[1..][k].password == pwd;
          assert creds[k + 1] == creds[1..][k];
        }
      }
      b
  }

  /** `isValid` for what was typed into the two fields. */
  predicate IsValid(loginId: string, loginPassword: string) {
    AnyMatch(ValidCredentials, Normalize(loginId), Normalize(loginPassword))
  }

  /** Login succeeds exactly for the two stored pairs, after normalising. */
  lemma ValidExactly(loginId: string, loginPassword: string)
    ensures IsValid(loginId, loginPassword) <==>
      (Normalize(loginId) == "ADMIN" && Normalize(loginPassword) == "ADMIN")
      || (Normalize(loginId) == "M24DE3076" && Normalize(loginPassword) == "M24DE3076")
  {
  }

  /** Both stored pairs repeat the id as the password, so a login needs two fields that read the same. */
  lemma ValidNeedsSameFields(loginId: string, loginPassword: string)
    requires IsValid(loginId, loginPassword)
    ensures Normalize(loginId) == Normalize(loginPassword)
    ensures Normalize(loginId) == "ADMIN" || Normalize(loginId) == "M24DE3076"
  {
    ValidExactly(loginId, loginPassword);
  }

  /** A valid id with another id's password is rejected. */
  lemma MixedPairRejected(loginId: string, loginPassword: string)
    requires Normalize(loginId) != Normalize(loginPassword)
    ensures !IsValid(loginId, loginPassword)
  {
    if IsValid(loginId, loginPassword) {
      ValidNeedsSameFields(loginId, loginPassword);
    }
  }

  /** Typing a field in upper case instead changes nothing. */
  lemma CaseIgnored(s: string)
    ensures Normalize(ToUpper(s)) == Normalize(s)
  {
    TrimOfUpper(s);
    UpperIdempotent(Trim(s));
  }

  /** White space around either field never changes the outcome. */
  lemma PaddingIgnored(pre: string, id: string, post: string, pre2: string, pwd: string, post2: string)
    requires AllSpace(pre) && AllSpace(post) && AllSpace(pre2) && AllSpace(post2)
    requires id != [] && !IsJsSpace(id[0]) && !IsJsSpace(id[|id| - 1])
    requires pwd != [] && !IsJsSpace(pwd[0]) && !IsJsSpace(pwd[|pwd| - 1])
    ensures IsValid(pre + id + post, pre2 + pwd + post2) == IsValid(id, pwd)
  {
    TrimPadded(pre, id, post);
    TrimOfTrimmed(id);
    TrimPadded(pre2, pwd, post2);
    TrimOfTrimmed(pwd);
  }

  /** `loc?.state?.from?.pathname || "/check-backend"`: the saved path unless it is missing or empty. */
  function StartTarget(from: Option<string>): (t: string)
    ensures from.Some? && from.value != "" ==> t == from.value
    ensures from.None? || from.value == "" ==> t == DefaultTarget
  {
    if from.Some? && from.value != "" then from.value else DefaultTarget
  }

  class LoginForm {
    var step: int
    var loginId: string
    var loginPassword: string
    var error: bool
    /** The `lidar_auth` entry of local storage. */
    var storedAuth: Option<string>

    constructor ()
      ensures step == 0 && loginId == "" && loginPassword == "" && !error && storedAuth.None?
    {
      step := 0;
      loginId := "";
      loginPassword := "";
      error := false;
      storedAuth := None;
    }

    /** `handleLogin`: on a match the auth flag is stored, the welcome step shown and the error cleared; otherwise only the error is set. */
    method HandleLogin()
      modifies this
      ensures loginId == old(loginId) && loginPassword == old(loginPassword)
      ensures IsValid(loginId, loginPassword) ==> storedAuth == Some("1") && step == 1 && !error
      ensures !IsValid(loginId, loginPassword) ==> error && step == old(step) && storedAuth == old(storedAuth)
    {
      var isValid := IsValid(loginId, loginPassword);
      if isValid {
        storedAuth := Some("1");
        step := 1;
        error := false;
      } else {
        error := true;
      }
    }

    /** `handleStart`: the route it navigates to, for the saved origin path. */
    method HandleStart(from: Option<string>) returns (target: string)
      ensures target == StartTarget(from)
    {
      target := StartTarget(from);
    }
  }
}
