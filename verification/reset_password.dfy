/** `ResetPasswordFormModel`: a reset-password request names its account by
    email address, email or username, in that order of preference; any of
    the three may be null. */
module ResetPassword {
  import opened Results

  datatype ResetPasswordForm = ResetPasswordForm(emailAddress: Option<string>, email: Option<string>, username: Option<string>)

  /** `string.IsNullOrEmpty`. */
  predicate IsNullOrEmpty(s: Option<string>) {
    s.None? || s.value == ""
  }

  /** The first candidate that is neither null nor empty, if any: the
      reference definition the selector is measured against. */
  function FirstNonEmpty(candidates: seq<Option<string>>): (r: Option<string>)
    ensures r.None? <==> forall i :: 0 <= i < |candidates| ==> IsNullOrEmpty(candidates[i])
    ensures r.Some? ==> exists i :: 0 <= i < |candidates| && candidates[i] == r
                                    && !IsNullOrEmpty(r)
                                    && forall j :: 0 <= j < i ==> IsNullOrEmpty(candidates[j])
  {
    if |candidates| == 0 then None
    else if !IsNullOrEmpty(candidates[0]) then candidates[0]
    else
      var rest := FirstNonEmpty(candidates[1..]);
      assert forall i :: 1 <= i < |candidates| ==> candidates[i] == candidates[1..][i - 1];
      rest
  }

  /** `UsernameOrEmailAddress`: the email address when it is set, else the
      email, else the username, else null. */
  function UsernameOrEmailAddress(f: ResetPasswordForm): (r: Option<string>)
    ensures r.None? || r.value != ""
    ensures !IsNullOrEmpty(f.emailAddress) ==> r == f.emailAddress
    ensures IsNullOrEmpty(f.emailAddress) && !IsNullOrEmpty(f.email) ==> r == f.email
    ensures IsNullOrEmpty(f.emailAddress) && IsNullOrEmpty(f.email) && !IsNullOrEmpty(f.username) ==> r == f.username
    ensures r.None? <==> IsNullOrEmpty(f.emailAddress) && IsNullOrEmpty(f.email) && IsNullOrEmpty(f.username)
  {
    if !IsNullOrEmpty(f.emailAddress) then f.emailAddress
    else if !IsNullOrEmpty(f.email) then f.email
    else if !IsNullOrEmpty(f.username) then f.username
    else None
  }

  /** The selector picks the first set field in the order email address,
      email, username. */
  lemma {:induction false} SelectorIsFirstNonEmpty(f: ResetPasswordForm)
    ensures UsernameOrEmailAddress(f) == FirstNonEmpty([f.emailAddress, f.email, f.username])
  {
    var cs := [f.emailAddress, f.email, f.username];
    assert cs[1..] == [f.email, f.username];
    assert cs[1..][1..] == [f.username];
    assert cs[1..][1..][1..] == [];
    assert FirstNonEmpty([f.username]) == (if IsNullOrEmpty(f.username) then None else f.username);
    assert FirstNonEmpty([f.email, f.username]) == (if IsNullOrEmpty(f.email) then FirstNonEmpty([f.username]) else f.email);
  }

  /** `ToString`: the form prints as the account it names, or null. */
  function ToString(f: ResetPasswordForm): (r: Option<string>)
    ensures r == FirstNonEmpty([f.emailAddress, f.email, f.username])
  {
    SelectorIsFirstNonEmpty(f);
    UsernameOrEmailAddress(f)
  }
}
