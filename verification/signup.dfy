/** The sign-up form's submit handler: four checks in a fixed order, and
    only when all pass a registration attempt bracketed by the
    `isSubmitting` flag, with navigation to the editor on success. */
module Signup {
  import opened Values

  datatype Form = Form(
    name: string,
    email: string,
    password: string,
    confirmPassword: string,
    termsAccepted: bool)

  /** The reasons the handler returns early, in the order it tests them. */
  datatype Check = MissingField | PasswordMismatch | PasswordTooShort | TermsNotAccepted

  const CheckOrder: seq<Check> := [MissingField, PasswordMismatch, PasswordTooShort, TermsNotAccepted]

  const MinPasswordLength: nat := 6

  /** `s.length`: JavaScript counts UTF-16 code units, so a character outside
      the Basic Multilingual Plane counts twice. */
  function Utf16Length(s: string): (n: nat)
    ensures |s| <= n <= 2 * |s|
  {
    if s == [] then 0
    else (if s[0] as int >= 0x1_0000 then 2 else 1) + Utf16Length(s[1..])
  }

  /** Whether the check `c` rejects the form. */
  predicate Fails(f: Form, c: Check)
  {
    match c
    case MissingField => f.name == "" || f.email == "" || f.password == "" || f.confirmPassword == ""
    case PasswordMismatch => f.password != f.confirmPassword
    case PasswordTooShort => Utf16Length(f.password) < MinPasswordLength
    case TermsNotAccepted => !f.termsAccepted
  }

  /** The first check in `order` that rejects the form. */
  function FirstFailure(f: Form, order: seq<Check>): (r: Option<Check>)
    ensures r.None? <==> forall i :: 0 <= i < |order| ==> !Fails(f, order[i])
    ensures r.Some? ==> r.value in order && Fails(f, r.value)
  {
    if order == [] then None
    else if Fails(f, order[0]) then Some(order[0])
    else
      var r := FirstFailure(f, order[1..]);
      assert forall i :: 1 <= i < |order| ==> order[i] == order[1..][i - 1];
      r
  }

  /** The handler's guard: every check, in the order the handler checks them, passes. */
  predicate Valid(f: Form)
  {
    FirstFailure(f, CheckOrder).None?
  }

  /** The order of the checks only decides which one stops the handler, not
      whether it is stopped: any order listing all four checks admits the
      same forms. */
  lemma {:induction false} CheckOrderIrrelevant(f: Form, order: seq<Check>)
    requires forall c :: c in order
    ensures FirstFailure(f, order).None? <==> Valid(f)
  {
    if FirstFailure(f, order).Some? {
      var c := FirstFailure(f, order).value;
      assert c in CheckOrder;
    }
    if !Valid(f) {
      var c := FirstFailure(f, CheckOrder).value;
      assert c in order;
    }
  }

  /** Valid, spelled out: all four fields filled in, the two passwords equal,
      at least six code units long, and the terms accepted. */
  lemma ValidIff(f: Form)
    ensures Valid(f)
        <==> f.name != "" && f.email != "" && f.password != "" && f.confirmPassword != ""
             && f.password == f.confirmPassword
             && Utf16Length(f.password) >= 6
             && f.termsAccepted
  {
    assert CheckOrder[0] == MissingField && CheckOrder[1] == PasswordMismatch;
    assert CheckOrder[2] == PasswordTooShort && CheckOrder[3] == TermsNotAccepted;
  }

  /** How the registration call ends: it resolves to its success flag or it
      throws. */
  datatype Outcome = Resolved(success: bool) | Threw

  datatype Registration = Registration(name: string, email: string, password: string)

  /** What one submission does: the registration call it makes, the values it
      writes to `isSubmitting` in order, and where it navigates. */
  datatype Submission = Submission(
    registered: Option<Registration>,
    submittingWrites: seq<bool>,
    navigateTo: Option<string>)

  const EditorPath: string := "/createui"

  /** `handleSubmit`, with the registration call's outcome as an input. */
  function HandleSubmit(f: Form, outcome: Outcome): (r: Submission)
    ensures r.registered.Some? <==> Valid(f)
    ensures r.registered.Some? ==> r.registered.value == Registration(f.name, f.email, f.password)
    ensures r.submittingWrites == [] <==> r.registered.None?
    ensures r.navigateTo.Some? <==> r.registered.Some? && outcome == Resolved(true)
    ensures r.navigateTo.Some? ==> r.navigateTo.value == EditorPath
  {
    if FirstFailure(f, CheckOrder).Some? then Submission(None, [], None)
    else
      Submission(
        Some(Registration(f.name, f.email, f.password)),
        [true, false],
        if outcome == Resolved(true) then Some(EditorPath) else None)
  }

  /** The flag's value after a sequence of writes. */
  function Submitting(before: bool, writes: seq<bool>): bool
  {
    if writes == [] then before else writes[|writes| - 1]
  }

  /** `isSubmitting` is raised only around a registration call and always
      ends lowered, whether the call succeeds, fails or throws; a rejected
      form leaves it as it was. */
  lemma SubmittingIsReset(f: Form, outcome: Outcome, before: bool)
    ensures var r := HandleSubmit(f, outcome);
      (r.registered.Some? ==> Submitting(before, r.submittingWrites) == false
                              && true in r.submittingWrites)
      && (r.registered.None? ==> Submitting(before, r.submittingWrites) == before)
  {
  }

  /** Each early return on its own: a form failing any one check never
      reaches registration. */
  lemma FailingCheckBlocks(f: Form, c: Check, outcome: Outcome)
    requires Fails(f, c)
    ensures HandleSubmit(f, outcome).registered.None?
    ensures HandleSubmit(f, outcome).submittingWrites == []
  {
    assert c == CheckOrder[0] || c == CheckOrder[1] || c == CheckOrder[2] || c == CheckOrder[3];
  }
}
