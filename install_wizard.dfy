/**
 * The installer wizard's step logic (Install::handleFormData and the step
 * bookkeeping of the Install constructor).  The session array
 * `$_SESSION['installation']` and the `Location` header become values: a
 * submission either fails with an error (nothing is stored, installed or
 * redirected) or yields an effect record.
 */
module InstallWizard {

  import opened Wrappers
  import opened Php
  import opened InstallRequest
  import opened InstallChecks

  /** The installer's sections: step number to the fields of that step. */
  type Sections = map<int, seq<Field>>

  /** What the checks consult outside the form: the validators and the database probe of checkDatabase. */
  datatype Environment = Environment(validators: Validators, databaseOk: Data -> bool)

  /** `$_SESSION['installation']`: unset, or the data stored so far. */
  type Session = Option<Data>

  function Stored(session: Session): (stored: Data)
  {
    if session.Some? then session.value else map[]
  }

  /** `Location: ../` once the last step is submitted, `Location: ?step=n` otherwise. */
  datatype Redirect = Home | ToStep(step: int)

  datatype StepError =
    | NoSuchStep                        // the step has no section: the field list is null (a TypeError, not caught)
    | MandatoryField(RequestError)
    | DatabaseRejected                  // checkDatabase threw
    | AdminRejected(AdminError)
    | SystemRejected(SystemError)

  /** What a successful submission does: the new session, the data installed (if any), and the redirect. */
  datatype FormEffect = FormEffect(session: Session, install: Option<Data>, redirect: Redirect)

  /** The state the constructor sets up: the requested step, the number of sections and the session. */
  datatype Wizard = Wizard(currentStep: int, maxSteps: int, session: Session)

  /** The constructor: maxSteps counts the sections, and going back to step 0 drops the stored session. */
  function Open(sections: Sections, step: int, session: Session): (w: Wizard)
    ensures w.currentStep == step && w.maxSteps == |sections|
    ensures step == 0 ==> w.session == None
    ensures step != 0 ==> w.session == session
  {
    Wizard(step, |sections|, if session.Some? && step == 0 then None else session)
  }

  /**
   * The check handleFormData runs for the current step on the validated data.
   * With `strict` false the admin step compares the passwords loosely, as the
   * code does; with `strict` true it uses the corrected comparison.
   */
  function StepCheck(step: int, data: Data, env: Environment, strict: bool): (r: Outcome<StepError>)
    ensures step == 2 && !strict ==> (r.Pass? <==> CheckAdminUserAsWritten(data, env.validators.validEmail).Pass?)
    ensures step == 2 && strict ==> (r.Pass? <==> CheckAdminUser(data, env.validators.validEmail).Pass?)
    ensures step == 3 ==> (r.Pass? <==> CheckSystem(data, env.validators).Pass?)
    ensures step == 1 ==> (r.Pass? <==> env.databaseOk(data))
    ensures step !in {1, 2, 3} ==> r.Pass?
  {
    if step == 1 then
      (if env.databaseOk(data) then Pass else Fail(DatabaseRejected))
    else if step == 2 then
      (match (if strict then CheckAdminUser(data, env.validators.validEmail)
              else CheckAdminUserAsWritten(data, env.validators.validEmail))
       case Pass => Pass
       case Fail(e) => Fail(AdminRejected(e)))
    else if step == 3 then
      (match CheckSystem(data, env.validators)
       case Pass => Pass
       case Fail(e) => Fail(SystemRejected(e)))
    else Pass
  }

  /**
   * At the admin step the code as written accepts the password "007" confirmed
   * as "7" and goes on to store it; the corrected comparison rejects it.
   */
  lemma AdminStepAcceptsLooseConfirmation(env: Environment)
    requires env.validators.validEmail("admin@example.org")
    ensures StepCheck(2, LeadingZeroPasswordData(), env, false) == Pass
    ensures StepCheck(2, LeadingZeroPasswordData(), env, true) == Fail(AdminRejected(PasswordConfirm))
  {
    LooseConfirmationAccepted(env.validators.validEmail);
  }

  /**
   * The effect of a submission whose data validated and whose check passed:
   * the data is merged into the session (new values win) only up to maxSteps,
   * the installation runs with the merged session exactly at the step before
   * the last, and the user is sent home after the last step and to the next
   * step otherwise.
   */
  function Effect(w: Wizard, validated: Data): (e: FormEffect)
    ensures w.currentStep <= w.maxSteps ==> (e.session.Some?
      && e.session.value.Keys == Stored(w.session).Keys + validated.Keys
      && (forall k :: k in validated ==> e.session.value[k] == validated[k])
      && (forall k :: k in Stored(w.session) && k !in validated ==> e.session.value[k] == Stored(w.session)[k]))
    ensures w.currentStep > w.maxSteps ==> e.session == w.session
    ensures e.install.Some? <==> w.currentStep == w.maxSteps - 1
    ensures e.install.Some? ==> e.session == e.install
    ensures e.redirect == Home <==> w.currentStep == w.maxSteps
    ensures e.redirect != Home ==> e.redirect == ToStep(w.currentStep + 1)
  {
    var session := if w.currentStep <= w.maxSteps then Some(Stored(w.session) + validated) else w.session;
    var install := if w.currentStep == w.maxSteps - 1 then session else None;
    var redirect := if w.currentStep == w.maxSteps then Home else ToStep(w.currentStep + 1);
    FormEffect(session, install, redirect)
  }

  /**
   * handleFormData: validate the step's fields, run the step's check, then
   * store, install and redirect as Effect says.  A failure anywhere before the
   * session is written leaves no effect at all.  `strict` false is the code as
   * written (loose password confirmation), true the corrected comparison.
   */
  method HandleFormData(w: Wizard, sections: Sections, request: Request, env: Environment, strict: bool)
    returns (r: Result<FormEffect, StepError>)
    ensures w.currentStep !in sections ==> r == Failure(NoSuchStep)
    ensures w.currentStep in sections && !MandatoryFilled(sections[w.currentStep], request) ==>
      r == Failure(MandatoryField(MandatoryMissing))
    ensures w.currentStep in sections && MandatoryFilled(sections[w.currentStep], request) ==>
      var validated := Echo(Names(sections[w.currentStep]), request);
      var check := StepCheck(w.currentStep, validated, env, strict);
      if w.currentStep <= w.maxSteps && check.Fail? then r == Failure(check.error)
      else r == Success(Effect(w, validated))
  {
    if w.currentStep !in sections {
      return Failure(NoSuchStep);
    }
    var validation := ValidateRequest(sections[w.currentStep], request);
    if validation.Failure? {
      return Failure(MandatoryField(MandatoryMissing));
    }
    var validatedData := validation.value;

    var session := w.session;
    if w.currentStep <= w.maxSteps {
      var check := StepCheck(w.currentStep, validatedData, env, strict);
      if check.Fail? {
        return Failure(check.error);
      }
      session := Some(Stored(session) + validatedData);
    }

    var install: Option<Data> := None;
    if w.currentStep == w.maxSteps - 1 {
      install := session;
    }

    if w.currentStep == w.maxSteps {
      return Success(FormEffect(session, install, Home));
    }
    return Success(FormEffect(session, install, ToStep(w.currentStep + 1)));
  }

  // ---------------------------------------------------------------------------
  // Walking the wizard
  // ---------------------------------------------------------------------------

  /** The session after merging each step's data in turn into `base`. */
  function MergeAll(base: Data, steps: seq<Data>): (merged: Data)
    decreases |steps|
  {
    if steps == [] then base else MergeAll(base + steps[0], steps[1..])
  }

  /**
   * Submit `steps[0]`, `steps[1]`, ... starting at `step`, following each
   * redirect, until the wizard sends the user home or the submissions run out;
   * yields the data of every installation triggered and the final session.
   */
  function Walk(maxSteps: int, step: int, session: Session, steps: seq<Data>): (walk: (seq<Data>, Session))
    decreases |steps|
  {
    if steps == [] then ([], session)
    else
      var e := Effect(Wizard(step, maxSteps, session), steps[0]);
      var installed := if e.install.Some? then [e.install.value] else [];
      if e.redirect == Home then (installed, e.session)
      else
        var rest := Walk(maxSteps, e.redirect.step, e.session, steps[1..]);
        (installed + rest.0, rest.1)
  }

  /**
   * Submitting every step from `step` to the last, in order, installs once
   * when `step` is not already the last one, with the session merged up to the
   * step before the last, and ends with every submitted step's data stored.
   */
  lemma {:induction false} WalkFrom(maxSteps: int, step: int, session: Session, steps: seq<Data>)
    requires 1 <= step <= maxSteps
    requires |steps| == maxSteps - step + 1
    ensures Walk(maxSteps, step, session, steps).0 ==
      if step <= maxSteps - 1 then [MergeAll(Stored(session), steps[..maxSteps - step])] else []
    ensures Walk(maxSteps, step, session, steps).1 == Some(MergeAll(Stored(session), steps))
    decreases |steps|
  {
    var e := Effect(Wizard(step, maxSteps, session), steps[0]);
    var merged := Stored(session) + steps[0];
    assert e.session == Some(merged);
    assert MergeAll(Stored(session), steps) == MergeAll(merged, steps[1..]);
    if step == maxSteps {
      assert steps[1..] == [];
    } else {
      WalkFrom(maxSteps, step + 1, e.session, steps[1..]);
      if step == maxSteps - 1 {
        assert steps[..1] == [steps[0]];
        assert MergeAll(Stored(session), steps[..1]) == MergeAll(merged, []);
      } else {
        var prefix := steps[..maxSteps - step];
        assert prefix[0] == steps[0] && prefix[1..] == steps[1..][..maxSteps - (step + 1)];
      }
    }
  }

  /**
   * Going through the whole wizard from step 1 installs exactly once, with the
   * data of every step but the last, and leaves every step's data in the session.
   */
  lemma CompletingWizardInstallsOnce(maxSteps: int, steps: seq<Data>)
    requires maxSteps >= 2 && |steps| == maxSteps
    ensures Walk(maxSteps, 1, None, steps).0 == [MergeAll(map[], steps[..maxSteps - 1])]
    ensures Walk(maxSteps, 1, None, steps).1 == Some(MergeAll(map[], steps))
  {
    WalkFrom(maxSteps, 1, None, steps);
  }
}
