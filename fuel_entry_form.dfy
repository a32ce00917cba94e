/**
 * The stateful part of the fuel-entry form: the component's four pieces of
 * state and the handlers that change them. `handleSubmit` awaits the network
 * call, so it is split at the `await`: `BeginSubmit` is what runs before it,
 * `CompleteSubmit` what runs once the call has settled, and other handlers
 * may run in between. `HandleSubmit` is the two with nothing in between.
 */
module FuelEntry {
  import opened Wrappers
  import opened FormRules

  /** The banner state: `'idle' | 'success' | 'error'`. */
  datatype SubmitStatus = Idle | Success | Error

  class FuelEntryForm {
    /** `INITIAL_DATA`, fixed when the module is loaded; every reset goes back to it. */
    const initialData: FormData
    /** `parseFloat`, left uninterpreted. */
    const parse: string -> JsNumber

    var formData: FormData
    var errors: Errors
    var isSubmitting: bool
    var submitStatus: SubmitStatus
    /** Timers started by a successful submission that have not fired yet. */
    var pendingResets: nat

    /** Every message on display is the one its field's rule gives for the field's current value. */
    ghost predicate ErrorsCurrent()
      reads this
    {
      forall f :: Get(errors, f).Some? ==> Get(errors, f) == RuleFor(f, Get(formData, f), parse)
    }

    /**
     * The component's invariant: no stale message, no message at all while a
     * request is in flight, and a success banner always has a reset scheduled.
     */
    ghost predicate Valid()
      reads this
    {
      && ErrorsCurrent()
      && (isSubmitting ==> errors == NoErrors)
      && (submitStatus == Success ==> pendingResets > 0)
    }

    /** The first render: `INITIAL_DATA` with `today` as the bill date, no errors, idle. */
    constructor (today: string, parse: string -> JsNumber)
      ensures initialData == InitialData(today) && this.parse == parse
      ensures formData == initialData && errors == NoErrors
      ensures !isSubmitting && submitStatus == Idle && pendingResets == 0
      ensures Valid()
    {
      initialData := InitialData(today);
      this.parse := parse;
      formData := InitialData(today);
      errors := NoErrors;
      isSubmitting := false;
      submitStatus := Idle;
      pendingResets := 0;
    }

    /** `validate`: replaces the error object with the current rules' verdict and reports whether it is empty. */
    method Validate() returns (ok: bool)
      requires Valid() && !isSubmitting
      modifies this`errors
      ensures errors == ErrorsFor(formData, parse)
      ensures ok <==> errors == NoErrors
      ensures Valid()
    {
      errors := ErrorsFor(formData, parse);
      ok := errors == NoErrors;
    }

    /**
     * `handleChange`: the named field takes the new value verbatim; its own
     * message, if one is shown, is cleared; nothing else changes.
     */
    method HandleChange(name: Field, value: string)
      requires Valid()
      modifies this`formData, this`errors
      ensures formData == SetField(old(formData), name, value)
      ensures errors == if old(Get(errors, name)).Some? && old(Get(errors, name)).value != ""
                        then SetField(old(errors), name, None)
                        else old(errors)
      ensures Get(errors, name) == None
      ensures forall g :: g != name ==> Get(errors, g) == old(Get(errors, g))
      ensures Valid()
    {
      formData := SetField(formData, name, value);
      var shown := Get(errors, name);
      if shown.Some? && shown.value != "" {
        errors := SetField(errors, name, None);
      }
    }

    /**
     * `handleSubmit` up to the `await`, reachable only while the submit
     * button is enabled, that is while not submitting: validates; if that
     * fails nothing else changes and no request is made, otherwise the form
     * is marked as submitting, the banner goes back to idle and the current
     * data is sent.
     */
    method BeginSubmit() returns (request: Option<FormData>)
      requires Valid() && !isSubmitting
      modifies this`errors, this`isSubmitting, this`submitStatus
      ensures errors == ErrorsFor(formData, parse)
      ensures request.Some? <==> errors == NoErrors
      ensures request.Some? ==> request.value == formData && isSubmitting && submitStatus == Idle
      ensures request.None? ==> isSubmitting == old(isSubmitting) && submitStatus == old(submitStatus)
      ensures Valid()
    {
      var ok := Validate();
      if !ok {
        return None;
      }
      isSubmitting := true;
      submitStatus := Idle;
      request := Some(formData);
    }

    /**
     * `handleSubmit` after the `await`: on success the banner shows success,
     * the form goes back to `INITIAL_DATA` and a reset timer starts; on a
     * thrown error the banner shows the error and the data stays; either way
     * the form is no longer submitting.
     */
    method CompleteSubmit(threw: bool)
      requires Valid() && isSubmitting
      modifies this`formData, this`submitStatus, this`isSubmitting, this`pendingResets
      ensures !isSubmitting
      ensures !threw ==> submitStatus == Success && formData == initialData
                         && pendingResets == old(pendingResets) + 1
      ensures threw ==> submitStatus == Error && formData == old(formData)
                        && pendingResets == old(pendingResets)
      ensures Valid()
    {
      if threw {
        submitStatus := Error;
      } else {
        submitStatus := Success;
        formData := initialData;
        pendingResets := pendingResets + 1;
      }
      isSubmitting := false;
    }

    /** `handleSubmit` with no other event while the request is in flight. */
    method HandleSubmit(threw: bool) returns (request: Option<FormData>)
      requires Valid() && !isSubmitting
      modifies this`errors, this`formData, this`isSubmitting, this`submitStatus, this`pendingResets
      ensures errors == ErrorsFor(old(formData), parse)
      ensures request.Some? <==> errors == NoErrors
      ensures request.None? ==> formData == old(formData) && submitStatus == old(submitStatus)
                                && pendingResets == old(pendingResets)
      ensures !isSubmitting
      ensures request.Some? ==> request.value == old(formData)
      ensures request.Some? && !threw ==> submitStatus == Success && formData == initialData
                                          && pendingResets == old(pendingResets) + 1
      ensures request.Some? && threw ==> submitStatus == Error && formData == old(formData)
                                         && pendingResets == old(pendingResets)
      ensures Valid()
    {
      request := BeginSubmit();
      if request.Some? {
        CompleteSubmit(threw);
      }
    }

    /** The three-second timer started by a successful submission fires: the banner goes back to idle. */
    method ResetTimerFires()
      requires Valid() && pendingResets > 0
      modifies this`submitStatus, this`pendingResets
      ensures submitStatus == Idle && pendingResets == old(pendingResets) - 1
      ensures Valid()
    {
      submitStatus := Idle;
      pendingResets := pendingResets - 1;
    }
  }
}
