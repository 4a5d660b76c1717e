/**
  The signup form: an email field and an activity selector.  Submitting
  forwards the pair to the controller's signup handler when both are filled
  in, and empties both fields once that handler has finished, whatever the
  outcome.
*/
module Form {
  import opened Wrappers
  import opened Activities
  import Controller
  import Roster

  /** The selector's option values: the empty placeholder, then every
      activity name of the snapshot in its key order. */
  function Options(activities: Snapshot): (r: seq<string>)
    ensures |r| == |activities| + 1
    ensures r[0] == ""
    ensures forall i :: 0 <= i < |activities| ==> r[i + 1] == activities[i].name
  {
    [""] + Names(activities)
  }

  /** The form submits only when both fields are non-empty. */
  predicate CanSubmit(email: string, selectedActivity: string)
  {
    email != "" && selectedActivity != ""
  }

  /** With the snapshot taken from the store, every option except the
      placeholder names an activity the store knows, so a signup made through
      the selector is never refused with NotFound; the placeholder itself
      never passes the submit guard. */
  lemma OptionsNameKnownActivities(s: Snapshot, m: map<string, Activity>, k: nat, email: string)
    requires SnapshotOf(s, m) && k < |s| + 1
    ensures !CanSubmit(email, Options(s)[0])
    ensures 1 <= k ==> Options(s)[k] in m && Roster.SignupStep(m, Options(s)[k], email).response != Roster.NotFound
  {
  }

  /** Every activity of the store is offered by the selector. */
  lemma EveryActivityOffered(s: Snapshot, m: map<string, Activity>, name: string)
    requires SnapshotOf(s, m) && name in m
    ensures name in Options(s)[1..]
  {
  }

  /** A request the store refuses reaches the banner with the store's own
      detail text, never with the form's fallback. */
  lemma RefusalShownVerbatim(m: map<string, Activity>, name: string, email: string)
    ensures var r := Roster.SignupStep(m, name, email).response;
            !r.Ok? ==> Controller.ErrorText(Some(Roster.Detail(r)), Controller.SignupFallback) == Roster.Detail(r)
    ensures var r := Roster.UnregisterStep(m, name, email).response;
            !r.Ok? ==> Controller.ErrorText(Some(Roster.Detail(r)), Controller.UnregisterFallback) == Roster.Detail(r)
  {
  }

  class SignupForm {
    var email: string
    var selectedActivity: string

    /** Both fields start empty. */
    constructor ()
      ensures email == "" && selectedActivity == ""
    {
      email := "";
      selectedActivity := "";
    }

    /** Typing in the email field. */
    method EditEmail(value: string)
      modifies this
      ensures email == value && selectedActivity == old(selectedActivity)
    {
      email := value;
    }

    /** Choosing an option of the selector. */
    method Select(value: string)
      modifies this
      ensures selectedActivity == value && email == old(email)
    {
      selectedActivity := value;
    }

    /** `handleSubmit`: when a field is empty nothing happens; otherwise the
        controller's signup handler runs once with (activity, email), in that
        order, and then both fields are emptied. */
    method Submit(app: Controller.App, outcome: Controller.MutationOutcome, reload: Controller.LoadOutcome)
      returns (submitted: bool)
      requires app.Valid()
      modifies this, app
      ensures app.Valid()
      ensures submitted <==> CanSubmit(old(email), old(selectedActivity))
      ensures !submitted ==>
        && email == old(email) && selectedActivity == old(selectedActivity)
        && unchanged(app)
      ensures submitted ==>
        && email == "" && selectedActivity == ""
        && app.calls == old(app.calls)
                        + Controller.MutationCalls(SignupCall(old(selectedActivity), old(email)), outcome)
      ensures submitted && outcome.Failed? ==>
        && app.message == Controller.Message(Controller.ErrorText(outcome.detail, Controller.SignupFallback), Controller.Error)
        && app.pendingClear == Some(old(app.nextTimer))
        && app.activities == old(app.activities) && app.loading == old(app.loading)
      ensures submitted && outcome.Done? ==> !app.loading
      ensures submitted && outcome.Done? && reload.Loaded? ==>
        && app.message == Controller.Message(outcome.message, Controller.Success)
        && app.pendingClear == (if outcome.message != "" then Some(old(app.nextTimer)) else None)
        && app.activities == reload.data
      ensures submitted && outcome.Done? && reload.LoadFailed? ==>
        && app.message == Controller.Message(Controller.LoadFailedText, Controller.Error)
        && app.pendingClear == Some(old(app.nextTimer) + 1)
        && app.activities == old(app.activities)
      ensures submitted ==>
        app.nextTimer == old(app.nextTimer) + (if outcome.Done? && reload.LoadFailed? then 2 else 1)
    {
      if !CanSubmit(email, selectedActivity) {
        return false;
      }
      app.HandleSignup(selectedActivity, email, outcome, reload);
      email := "";
      selectedActivity := "";
      submitted := true;
    }
  }

  /** A refused signup submitted through the form: the banner shows the
      store's detail, and the clear scheduled for the message shown before
      the submission no longer clears anything. */
  method RefusedSubmitKeepsItsBanner(form: SignupForm, app: Controller.App, m: map<string, Activity>, reload: Controller.LoadOutcome)
    requires app.Valid() && form.email != "" && form.selectedActivity != ""
    requires !Roster.SignupStep(m, form.selectedActivity, form.email).response.Ok?
    modifies form, app
    ensures app.message == Controller.Message(Roster.Detail(Roster.SignupStep(m, old(form.selectedActivity), old(form.email)).response), Controller.Error)
    ensures app.pendingClear.Some? && form.email == "" && form.selectedActivity == ""
  {
    var refusal := Roster.Detail(Roster.SignupStep(m, form.selectedActivity, form.email).response);
    app.SetMessage(Controller.Message("Signed up earlier", Controller.Success));
    var stale := app.pendingClear.value;
    var submitted := form.Submit(app, Controller.Failed(Some(refusal)), reload);
    app.TimerFires(stale);
  }
}
