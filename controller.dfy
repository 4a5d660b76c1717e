/**
  The client's top-level controller: three pieces of state (the activities
  snapshot, a loading flag and one feedback message), the handlers that load
  the roster and forward signup and unregister requests, and the rule that a
  shown message is cleared automatically unless a newer one replaces it.

  Every awaited request is one atomic transition whose answer is a parameter.
  The requests issued are recorded in `calls`, in order.
*/
module Controller {
  import opened Wrappers
  import opened Activities

  /** The `type` of a message: empty, success or error. */
  datatype Tone = Plain | Success | Error

  datatype Message = Message(text: string, tone: Tone)

  /** The cleared message, `{ text: '', type: '' }`. */
  const NoMessage := Message("", Plain)

  const LoadFailedText := "Failed to load activities. Please try again later."
  const SignupFallback := "Failed to sign up. Please try again."
  const UnregisterFallback := "Failed to unregister. Please try again."

  /** The answer to a list request: the roster, or a failure of any kind. */
  datatype LoadOutcome = Loaded(data: Snapshot) | LoadFailed

  /** The answer to a signup or unregister request: the server's confirmation
      message, or a failure carrying the `message` of the error the API client
      threw, when it has one. */
  datatype MutationOutcome = Done(message: string) | Failed(detail: Option<string>)

  /** The banner text for a failed request: the thrown error's message when
      it is non-empty, otherwise the operation's own fallback text. */
  function ErrorText(detail: Option<string>, fallback: string): (t: string)
    requires fallback != ""
    ensures t != ""
    ensures t == fallback || detail == Some(t)
    ensures detail.Some? && detail.value != "" ==> t == detail.value
  {
    if detail.Some? && detail.value != "" then detail.value else fallback
  }

  /** What the activities section shows. */
  datatype Screen = LoadingText | Cards(entries: Snapshot) | NoActivitiesText

  /** The activities section: the loading text while loading, otherwise one
      card per activity, or a notice when there are none. */
  function Render(loading: bool, activities: Snapshot): (v: Screen)
    ensures v == LoadingText <==> loading
    ensures v == NoActivitiesText <==> !loading && |activities| == 0
    ensures v.Cards? ==> v.entries == activities
  {
    if loading then LoadingText
    else if |activities| > 0 then Cards(activities)
    else NoActivitiesText
  }

  /** The requests one signup or unregister issues: the request itself and,
      when it succeeded, exactly one reload. */
  function MutationCalls(request: Call, outcome: MutationOutcome): (cs: seq<Call>)
    ensures |cs| >= 1 && cs[0] == request
    ensures forall i :: 1 <= i < |cs| ==> cs[i] == ListCall
    ensures |cs| == if outcome.Done? then 2 else 1
  {
    if outcome.Done? then [request, ListCall] else [request]
  }

  class App {
    var activities: Snapshot
    var loading: bool
    var message: Message
    /** The auto-clear timer now scheduled, by number, if any. */
    var pendingClear: Option<nat>
    /** The number the next scheduled timer gets. */
    var nextTimer: nat
    /** Every request issued so far, in order. */
    var calls: seq<Call>

    /** A clear is pending exactly while a non-empty message is shown, and it
        is the most recent timer scheduled. */
    ghost predicate Valid()
      reads this
    {
      && (pendingClear.Some? <==> message.text != "")
      && (pendingClear.Some? ==> pendingClear.value + 1 == nextTimer)
    }

    /** The state on mount, before the first load has answered. */
    constructor ()
      ensures Valid()
      ensures activities == [] && loading && message == NoMessage
      ensures pendingClear == None && calls == []
    {
      activities := [];
      loading := true;
      message := NoMessage;
      pendingClear := None;
      nextTimer := 0;
      calls := [];
    }

    /** `setMessage` followed by the effect it triggers: the pending clear of
        the previous message is cancelled, and a non-empty message schedules
        a fresh one. */
    method SetMessage(m: Message)
      requires Valid()
      modifies this
      ensures Valid()
      ensures message == m
      ensures m.text != "" ==> pendingClear == Some(old(nextTimer))
      ensures old(pendingClear).Some? ==> pendingClear != old(pendingClear)
      ensures nextTimer == old(nextTimer) + 1
      ensures activities == old(activities) && loading == old(loading) && calls == old(calls)
    {
      message := m;
      pendingClear := if m.text != "" then Some(nextTimer) else None;
      nextTimer := nextTimer + 1;
    }

    /** The timer numbered `id` goes off.  Only the pending one clears the
        message; one that was cancelled has no effect. */
    method TimerFires(id: nat)
      requires Valid()
      modifies this
      ensures Valid()
      ensures old(pendingClear) == Some(id) ==> message == NoMessage && pendingClear == None
      ensures old(pendingClear) != Some(id) ==> message == old(message) && pendingClear == old(pendingClear)
      ensures nextTimer >= old(nextTimer)
      ensures activities == old(activities) && loading == old(loading) && calls == old(calls)
    {
      if pendingClear == Some(id) {
        SetMessage(NoMessage);
      }
    }

    /** The banner's close button: the message goes at once, and so does its
        pending clear. */
    method Close()
      requires Valid()
      modifies this
      ensures Valid()
      ensures message == NoMessage && pendingClear == None
      ensures nextTimer == old(nextTimer) + 1
      ensures activities == old(activities) && loading == old(loading) && calls == old(calls)
    {
      SetMessage(NoMessage);
    }

    /** `loadActivities`: one list request; its data replaces the snapshot, a
        failure keeps the snapshot and shows the load error; loading ends
        either way. */
    method LoadActivities(outcome: LoadOutcome)
      requires Valid()
      modifies this
      ensures Valid()
      ensures !loading
      ensures calls == old(calls) + [ListCall]
      ensures outcome.Loaded? ==>
        && activities == outcome.data
        && message == old(message) && pendingClear == old(pendingClear)
      ensures outcome.LoadFailed? ==>
        && activities == old(activities)
        && message == Message(LoadFailedText, Error)
        && pendingClear == Some(old(nextTimer))
      ensures nextTimer == old(nextTimer) + (if outcome.LoadFailed? then 1 else 0)
    {
      loading := true;
      calls := calls + [ListCall];
      if outcome.Loaded? {
        activities := outcome.data;
      } else {
        SetMessage(Message(LoadFailedText, Error));
      }
      loading := false;
    }

    /** What `handleSignup` and `handleUnregister` share: issue the request;
        on success show the server's message and reload once; on failure show
        the error text and do not reload. */
    method Mutate(request: Call, outcome: MutationOutcome, reload: LoadOutcome, fallback: string)
      requires Valid() && fallback != ""
      modifies this
      ensures Valid()
      ensures calls == old(calls) + MutationCalls(request, outcome)
      ensures outcome.Failed? ==>
        && message == Message(ErrorText(outcome.detail, fallback), Error)
        && pendingClear == Some(old(nextTimer))
        && activities == old(activities) && loading == old(loading)
      ensures outcome.Done? ==> !loading
      ensures outcome.Done? && reload.Loaded? ==>
        && message == Message(outcome.message, Success)
        && pendingClear == (if outcome.message != "" then Some(old(nextTimer)) else None)
        && activities == reload.data
      ensures outcome.Done? && reload.LoadFailed? ==>
        && message == Message(LoadFailedText, Error)
        && pendingClear == Some(old(nextTimer) + 1)
        && activities == old(activities)
      ensures nextTimer == old(nextTimer) + (if outcome.Done? && reload.LoadFailed? then 2 else 1)
    {
      calls := calls + [request];
      match outcome
      case Done(text) =>
        SetMessage(Message(text, Success));
        LoadActivities(reload);
      case Failed(detail) =>
        SetMessage(Message(ErrorText(detail, fallback), Error));
    }

    method HandleSignup(name: string, email: string, outcome: MutationOutcome, reload: LoadOutcome)
      requires Valid()
      modifies this
      ensures Valid()
      ensures calls == old(calls) + MutationCalls(SignupCall(name, email), outcome)
      ensures outcome.Failed? ==>
        && message == Message(ErrorText(outcome.detail, SignupFallback), Error)
        && pendingClear == Some(old(nextTimer))
        && activities == old(activities) && loading == old(loading)
      ensures outcome.Done? ==> !loading
      ensures outcome.Done? && reload.Loaded? ==>
        && message == Message(outcome.message, Success)
        && pendingClear == (if outcome.message != "" then Some(old(nextTimer)) else None)
        && activities == reload.data
      ensures outcome.Done? && reload.LoadFailed? ==>
        && message == Message(LoadFailedText, Error)
        && pendingClear == Some(old(nextTimer) + 1)
        && activities == old(activities)
      ensures nextTimer == old(nextTimer) + (if outcome.Done? && reload.LoadFailed? then 2 else 1)
    {
      Mutate(SignupCall(name, email), outcome, reload, SignupFallback);
    }

    method HandleUnregister(name: string, email: string, outcome: MutationOutcome, reload: LoadOutcome)
      requires Valid()
      modifies this
      ensures Valid()
      ensures calls == old(calls) + MutationCalls(UnregisterCall(name, email), outcome)
      ensures outcome.Failed? ==>
        && message == Message(ErrorText(outcome.detail, UnregisterFallback), Error)
        && pendingClear == Some(old(nextTimer))
        && activities == old(activities) && loading == old(loading)
      ensures outcome.Done? ==> !loading
      ensures outcome.Done? && reload.Loaded? ==>
        && message == Message(outcome.message, Success)
        && pendingClear == (if outcome.message != "" then Some(old(nextTimer)) else None)
        && activities == reload.data
      ensures outcome.Done? && reload.LoadFailed? ==>
        && message == Message(LoadFailedText, Error)
        && pendingClear == Some(old(nextTimer) + 1)
        && activities == old(activities)
      ensures nextTimer == old(nextTimer) + (if outcome.Done? && reload.LoadFailed? then 2 else 1)
    {
      Mutate(UnregisterCall(name, email), outcome, reload, UnregisterFallback);
    }
  }

  /** A clear that was cancelled, by closing or by a newer message, never
      clears a later message; only the clear scheduled for the message now
      shown does. */
  method CancelledClearsNeverFire(app: App, first: string, second: string, third: string)
    requires app.Valid() && first != "" && second != "" && third != ""
    modifies app
    ensures app.message == NoMessage && app.pendingClear == None
  {
    app.SetMessage(Message(first, Success));
    var closed := app.pendingClear.value;
    app.Close();
    app.SetMessage(Message(second, Success));
    app.TimerFires(closed);
    assert app.message == Message(second, Success);
    var replaced := app.pendingClear.value;
    app.SetMessage(Message(third, Error));
    app.TimerFires(replaced);
    assert app.message == Message(third, Error);
    app.TimerFires(app.pendingClear.value);
  }
}
