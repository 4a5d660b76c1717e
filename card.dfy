/**
  One activity's card: the spots left, and the participant list with a
  delete button per participant that asks for confirmation before it
  forwards an unregister request.
*/
module Card {
  import opened Wrappers
  import opened Activities
  import Roster

  /** Capacity minus the participants shown; not clamped at zero. */
  function SpotsLeft(details: Activity): (n: int)
    ensures n + |details.participants| == details.maxParticipants
    ensures n < 0 <==> |details.participants| > details.maxParticipants
  {
    details.maxParticipants - |details.participants|
  }

  /** The participants section: the placeholder for an empty list, otherwise
      one row per participant, in list order, each with its delete button. */
  datatype ParticipantRows = NoParticipantsYet | Rows(emails: seq<string>)

  function Participants(details: Activity): (v: ParticipantRows)
    ensures v == NoParticipantsYet <==> |details.participants| == 0
    ensures v.Rows? ==> |v.emails| == |details.participants|
    ensures v.Rows? ==> forall k :: 0 <= k < |v.emails| ==> v.emails[k] == details.participants[k]
  {
    if |details.participants| > 0 then Rows(details.participants) else NoParticipantsYet
  }

  /** `handleDelete`: the unregister request the card forwards for `email`,
      given the answer to the confirmation dialog. */
  function HandleDelete(name: string, email: string, confirmed: bool): (c: Option<Call>)
    ensures c.Some? <==> confirmed
    ensures c.Some? ==> c.value.UnregisterCall? && c.value.name == name && c.value.email == email
  {
    if confirmed then Some(UnregisterCall(name, email)) else None
  }

  /** A successful signup takes one spot away. */
  lemma SpotsAfterSignup(m: map<string, Activity>, name: string, email: string)
    requires name in m
    ensures var s := Roster.SignupStep(m, name, email);
            SpotsLeft(s.roster[name]) == if s.response.Ok? then SpotsLeft(m[name]) - 1 else SpotsLeft(m[name])
  {
  }

  /** A successful unregister gives one spot back. */
  lemma SpotsAfterUnregister(m: map<string, Activity>, name: string, email: string)
    requires name in m
    ensures var s := Roster.UnregisterStep(m, name, email);
            SpotsLeft(s.roster[name]) == if s.response.Ok? then SpotsLeft(m[name]) + 1 else SpotsLeft(m[name])
  {
  }

  /** On a card built from the store's current roster, a confirmed delete on
      row `k` asks to unregister exactly that row's participant from that
      activity, and the store accepts it and frees one spot. */
  lemma ConfirmedDeleteSucceeds(m: map<string, Activity>, s: Snapshot, i: nat, k: nat)
    requires SnapshotOf(s, m) && i < |s| && k < |s[i].details.participants|
    ensures var v := Participants(s[i].details);
            && v.Rows?
            && var c := HandleDelete(s[i].name, v.emails[k], true);
               && c == Some(UnregisterCall(s[i].name, s[i].details.participants[k]))
               && var after := Roster.UnregisterStep(m, c.value.name, c.value.email);
                  && after.response == Roster.Ok(Roster.UnregisteredMessage(s[i].name, s[i].details.participants[k]))
                  && SpotsLeft(after.roster[s[i].name]) == SpotsLeft(s[i].details) + 1
  {
  }
}
