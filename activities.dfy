/**
  The vocabulary shared by the roster store and its client: the record kept
  for each activity, the ordered snapshot a client receives from a list
  request, and the requests a client can issue.
*/
module Activities {

  /** One activity as the store keeps it and the list endpoint returns it.
      `participants` is ordered: new emails are appended at the end. */
  datatype Activity = Activity(
    description: string,
    schedule: string,
    maxParticipants: int,
    participants: seq<string>)

  /** No email occurs twice in `s`. */
  predicate Distinct(s: seq<string>)
  {
    forall i, j :: 0 <= i < j < |s| ==> s[i] != s[j]
  }

  /** One `[name, details]` pair of a listed roster. */
  datatype Entry = Entry(name: string, details: Activity)

  /** The roster as a client holds it: the entries of the JSON object the list
      request returned, in the object's key order. */
  type Snapshot = seq<Entry>

  /** The keys of a snapshot, in order. */
  function Names(s: Snapshot): (r: seq<string>)
    ensures |r| == |s|
    ensures forall i :: 0 <= i < |s| ==> r[i] == s[i].name
  {
    if s == [] then [] else [s[0].name] + Names(s[1..])
  }

  /** `s` lists every activity of the store's table `m` exactly once, each
      with the details the store holds for it. */
  ghost predicate SnapshotOf(s: Snapshot, m: map<string, Activity>)
  {
    && Distinct(Names(s))
    && (forall i :: 0 <= i < |s| ==> s[i].name in m && m[s[i].name] == s[i].details)
    && (forall n :: n in m ==> n in Names(s))
  }

  /** The requests a client issues to the roster service. */
  datatype Call =
    | ListCall
    | SignupCall(name: string, email: string)
    | UnregisterCall(name: string, email: string)
}
