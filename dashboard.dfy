/** The user's dashboard: the registrations joined with their events,
    turned into display rows, and the cancel action on a row. */
module Dashboard {
  import opened Wrappers
  import opened Records
  import opened Seqs
  import Store

  /** A table row: the joined event's selected columns plus the id of the
      registration it came from. */
  datatype DisplayRow = DisplayRow(
    id: string,
    name: string,
    date: Millis,
    location: string,
    status: string,
    description: string,
    registrationId: nat)

  function ToDisplayRow(j: Store.Joined): DisplayRow {
    var e := j.event;
    DisplayRow(e.id, e.name, e.date, e.location, e.status, e.description, j.registration.id)
  }

  function ToDisplayRows(joined: seq<Store.Joined>): (rows: seq<DisplayRow>)
    ensures |rows| == |joined|
  {
    if joined == [] then [] else [ToDisplayRow(joined[0])] + ToDisplayRows(joined[1..])
  }

  /** Row `i` shows the event of joined row `i` and carries its registration id. */
  lemma {:induction false} DisplayRowsFollowJoin(joined: seq<Store.Joined>, i: nat)
    requires i < |joined|
    ensures var row := ToDisplayRows(joined)[i];
      && row.registrationId == joined[i].registration.id
      && row.id == joined[i].event.id && row.name == joined[i].event.name
      && row.date == joined[i].event.date && row.location == joined[i].event.location
      && row.status == joined[i].event.status && row.description == joined[i].event.description
  {
    if i > 0 {
      DisplayRowsFollowJoin(joined[1..], i - 1);
    }
  }

  /** Every displayed row belongs to one of the user's registrations and shows
      that registration's event. */
  lemma DisplayRowsAreTheUsers(events: seq<Event>, regs: seq<Registration>, uid: string, i: nat)
    requires i < |Store.JoinForUser(events, regs, uid)|
    ensures var row := ToDisplayRows(Store.JoinForUser(events, regs, uid))[i];
      exists r :: r in regs && r.userId == uid && r.id == row.registrationId && r.eventId == row.id
  {
    var joined := Store.JoinForUser(events, regs, uid);
    DisplayRowsFollowJoin(joined, i);
    assert joined[i] in joined;
  }

  /** Conversely, every registration of the user whose event exists is
      displayed, with that event's id. */
  lemma UsersRegistrationsAreShown(events: seq<Event>, regs: seq<Registration>, uid: string, r: Registration)
    requires r in regs && Store.JoinKeeps(events, uid, r)
    ensures var rows := ToDisplayRows(Store.JoinForUser(events, regs, uid));
      exists i :: 0 <= i < |rows| && rows[i].registrationId == r.id && rows[i].id == r.eventId
  {
    var joined := Store.JoinForUser(events, regs, uid);
    Store.JoinComplete(events, regs, uid, r);
    var i :| 0 <= i < |joined| && joined[i].registration == r &&
             joined[i].event == Store.FirstWithId(events, r.eventId).value;
    DisplayRowsFollowJoin(joined, i);
  }

  class DashboardPage {
    const user: Option<User>
    var registeredEvents: seq<DisplayRow>
    var loading: bool
    var error: Option<string>

    constructor (user: Option<User>)
      ensures this.user == user
      ensures registeredEvents == [] && loading && error == None
    {
      this.user := user;
      registeredEvents := [];
      loading := true;
      error := None;
    }

    /** Loads the user's registrations with their events. A failure sets the
        error and keeps the old rows; success does not clear an old error. */
    method FetchRegisteredEvents(db: Store.Database, reply: Reply)
      modifies this
      ensures !loading
      ensures user.None? ==> registeredEvents == old(registeredEvents) && error == Some(NULL_USER_MESSAGE)
      ensures user.Some? && reply.Err? ==> registeredEvents == old(registeredEvents) && error == Some(reply.message)
      ensures user.Some? && reply.Ok? ==>
        && registeredEvents == ToDisplayRows(Store.JoinForUser(db.events, db.registrations, user.value.id))
        && error == old(error)
    {
      loading := true;
      if user.None? {
        error := Some(NULL_USER_MESSAGE);
      } else if reply.Err? {
        error := Some(reply.message);
      } else {
        var joined := Store.JoinForUser(db.events, db.registrations, user.value.id);
        registeredEvents := ToDisplayRows(joined);
      }
      loading := false;
    }

    /** The effect on the user: the fetch runs only when a user is present. */
    method OnUserChange(db: Store.Database, reply: Reply)
      modifies this
      ensures user.None? ==>
        registeredEvents == old(registeredEvents) && loading == old(loading) && error == old(error)
      ensures user.Some? ==> !loading
      ensures user.Some? && reply.Err? ==> registeredEvents == old(registeredEvents) && error == Some(reply.message)
      ensures user.Some? && reply.Ok? ==>
        && registeredEvents == ToDisplayRows(Store.JoinForUser(db.events, db.registrations, user.value.id))
        && error == old(error)
    {
      if user.Some? {
        FetchRegisteredEvents(db, reply);
      }
    }

    /** Cancel: delete the registration with the row's id, then refetch. A
        failed delete sets the error and refetches nothing. Attendee counts
        are never touched. */
    method CancelRegistration(db: Store.Database, row: DisplayRow, deleteReply: Reply, fetchReply: Reply)
      requires db.Valid()
      modifies this, db
      ensures db.Valid()
      ensures db.nextRegistrationId == old(db.nextRegistrationId)
      ensures db.events == old(db.events) && db.profiles == old(db.profiles)
      ensures db.registrations == if deleteReply.Ok?
        then Store.WithoutRegistration(old(db.registrations), row.registrationId)
        else old(db.registrations)
      ensures deleteReply.Err? ==>
        && error == Some(deleteReply.message)
        && registeredEvents == old(registeredEvents) && loading == old(loading)
      ensures deleteReply.Ok? && user.Some? && fetchReply.Ok? ==>
        && registeredEvents == ToDisplayRows(Store.JoinForUser(db.events, db.registrations, user.value.id))
        && error == old(error) && !loading
      ensures deleteReply.Ok? && user.Some? && fetchReply.Err? ==>
        registeredEvents == old(registeredEvents) && error == Some(fetchReply.message) && !loading
      ensures deleteReply.Ok? && user.None? ==>
        registeredEvents == old(registeredEvents) && error == Some(NULL_USER_MESSAGE) && !loading
    {
      db.DeleteRegistration(row.registrationId, deleteReply);
      if deleteReply.Err? {
        error := Some(deleteReply.message);
        return;
      }
      FetchRegisteredEvents(db, fetchReply);
    }
  }

  /** The cancelled registration is gone and every other one is kept. */
  lemma CancelRemovesOnlyThatRow(regs: seq<Registration>, id: nat)
    ensures forall r :: r in Store.WithoutRegistration(regs, id) <==> r in regs && r.id != id
    ensures IsSubsequence(Store.WithoutRegistration(regs, id), regs)
  {
    FilterIsSubsequence(regs, (r: Registration) => r.id != id);
  }
}
