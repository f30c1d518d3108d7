/** The event detail page: loading one event, finding out whether the
    signed-in user is registered, and the register / unregister handlers
    with their sequence of remote writes. */
module EventDetail {
  import opened Wrappers
  import opened Records
  import opened Seqs
  import Store

  const NOT_FOUND := "Event not found."

  /** The table after the insert of a confirmed row with store id `id`. */
  function Inserted(regs: seq<Registration>, id: nat, eventId: string, userId: string): seq<Registration> {
    regs + [Registration(id, eventId, userId, "confirmed")]
  }

  /** The table after the compensating delete, which may itself fail. */
  function Compensated(regs: seq<Registration>, eventId: string, userId: string, reply: Reply): seq<Registration> {
    if reply.Ok? then Store.WithoutPair(regs, eventId, userId) else regs
  }

  /** The delete leaves no registration of the pair and keeps all others. */
  lemma WithoutPairRemovesPair(regs: seq<Registration>, eventId: string, userId: string)
    ensures forall r :: r in Store.WithoutPair(regs, eventId, userId) ==> !Store.MatchesPair(r, eventId, userId)
    ensures forall r :: r in regs && !Store.MatchesPair(r, eventId, userId) ==> r in Store.WithoutPair(regs, eventId, userId)
    ensures IsSubsequence(Store.WithoutPair(regs, eventId, userId), regs)
  {
    FilterIsSubsequence(regs, (r: Registration) => !Store.MatchesPair(r, eventId, userId));
  }

  /** A compensated registration leaves no orphan row behind: after insert
      and the compensating delete, the table is what the delete alone would
      have left of the table before the insert. */
  lemma CompensationLeavesNoOrphan(regs: seq<Registration>, added: Registration, eventId: string, userId: string)
    requires added.eventId == eventId && added.userId == userId
    ensures Store.WithoutPair(regs + [added], eventId, userId) == Store.WithoutPair(regs, eventId, userId)
  {
    FilterAppend(regs, [added], (r: Registration) => !Store.MatchesPair(r, eventId, userId));
  }

  class EventDetailPage {
    /** The `:id` route parameter. */
    const eventId: string
    /** The signed-in user from the auth context. */
    const user: Option<User>
    var event: Option<Event>
    var loading: bool
    var registered: bool
    var regLoading: bool
    var error: string

    constructor (eventId: string, user: Option<User>)
      ensures this.eventId == eventId && this.user == user
      ensures event == None && loading && !registered && !regLoading && error == ""
    {
      this.eventId := eventId;
      this.user := user;
      event := None;
      loading := true;
      registered := false;
      regLoading := false;
      error := "";
    }

    /** `select("*").eq("id", id).single()`: succeeds only when exactly one
        row has the id; anything else reports the event as not found. */
    method FetchEvent(db: Store.Database, reply: Reply)
      modifies this
      ensures var rows := Store.EventsWithId(db.events, eventId);
        if reply.Ok? && |rows| == 1 then event == Some(rows[0]) && error == old(error)
        else event == old(event) && error == NOT_FOUND
      ensures !loading
      ensures registered == old(registered) && regLoading == old(regLoading)
    {
      loading := true;
      var rows := Store.EventsWithId(db.events, eventId);
      if reply.Err? || |rows| != 1 {
        error := NOT_FOUND;
        loading := false;
        return;
      }
      event := Some(rows[0]);
      loading := false;
    }

    /** The effect that runs once both a user and an event are present:
        `registered` becomes whether exactly one confirmed row exists for
        the pair (`.single()`); a failed query reads as not registered. */
    method CheckRegistration(db: Store.Database, reply: Reply)
      modifies this`registered
      ensures user.Some? && event.Some? ==>
        registered == (reply.Ok? && |Store.ConfirmedFor(db.registrations, eventId, user.value.id)| == 1)
      ensures user.None? || event.None? ==> registered == old(registered)
    {
      if user.Some? && event.Some? {
        var rows := Store.ConfirmedFor(db.registrations, eventId, user.value.id);
        registered := reply.Ok? && |rows| == 1;
      }
    }

    /** Register: insert a confirmed row, then write the snapshot's
        attendee count plus one to the event, and delete the pair's rows
        again if that write fails. There is no capacity check. */
    method HandleRegister(db: Store.Database, insertReply: Reply, updateReply: Reply, compensateReply: Reply)
      requires db.Valid()
      requires user.Some? && event.Some?
      modifies this, db
      ensures db.Valid()
      ensures db.nextRegistrationId == old(db.nextRegistrationId) + if insertReply.Ok? then 1 else 0
      ensures !regLoading && loading == old(loading)
      ensures db.profiles == old(db.profiles)
      // The insert fails: nothing is written.
      ensures insertReply.Err? ==>
        && error == insertReply.message
        && registered == old(registered) && event == old(event)
        && db.events == old(db.events) && db.registrations == old(db.registrations)
      // The update fails: the pair's rows are deleted again if that succeeds.
      ensures insertReply.Ok? && updateReply.Err? ==>
        && error == updateReply.message
        && registered == old(registered) && event == old(event)
        && db.events == old(db.events)
        && db.registrations == Compensated(
             Inserted(old(db.registrations), old(db.nextRegistrationId), eventId, user.value.id),
             eventId, user.value.id, compensateReply)
      // Both succeed: the stored count is the snapshot's plus one.
      ensures insertReply.Ok? && updateReply.Ok? ==>
        && error == "" && registered
        && event == Some(old(event.value).(currentAttendees := old(event.value.currentAttendees) + 1))
        && db.events == Store.SetAttendees(old(db.events), eventId, old(event.value.currentAttendees) + 1)
        && db.registrations == Inserted(old(db.registrations), old(db.nextRegistrationId), eventId, user.value.id)
    {
      regLoading := true;
      error := "";
      db.InsertRegistration(eventId, user.value.id, "confirmed", insertReply);
      if insertReply.Err? {
        error := insertReply.message;
        regLoading := false;
        return;
      }
      UpdateCountOrCompensate(db, updateReply, compensateReply);
      regLoading := false;
    }

    /** The second half of registering, once the insert succeeded. */
    method UpdateCountOrCompensate(db: Store.Database, updateReply: Reply, compensateReply: Reply)
      requires db.Valid()
      requires user.Some? && event.Some? && error == ""
      modifies this`error, this`registered, this`event, db
      ensures db.Valid()
      ensures db.nextRegistrationId == old(db.nextRegistrationId)
      ensures db.profiles == old(db.profiles)
      ensures updateReply.Err? ==>
        && error == updateReply.message
        && registered == old(registered) && event == old(event)
        && db.events == old(db.events)
        && db.registrations == Compensated(old(db.registrations), eventId, user.value.id, compensateReply)
      ensures updateReply.Ok? ==>
        && error == "" && registered
        && event == Some(old(event.value).(currentAttendees := old(event.value.currentAttendees) + 1))
        && db.events == Store.SetAttendees(old(db.events), eventId, old(event.value.currentAttendees) + 1)
        && db.registrations == old(db.registrations)
    {
      db.UpdateAttendees(eventId, event.value.currentAttendees + 1, updateReply);
      if updateReply.Err? {
        error := updateReply.message;
        db.DeleteRegistrationsFor(eventId, user.value.id, compensateReply);
      } else {
        registered := true;
        var prev := event.value;
        event := Some(prev.(currentAttendees := prev.currentAttendees + 1));
      }
    }

    /** Unregister: delete the pair's rows; the attendee count is left as it is. */
    method HandleUnregister(db: Store.Database, reply: Reply)
      requires db.Valid()
      requires user.Some?
      modifies this, db
      ensures db.Valid()
      ensures db.nextRegistrationId == old(db.nextRegistrationId)
      ensures !regLoading && loading == old(loading) && event == old(event)
      ensures db.events == old(db.events) && db.profiles == old(db.profiles)
      ensures db.registrations == if reply.Ok?
        then Store.WithoutPair(old(db.registrations), eventId, user.value.id)
        else old(db.registrations)
      ensures reply.Ok? ==> !registered && error == ""
      ensures reply.Err? ==> registered == old(registered) && error == reply.message
    {
      regLoading := true;
      error := "";
      db.DeleteRegistrationsFor(eventId, user.value.id, reply);
      if reply.Err? {
        error := reply.message;
      } else {
        registered := false;
      }
      regLoading := false;
    }
  }

  /** An event already at capacity still accepts a registration: the count
      goes past the maximum. */
  method RegisterWhenFull() returns (registered: bool, attendees: int, maxAttendees: int)
    ensures registered && attendees == 3 && maxAttendees == 2
  {
    var full := Event("e1", "Meetup", "", 0, "Hall", 0.0, "", 2, 2, "active", "staff1");
    var db := new Store.Database([full], [], []);
    var u := User("u3", None, map[], None);
    var page := new EventDetailPage("e1", Some(u));
    page.FetchEvent(db, Ok);
    page.HandleRegister(db, Ok, Ok, Ok);
    registered := page.registered;
    attendees := page.event.value.currentAttendees;
    maxAttendees := page.event.value.maxAttendees;
  }

  /** Two users who opened the page on the same snapshot both register;
      both rows are stored but the stored count rises by one only, since
      each writes the absolute value it computed. */
  method ConcurrentRegistrationsLoseAnIncrement() returns (rows: nat, stored: int)
    ensures rows == 2 && stored == 1
  {
    var e := Event("e1", "Meetup", "", 0, "Hall", 0.0, "", 10, 0, "active", "staff1");
    var db := new Store.Database([e], [], []);
    var a := new EventDetailPage("e1", Some(User("ua", None, map[], None)));
    var b := new EventDetailPage("e1", Some(User("ub", None, map[], None)));
    a.FetchEvent(db, Ok);
    b.FetchEvent(db, Ok);
    a.HandleRegister(db, Ok, Ok, Ok);
    b.HandleRegister(db, Ok, Ok, Ok);
    rows := |db.registrations|;
    stored := db.events[0].currentAttendees;
  }
}
