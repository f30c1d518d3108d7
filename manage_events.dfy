/** The staff page listing the events the signed-in user organises, with
    the confirmed delete action. */
module ManageEvents {
  import opened Wrappers
  import opened Records
  import opened Seqs
  import Store

  /** The list a successful fetch shows: exactly the user's events, each
      as often as in the table, in ascending date order. */
  lemma OwnedListIsExact(events: seq<Event>, uid: string)
    ensures Store.SortedByDate(Store.OwnedByDate(events, uid))
    ensures forall e :: e in Store.OwnedByDate(events, uid) <==> e in events && e.organizerId == uid
    ensures multiset(Store.OwnedByDate(events, uid)) == multiset(Filter(events, (e: Event) => e.organizerId == uid))
  {
    var owned := Filter(events, (e: Event) => e.organizerId == uid);
    var sorted := Store.OwnedByDate(events, uid);
    forall e ensures e in sorted <==> e in owned {
      assert e in sorted <==> e in multiset(sorted);
      assert e in owned <==> e in multiset(owned);
    }
  }

  /** After deleting an id, no event with that id is left and all others stay. */
  lemma DeleteRemovesOnlyThatEvent(events: seq<Event>, id: string)
    ensures forall e :: e in Store.WithoutEvent(events, id) <==> e in events && e.id != id
    ensures IsSubsequence(Store.WithoutEvent(events, id), events)
  {
    FilterIsSubsequence(events, (e: Event) => e.id != id);
  }

  class ManageEventsPage {
    const user: Option<User>
    var events: seq<Event>
    var loading: bool
    var error: Option<string>

    constructor (user: Option<User>)
      ensures this.user == user && events == [] && loading && error == None
    {
      this.user := user;
      events := [];
      loading := true;
      error := None;
    }

    /** Loads the user's events in date order. A failure sets the error and
        keeps the old list; success does not clear an old error. */
    method FetchEvents(db: Store.Database, reply: Reply)
      modifies this
      ensures !loading
      ensures user.None? ==> events == old(events) && error == Some(NULL_USER_MESSAGE)
      ensures user.Some? && reply.Err? ==> events == old(events) && error == Some(reply.message)
      ensures user.Some? && reply.Ok? ==>
        events == Store.OwnedByDate(db.events, user.value.id) && error == old(error)
    {
      loading := true;
      if user.None? {
        error := Some(NULL_USER_MESSAGE);
      } else if reply.Err? {
        error := Some(reply.message);
      } else {
        events := Store.OwnedByDate(db.events, user.value.id);
      }
      loading := false;
    }

    /** The effect on the user: the fetch runs only when a user is present. */
    method OnUserChange(db: Store.Database, reply: Reply)
      modifies this
      ensures user.None? ==> events == old(events) && loading == old(loading) && error == old(error)
      ensures user.Some? ==> !loading
      ensures user.Some? && reply.Err? ==> events == old(events) && error == Some(reply.message)
      ensures user.Some? && reply.Ok? ==>
        events == Store.OwnedByDate(db.events, user.value.id) && error == old(error)
    {
      if user.Some? {
        FetchEvents(db, reply);
      }
    }

    /** Delete after confirmation, then refetch. Declining does nothing; a
        failed delete sets the error and refetches nothing. */
    method HandleDeleteEvent(db: Store.Database, eventId: string, confirmed: bool, deleteReply: Reply, fetchReply: Reply)
      requires db.Valid()
      modifies this, db
      ensures db.Valid()
      ensures db.nextRegistrationId == old(db.nextRegistrationId)
      ensures db.registrations == old(db.registrations) && db.profiles == old(db.profiles)
      ensures !confirmed ==>
        db.events == old(db.events) && events == old(events) && loading == old(loading) && error == old(error)
      ensures confirmed ==> db.events == if deleteReply.Ok?
        then Store.WithoutEvent(old(db.events), eventId)
        else old(db.events)
      ensures confirmed && deleteReply.Err? ==>
        events == old(events) && loading == old(loading) && error == Some(deleteReply.message)
      ensures confirmed && deleteReply.Ok? && user.Some? && fetchReply.Ok? ==>
        events == Store.OwnedByDate(db.events, user.value.id) && error == old(error) && !loading
      ensures confirmed && deleteReply.Ok? && user.Some? && fetchReply.Err? ==>
        events == old(events) && error == Some(fetchReply.message) && !loading
      ensures confirmed && deleteReply.Ok? && user.None? ==>
        events == old(events) && error == Some(NULL_USER_MESSAGE) && !loading
    {
      if !confirmed {
        return;
      }
      db.DeleteEvent(eventId, deleteReply);
      if deleteReply.Err? {
        error := Some(deleteReply.message);
        return;
      }
      FetchEvents(db, fetchReply);
    }
  }
}
