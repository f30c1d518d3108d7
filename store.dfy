/** An abstract model of the hosted relational store the views talk to:
    three tables held as sequences of rows, the `eq`-filtered reads and
    writes the views issue, and ordering by date. Whether a call succeeds is
    decided outside the application and arrives as a `Reply`. */
module Store {
  import opened Wrappers
  import opened Records
  import opened Seqs

  // ---------------------------------------------------------------------
  // Reads

  predicate SortedByDate(s: seq<Event>) {
    forall i, j :: 0 <= i < j < |s| ==> s[i].date <= s[j].date
  }

  function InsertByDate(e: Event, s: seq<Event>): (r: seq<Event>)
    requires SortedByDate(s)
    ensures SortedByDate(r)
    ensures forall x :: x in r ==> x == e || x in s
    ensures multiset(r) == multiset(s) + multiset{e}
  {
    if s == [] then [e]
    else if e.date <= s[0].date then [e] + s
    else
      var rest := InsertByDate(e, s[1..]);
      assert forall x :: x in rest ==> s[0].date <= x.date;
      assert s == [s[0]] + s[1..];
      SortedCons(s[0], rest);
      [s[0]] + rest
  }

  lemma SortedCons(x: Event, s: seq<Event>)
    requires SortedByDate(s)
    requires forall y :: y in s ==> x.date <= y.date
    ensures SortedByDate([x] + s)
  {
    var r := [x] + s;
    forall i, j | 0 <= i < j < |r| ensures r[i].date <= r[j].date {
      if i > 0 {
        assert r[i] == s[i - 1] && r[j] == s[j - 1];
      } else {
        assert r[j] == s[j - 1];
      }
    }
  }

  /** `order("date", { ascending: true })`. Rows with equal dates keep
      their table order. */
  function SortByDate(s: seq<Event>): (r: seq<Event>)
    ensures SortedByDate(r)
    ensures multiset(r) == multiset(s)
  {
    if s == [] then []
    else
      assert s == [s[0]] + s[1..];
      InsertByDate(s[0], SortByDate(s[1..]))
  }

  /** `select("*").eq("status", "active").order("date")` on `events`. */
  function ActiveByDate(events: seq<Event>): (r: seq<Event>)
    ensures SortedByDate(r)
    ensures forall e :: e in r <==> e in events && e.status == "active"
    ensures multiset(r) == multiset(Filter(events, (e: Event) => e.status == "active"))
  {
    var active := Filter(events, (e: Event) => e.status == "active");
    var sorted := SortByDate(active);
    assert forall e :: e in sorted <==> e in active by {
      forall e ensures e in sorted <==> e in active {
        assert e in sorted <==> e in multiset(sorted);
        assert e in active <==> e in multiset(active);
      }
    }
    sorted
  }

  /** `select("*").eq("organizer_id", uid).order("date")` on `events`. */
  function OwnedByDate(events: seq<Event>, uid: string): seq<Event> {
    SortByDate(Filter(events, (e: Event) => e.organizerId == uid))
  }

  /** `select("*").eq("id", id)` on `events`. */
  function EventsWithId(events: seq<Event>, id: string): (r: seq<Event>)
    ensures forall e :: e in r <==> e in events && e.id == id
  {
    Filter(events, (e: Event) => e.id == id)
  }

  /** The first event row with the given id, as a foreign-key join finds it. */
  function FirstWithId(events: seq<Event>, id: string): (r: Option<Event>)
    ensures r.Some? ==> r.value in events && r.value.id == id
    ensures r.None? ==> forall e :: e in events ==> e.id != id
  {
    if events == [] then None
    else if events[0].id == id then Some(events[0])
    else FirstWithId(events[1..], id)
  }

  predicate MatchesPair(r: Registration, eventId: string, userId: string) {
    r.eventId == eventId && r.userId == userId
  }

  /** What `delete().eq("event_id", e).eq("user_id", u)` leaves of `registrations`. */
  function WithoutPair(regs: seq<Registration>, eventId: string, userId: string): seq<Registration> {
    Filter(regs, (r: Registration) => !MatchesPair(r, eventId, userId))
  }

  /** What `delete().eq("id", id)` leaves of `registrations`. */
  function WithoutRegistration(regs: seq<Registration>, id: nat): seq<Registration> {
    Filter(regs, (r: Registration) => r.id != id)
  }

  /** What `delete().eq("id", id)` leaves of `events`. */
  function WithoutEvent(events: seq<Event>, id: string): seq<Event> {
    Filter(events, (e: Event) => e.id != id)
  }

  /** `select("*").eq("event_id", e).eq("user_id", u).eq("status", "confirmed")`. */
  function ConfirmedFor(regs: seq<Registration>, eventId: string, userId: string): (r: seq<Registration>)
    ensures forall x :: x in r <==> x in regs && MatchesPair(x, eventId, userId) && x.status == "confirmed"
  {
    Filter(regs, (r: Registration) => MatchesPair(r, eventId, userId) && r.status == "confirmed")
  }

  /** One row of `registrations` joined (inner join) with its event. */
  datatype Joined = Joined(registration: Registration, event: Event)

  /** `select("..., events!inner(...)").eq("user_id", uid)` on
      `registrations`: the user's registrations whose event exists, each
      paired with that event, in table order. */
  function JoinForUser(events: seq<Event>, regs: seq<Registration>, uid: string): (r: seq<Joined>)
    ensures |r| <= |regs|
    ensures forall j :: j in r ==>
      j.registration in regs && j.registration.userId == uid &&
      j.event in events && j.event.id == j.registration.eventId
  {
    if regs == [] then []
    else
      var rest := JoinForUser(events, regs[1..], uid);
      if regs[0].userId == uid then
        match FirstWithId(events, regs[0].eventId)
        case Some(e) => [Joined(regs[0], e)] + rest
        case None => rest
      else rest
  }

  /** A registration the inner join keeps for `uid`: the user's, with an
      existing event. */
  predicate JoinKeeps(events: seq<Event>, uid: string, r: Registration) {
    r.userId == uid && FirstWithId(events, r.eventId).Some?
  }

  /** The registration column of joined rows. */
  function RegistrationsOf(joined: seq<Joined>): (r: seq<Registration>)
    ensures |r| == |joined|
    ensures forall i :: 0 <= i < |joined| ==> r[i] == joined[i].registration
  {
    if joined == [] then [] else [joined[0].registration] + RegistrationsOf(joined[1..])
  }

  /** The join returns exactly the registrations it keeps, all of them and in
      table order, each with the first event row of its event id. */
  lemma {:induction false} JoinIsExact(events: seq<Event>, regs: seq<Registration>, uid: string)
    ensures RegistrationsOf(JoinForUser(events, regs, uid))
         == Filter(regs, (r: Registration) => JoinKeeps(events, uid, r))
    ensures forall j :: j in JoinForUser(events, regs, uid) ==>
      FirstWithId(events, j.registration.eventId) == Some(j.event)
  {
    if regs != [] {
      JoinIsExact(events, regs[1..], uid);
      var rest := JoinForUser(events, regs[1..], uid);
      if JoinKeeps(events, uid, regs[0]) {
        var e := FirstWithId(events, regs[0].eventId).value;
        assert JoinForUser(events, regs, uid) == [Joined(regs[0], e)] + rest;
        assert RegistrationsOf([Joined(regs[0], e)] + rest) == [regs[0]] + RegistrationsOf(rest);
      }
    }
  }

  /** Hence every registration the join keeps is returned. */
  lemma JoinComplete(events: seq<Event>, regs: seq<Registration>, uid: string, r: Registration)
    requires r in regs && JoinKeeps(events, uid, r)
    ensures var joined := JoinForUser(events, regs, uid);
      exists i :: 0 <= i < |joined| && joined[i].registration == r &&
                  joined[i].event == FirstWithId(events, r.eventId).value
  {
    var joined := JoinForUser(events, regs, uid);
    JoinIsExact(events, regs, uid);
    assert r in RegistrationsOf(joined);
    var i :| 0 <= i < |joined| && RegistrationsOf(joined)[i] == r;
    assert joined[i] in joined;
  }

  // ---------------------------------------------------------------------
  // Writes

  /** `update({ current_attendees: v }).eq("id", id)` on `events`: every row
      with that id gets the absolute value `v`; nothing else changes. */
  function SetAttendees(events: seq<Event>, id: string, v: int): (r: seq<Event>)
    ensures |r| == |events|
    ensures forall i :: 0 <= i < |events| ==>
      r[i] == if events[i].id == id then events[i].(currentAttendees := v) else events[i]
  {
    if events == [] then []
    else
      [if events[0].id == id then events[0].(currentAttendees := v) else events[0]]
      + SetAttendees(events[1..], id, v)
  }

  /** `upsert(p)` on `profiles`, keyed by id: every row with `p.id` is
      replaced by `p`, or `p` is appended when there is none. */
  function Upsert(profiles: seq<Profile>, p: Profile): seq<Profile> {
    if exists q :: q in profiles && q.id == p.id then
      seq(|profiles|, i requires 0 <= i < |profiles| =>
        if profiles[i].id == p.id then p else profiles[i])
    else profiles + [p]
  }

  /** After an upsert, the rows with `p.id` are exactly `p`, at least one
      exists, and rows with other ids are untouched. */
  lemma UpsertStores(profiles: seq<Profile>, p: Profile)
    ensures p in Upsert(profiles, p)
    ensures forall q :: q in Upsert(profiles, p) && q.id == p.id ==> q == p
    ensures forall q :: q in profiles && q.id != p.id ==> q in Upsert(profiles, p)
    ensures forall q :: q in Upsert(profiles, p) && q.id != p.id ==> q in profiles
  {
    var r := Upsert(profiles, p);
    if exists q :: q in profiles && q.id == p.id {
      var q :| q in profiles && q.id == p.id;
      var i :| 0 <= i < |profiles| && profiles[i] == q;
      assert r[i] == p;
      forall q' | q' in profiles && q'.id != p.id ensures q' in r {
        var k :| 0 <= k < |profiles| && profiles[k] == q';
        assert r[k] == q';
      }
    }
  }

  /** Two writes of the same absolute value leave what one write leaves:
      two registrants working from the same snapshot raise the count once. */
  lemma {:induction false} SetAttendeesAbsorbs(events: seq<Event>, id: string, v: int, w: int)
    ensures SetAttendees(SetAttendees(events, id, v), id, w) == SetAttendees(events, id, w)
  {
    var a := SetAttendees(SetAttendees(events, id, v), id, w);
    var b := SetAttendees(events, id, w);
    assert |a| == |b|;
    forall i | 0 <= i < |a| ensures a[i] == b[i] {
      assert SetAttendees(events, id, v)[i].id == events[i].id;
    }
  }

  // ---------------------------------------------------------------------
  // The store

  class Database {
    var events: seq<Event>
    var registrations: seq<Registration>
    var profiles: seq<Profile>
    /** Source of the ids the store assigns to new registrations. */
    var nextRegistrationId: nat

    /** Every registration id was handed out before, so a new one is fresh. */
    ghost predicate Valid()
      reads this
    {
      forall r :: r in registrations ==> r.id < nextRegistrationId
    }

    constructor (events: seq<Event>, registrations: seq<Registration>, profiles: seq<Profile>)
      ensures this.events == events && this.registrations == registrations && this.profiles == profiles
      ensures Valid()
    {
      this.events := events;
      this.registrations := registrations;
      this.profiles := profiles;
      nextRegistrationId := MaxIdAbove(registrations);
    }

    static function MaxIdAbove(regs: seq<Registration>): (n: nat)
      ensures forall r :: r in regs ==> r.id < n
    {
      if regs == [] then 0
      else
        var m := MaxIdAbove(regs[1..]);
        if regs[0].id < m then m else regs[0].id + 1
    }

    /** `insert({ event_id, user_id, status })` on `registrations`. */
    method InsertRegistration(eventId: string, userId: string, status: string, reply: Reply)
      requires Valid()
      modifies this
      ensures Valid()
      ensures reply.Ok? ==>
        && registrations == old(registrations) + [Registration(old(nextRegistrationId), eventId, userId, status)]
        && nextRegistrationId == old(nextRegistrationId) + 1
      ensures reply.Err? ==>
        registrations == old(registrations) && nextRegistrationId == old(nextRegistrationId)
      ensures forall r :: r in old(registrations) ==> r.id != old(nextRegistrationId)
      ensures events == old(events) && profiles == old(profiles)
    {
      if reply.Ok? {
        registrations := registrations + [Registration(nextRegistrationId, eventId, userId, status)];
        nextRegistrationId := nextRegistrationId + 1;
      }
    }

    /** `update({ current_attendees: v }).eq("id", id)` on `events`. */
    method UpdateAttendees(id: string, v: int, reply: Reply)
      requires Valid()
      modifies this
      ensures Valid()
      ensures events == if reply.Ok? then SetAttendees(old(events), id, v) else old(events)
      ensures registrations == old(registrations) && profiles == old(profiles)
      ensures nextRegistrationId == old(nextRegistrationId)
    {
      if reply.Ok? {
        events := SetAttendees(events, id, v);
      }
    }

    /** `delete().eq("event_id", e).eq("user_id", u)` on `registrations`. */
    method DeleteRegistrationsFor(eventId: string, userId: string, reply: Reply)
      requires Valid()
      modifies this
      ensures Valid()
      ensures registrations == if reply.Ok?
        then WithoutPair(old(registrations), eventId, userId)
        else old(registrations)
      ensures events == old(events) && profiles == old(profiles)
      ensures nextRegistrationId == old(nextRegistrationId)
    {
      if reply.Ok? {
        registrations := WithoutPair(registrations, eventId, userId);
      }
    }

    /** `delete().eq("id", id)` on `registrations`. */
    method DeleteRegistration(id: nat, reply: Reply)
      requires Valid()
      modifies this
      ensures Valid()
      ensures registrations == if reply.Ok?
        then WithoutRegistration(old(registrations), id)
        else old(registrations)
      ensures events == old(events) && profiles == old(profiles)
      ensures nextRegistrationId == old(nextRegistrationId)
    {
      if reply.Ok? {
        registrations := WithoutRegistration(registrations, id);
      }
    }

    /** `delete().eq("id", id)` on `events`. */
    method DeleteEvent(id: string, reply: Reply)
      requires Valid()
      modifies this
      ensures Valid()
      ensures events == if reply.Ok? then WithoutEvent(old(events), id) else old(events)
      ensures registrations == old(registrations) && profiles == old(profiles)
      ensures nextRegistrationId == old(nextRegistrationId)
    {
      if reply.Ok? {
        events := WithoutEvent(events, id);
      }
    }

    /** `upsert(p)` on `profiles`. */
    method UpsertProfile(p: Profile, reply: Reply)
      requires Valid()
      modifies this
      ensures Valid()
      ensures profiles == if reply.Ok? then Upsert(old(profiles), p) else old(profiles)
      ensures events == old(events) && registrations == old(registrations)
      ensures nextRegistrationId == old(nextRegistrationId)
    {
      if reply.Ok? {
        profiles := Upsert(profiles, p);
      }
    }
  }
}
