/** The session holder: the signed-in user and the loading flag, driven by
    session notifications, the profile row written on every sign-in, and
    the value the context hands to the pages. */
module AuthContext {
  import opened Wrappers
  import opened Records
  import Store

  /** `a || b` for string-or-missing operands: `a` when it is a non-empty
      string, otherwise `b`. */
  function OrElse(a: Option<string>, b: Option<string>): (r: Option<string>)
    ensures a.Some? && a.value != "" ==> r == a
    ensures (a.None? || a.value == "") ==> r == b
  {
    if a.Some? && a.value != "" then a else b
  }

  function MetadataEntry(u: User, key: string): Option<string> {
    if key in u.metadata then Some(u.metadata[key]) else None
  }

  /** The profile upserted on sign-in (`ensureProfile`). */
  function ProfileFor(u: User): Profile {
    Profile(u.id, OrElse(MetadataEntry(u, "full_name"), u.email), OrElse(MetadataEntry(u, "avatar_url"), None), "user")
  }

  /** The profile carries the user's id and role "user"; its name is the
      metadata's non-empty `full_name`, else the email; its avatar is the
      metadata's non-empty `avatar_url`, else null. */
  lemma ProfileFallbacks(u: User)
    ensures ProfileFor(u).id == u.id && ProfileFor(u).role == "user"
    ensures "full_name" in u.metadata && u.metadata["full_name"] != "" ==>
      ProfileFor(u).fullName == Some(u.metadata["full_name"])
    ensures !("full_name" in u.metadata && u.metadata["full_name"] != "") ==>
      ProfileFor(u).fullName == u.email
    ensures "avatar_url" in u.metadata && u.metadata["avatar_url"] != "" ==>
      ProfileFor(u).avatarUrl == Some(u.metadata["avatar_url"])
    ensures !("avatar_url" in u.metadata && u.metadata["avatar_url"] != "") ==>
      ProfileFor(u).avatarUrl == None
  {
  }

  /** Every sign-in overwrites the user's profile role with "user", whatever
      it was; other users' profiles are untouched. */
  lemma SignInResetsRole(profiles: seq<Profile>, u: User)
    ensures exists q :: q in Store.Upsert(profiles, ProfileFor(u)) && q.id == u.id
    ensures forall q :: q in Store.Upsert(profiles, ProfileFor(u)) && q.id == u.id ==> q.role == "user"
    ensures forall q :: q in profiles && q.id != u.id ==> q in Store.Upsert(profiles, ProfileFor(u))
  {
    Store.UpsertStores(profiles, ProfileFor(u));
  }

  /** `session?.user ?? null`. */
  function SessionUser(session: Option<Session>): Option<User> {
    if session.Some? then session.value.user else None
  }

  /** JavaScript values as far as the context and its readers see them. */
  datatype JsValue = Undefined | Null | Bool(b: bool) | UserObject(user: User) | Function(name: string)

  predicate Truthy(v: JsValue) {
    match v
    case Undefined => false
    case Null => false
    case Bool(b) => b
    case UserObject(_) => true
    case Function(_) => true
  }

  /** Reading a property of the context object; a missing key reads as undefined. */
  function Lookup(ctx: map<string, JsValue>, key: string): JsValue {
    if key in ctx then ctx[key] else Undefined
  }

  /** The provider's `value`: the user and the four auth functions; there is
      no `loading` entry. */
  function ContextValue(user: Option<User>): (ctx: map<string, JsValue>)
    ensures ctx.Keys == {"signUp", "signIn", "signOut", "signInWithGoogle", "user"}
    ensures "loading" !in ctx
    ensures Lookup(ctx, "user") == if user.Some? then UserObject(user.value) else Null
  {
    map[
      "signUp" := Function("signUp"),
      "signIn" := Function("signIn"),
      "signOut" := Function("signOut"),
      "signInWithGoogle" := Function("signInWithGoogle"),
      "user" := if user.Some? then UserObject(user.value) else Null]
  }

  /** The identity-provider calls the four auth functions delegate to. */
  datatype AuthRequest =
    | SignUp(credentials: string)
    | SignInWithPassword(credentials: string)
    | SignOut
    | SignInWithOAuth(provider: string)

  class AuthProvider {
    var user: Option<User>
    var loading: bool

    constructor ()
      ensures user == None && loading && !RendersChildren()
    {
      user := None;
      loading := true;
    }

    /** The handling shared by the initial `getSession` and every
        auth-change notification: take the session's user, write the
        profile when there is one (a failed write is ignored), stop loading. */
    method OnSession(db: Store.Database, session: Option<Session>, upsertReply: Reply)
      requires db.Valid()
      modifies this, db
      ensures db.Valid()
      ensures db.nextRegistrationId == old(db.nextRegistrationId)
      ensures user == SessionUser(session) && !loading
      // From the first session on, the children render and see the user.
      ensures RendersChildren() && Lookup(Value(), "user") == if user.Some? then UserObject(user.value) else Null
      ensures db.profiles == if user.Some? && upsertReply.Ok?
        then Store.Upsert(old(db.profiles), ProfileFor(user.value))
        else old(db.profiles)
      ensures db.events == old(db.events) && db.registrations == old(db.registrations)
    {
      user := SessionUser(session);
      if user.Some? {
        db.UpsertProfile(ProfileFor(user.value), upsertReply);
      }
      loading := false;
    }

    /** Children are rendered only once loading is over. */
    function RendersChildren(): bool
      reads this
    {
      !loading
    }

    function Value(): map<string, JsValue>
      reads this
    {
      ContextValue(user)
    }

    /** The auth functions only delegate to the identity provider. The
        method has no `modifies` clause, so it changes no provider state: in
        particular signing out leaves `user` as it is until the provider's
        notification arrives through `OnSession`. The call is returned as
        the request sent. */
    method Request(call: AuthRequest) returns (sent: AuthRequest)
      ensures sent == call
    {
      sent := call;
    }
  }

  /** Signing out clears the user only through the notification that follows. */
  method SignOutThenNotify(u: User) returns (afterCall: Option<User>, afterNotification: Option<User>)
    ensures afterCall == Some(u) && afterNotification == None
  {
    var db := new Store.Database([], [], []);
    var auth := new AuthProvider();
    auth.OnSession(db, Some(Session(Some(u))), Ok);
    var _ := auth.Request(SignOut);
    afterCall := auth.user;
    auth.OnSession(db, Some(Session(None)), Ok);
    afterNotification := auth.user;
  }
}
