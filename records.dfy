/** Small failure-carrying wrappers shared by every module. */
module Wrappers {

  datatype Option<+T> = None | Some(value: T)

  /** The outcome of one remote call to the hosted store: it either
      succeeds or fails with an error message. Which one happens is not
      under the application's control, so every handler takes it as a
      parameter. */
  datatype Reply = Ok | Err(message: string)
}

/** The rows of the remote tables and the identity objects handed out by
    the identity provider. */
module Records {
  import opened Wrappers

  /** The message the runtime raises when `user.id` is read from a null
      user, in the wording of the V8 engine. */
  const NULL_USER_MESSAGE := "Cannot read properties of null (reading 'id')"

  /** Timestamps are milliseconds since the epoch. */
  type Millis = int

  /** A row of the `events` table. */
  datatype Event = Event(
    id: string,
    name: string,
    description: string,
    date: Millis,
    location: string,
    price: real,
    image: string,
    maxAttendees: int,
    currentAttendees: int,
    status: string,
    organizerId: string)

  /** A row of the `registrations` table; `id` is assigned by the store. */
  datatype Registration = Registration(
    id: nat,
    eventId: string,
    userId: string,
    status: string)

  /** A row of the `profiles` table. `None` stands for a null column. */
  datatype Profile = Profile(
    id: string,
    fullName: Option<string>,
    avatarUrl: Option<string>,
    role: string)

  /** The identity object of a signed-in user. `metadata` holds the
      provider-supplied `user_metadata` entries; `role` is the object's own
      `role` property, if it has one. */
  datatype User = User(
    id: string,
    email: Option<string>,
    metadata: map<string, string>,
    role: Option<string>)

  /** A session notification; `user` is absent when nobody is signed in. */
  datatype Session = Session(user: Option<User>)
}
