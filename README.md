# Event Compass: a Dafny model of the catalog, registration and staff logic

Event Compass is a browser application where people browse events, register
for them, and staff users create and delete events. Persistence and identity
live in a hosted backend; the application adds client-side logic on top of it.
This project models that logic and proves properties of it:

- the catalog's filter pipeline (search, then date range, then price bucket,
  then location), its reset to page 1, and pagination in pages of nine;
- the registration workflow on the event detail page. Register inserts a
  row, writes the snapshot's attendee count plus one, and deletes the rows
  again if that write fails. Unregister is a plain delete;
- the dashboard's join rows and its cancel action;
- the staff page's owned-event list and its confirmed delete;
- the create-event form's change handler and its submission;
- the session holder: session notifications, the profile row written at
  sign-in, and the context value it exports;
- the staff route gate and the route table.

The hosted store is abstract. `Store.Database` holds the `events`,
`registrations` and `profiles` tables as sequences of rows. Its methods are
the `eq`-filtered writes the pages issue, and the reads are functions over
the tables. Every remote call takes a `Reply` parameter: `Ok`, or
`Err(message)`. That is how a call that may fail is modelled. Other
stand-ins:

- The clock reading is a `now` parameter. Timestamps are integer
  milliseconds.
- "One month earlier" is a `monthBack` function parameter.
- `Number(...)` is a `toNumber` function parameter.
- New registration ids come from a counter kept by the store.

Each page is a class whose fields are its React state. Each handler is one
sequential method, and its `ensures` gives the complete new state of the page
and the store for every combination of replies.

### Behaviour worth knowing

- **Date filter drift.** The "week" and "month" callbacks move the shared
  `now` back each time they run. The k-th event (counting from 0) that reaches
  the date stage must therefore be no earlier than `k + 1` weeks (or months)
  before the start (`Catalog.WeekCutoffDrifts`, `Catalog.MonthCutoffDrifts`).
  `Catalog.FilterByDate` runs the stage as one loop over a mutable clock.
- **Lost increments.** Register writes an absolute attendee count taken from
  the page's snapshot. Two users who loaded the same snapshot both register;
  the stored count rises by one only
  (`EventDetail.ConcurrentRegistrationsLoseAnIncrement`, `Store.SetAttendeesAbsorbs`).
- **No capacity check.** A full event still accepts registrations
  (`EventDetail.RegisterWhenFull`).
- **Unregistering never lowers the count.** Neither unregister nor the
  dashboard's cancel changes attendee counts.
- **`.single()` needs exactly one row.** Loading an event fails with "Event
  not found." unless exactly one row has the id. `registered` is true only
  when exactly one confirmed row exists for the pair, so a duplicated
  registration reads as not registered.
- **Errors are never cleared.** On the dashboard and the staff page a later
  successful fetch does not clear an old error.
- **The loading branch is unreachable.** The context value has no `loading`
  key, so `StaffRoute` reads `undefined` there and never shows its loading
  placeholder (`App.StaffGateUnderProvider`).
- **Sign-out keeps the user.** Signing out only delegates to the identity
  provider. The user is cleared when the provider's notification arrives
  (`AuthContext.SignOutThenNotify`).

Other facts about the app that the model reflects:

- pages hold 9 items (`src/pages/EventsPage.jsx:8`);
- there is no category filter;
- the dashboard shows every registration and has no all/upcoming/past filter;
- `.single()` means exactly one row.

Files:

- `records.dfy`: the `Wrappers` and `Records` modules.
- `seqs.dfy`: `Filter`, mask selection, and the subsequence relation.
- `text.dfy`: ASCII lower-casing and `includes`.
- `store.dfy`: the abstract store.
- One file per page or context: `catalog.dfy`, `event_detail.dfy`,
  `dashboard.dfy`, `manage_events.dfy`, `create_event.dfy`,
  `auth_context.dfy`, `app.dfy`.

## Model

| member | source | states |
|---|---|---|
| Text.Contains | src/pages/EventsPage.jsx:55-57 | `includes` is true iff some window of the haystack equals the needle |
| Catalog.SearchKeeps | src/pages/EventsPage.jsx:52-58 | for a non-empty term, an event survives search iff the lower-cased term occurs in its lower-cased name, description or location |
| Catalog.PriceKeeps | src/pages/EventsPage.jsx:82-96 | "free" keeps exactly price = 0, "paid" price > 0, "under50" price < 50, "under100" price < 100 |
| Catalog.LocationKeeps | src/pages/EventsPage.jsx:100-104 | for a non-empty location, an event survives iff the lower-cased location filter occurs in its lower-cased location |
| Catalog.Pipeline | src/pages/EventsPage.jsx:48-104 | computes search, then date, then price, then location, each stage skipped when its filter is unset; its properties are stated by PipelineIsSubsequence, PipelineWithoutFilters, SearchKeeps, PriceKeeps, LocationKeeps, WeekCutoffDrifts, MonthCutoffDrifts and TodayComparesWithStart |
| Catalog.PipelineIsSubsequence | src/pages/EventsPage.jsx:49-104 | the filtered list is an order-preserving subsequence of the fetched events |
| Catalog.PipelineWithoutFilters | src/pages/EventsPage.jsx:48-104 | with an empty term and date "all", price "all", location "" the filtered list equals the fetched events |
| Catalog.FilterByDate | src/pages/EventsPage.jsx:61-79 | one pass over the events with a clock that "week" and "month" move back before each comparison yields exactly the date stage's selection |
| Catalog.WeekCutoffDrifts | src/pages/EventsPage.jsx:63-71 | for "week" the k-th event passes iff its date is no earlier than start minus k+1 weeks |
| Catalog.MonthCutoffDrifts | src/pages/EventsPage.jsx:72-74 | for "month" the k-th event passes iff its date is no earlier than the start moved back k+1 months |
| Catalog.TodayComparesWithStart | src/pages/EventsPage.jsx:67-68 | for "today" every event is compared with the start's day; the clock does not move |
| Catalog.TotalPages | src/pages/EventsPage.jsx:123 | the page count is the ceiling of n / 9 |
| Catalog.Slice | src/pages/EventsPage.jsx:125-128 | computes `Array.prototype.slice`: negative indices count from the end, indices are clamped to the length, and an empty range gives []; PageItems and PageWindow state what a page then holds |
| Catalog.PageItems | src/pages/EventsPage.jsx:124-128 | a page slice never holds more than 9 events |
| Catalog.PageWindow | src/pages/EventsPage.jsx:123-128 | pages 1..totalPages are consecutive nine-event windows (the last one possibly shorter); pages after the last are empty |
| Catalog.PagesPartition | src/pages/EventsPage.jsx:123-128 | concatenating pages 1..totalPages gives back the filtered list |
| Catalog.EventsPage.constructor | src/pages/EventsPage.jsx:11-20 | initial state: no events, loading, page 1, empty search, filters all/all/"" |
| Catalog.EventsPage.FetchEvents | src/pages/EventsPage.jsx:30-46 | success loads the active events in date order into both lists; failure keeps them; loading ends false either way |
| Catalog.EventsPage.ApplyFilters | src/pages/EventsPage.jsx:48-108 | the filtered list becomes search, then date, then price, then location applied to the events, and the current page becomes 1; the events shown are then the first nine filtered ones, and page 1 is within the page count whenever any event is left |
| Catalog.EventsPage.HandleSearch | src/pages/EventsPage.jsx:110-112 | stores the search term |
| Catalog.EventsPage.HandleFilter | src/pages/EventsPage.jsx:114-116 | stores the filter bar's values |
| Catalog.EventsPage.HandlePageChange | src/pages/EventsPage.jsx:118-120 | stores the chosen page |
| Store.ActiveByDate | src/pages/EventsPage.jsx:32-36 | the catalog query returns a date-sorted permutation of the events whose status is "active": the same rows with the same multiplicities |
| Store.OwnedByDate | src/pages/ManageEventsPage.jsx:15-19 | computes the staff page query, the user's events ordered by date; OwnedListIsExact states that it is sorted and holds exactly the user's events |
| Store.EventsWithId | src/pages/EventDetailPage.jsx:40-45 | the detail query returns exactly the events with that id |
| Store.ConfirmedFor | src/pages/EventDetailPage.jsx:56-62 | the registration check returns exactly the confirmed rows of the (event, user) pair |
| Store.SortByDate | src/pages/EventsPage.jsx:36 | ordering by date yields a date-sorted permutation of the rows |
| Store.SetAttendees | src/pages/EventDetailPage.jsx:82-85 | the update writes the given absolute count into every row with the id and changes nothing else |
| Store.SetAttendeesAbsorbs | src/pages/EventDetailPage.jsx:84 | two absolute writes leave what the last one alone leaves, so equal snapshots lose an increment |
| Store.JoinForUser | src/pages/DashboardPage.jsx:18-35 | the inner join yields, for the user's registrations only, each registration with an existing event of its event id |
| Store.JoinIsExact | src/pages/DashboardPage.jsx:18-35 | the joined registrations are exactly the user's registrations whose event exists, all of them and in table order, each paired with the first event row of its id |
| Store.JoinComplete | src/pages/DashboardPage.jsx:18-35 | every registration of the user whose event exists appears in the join, with its event |
| Store.Upsert | src/context/AuthContext.jsx:32-37 | computes the upsert keyed by id: rows with the id are replaced, or the profile is appended when there is none; UpsertStores states the result |
| Store.UpsertStores | src/context/AuthContext.jsx:32-37 | after an upsert the profile is stored, every row with its id equals it, and rows with other ids are unchanged |
| Store.Database.InsertRegistration | src/pages/EventDetailPage.jsx:70-74 | success appends one row with a fresh id; failure changes nothing |
| Store.Database.UpdateAttendees | src/pages/EventDetailPage.jsx:82-85 | success applies the absolute count update; failure changes nothing |
| Store.Database.DeleteRegistrationsFor | src/pages/EventDetailPage.jsx:89-93 | success removes every registration of the (event, user) pair |
| Store.Database.DeleteRegistration | src/pages/DashboardPage.jsx:176-179 | success removes the registrations with that id |
| Store.Database.DeleteEvent | src/pages/ManageEventsPage.jsx:42-45 | success removes the events with that id |
| Store.Database.UpsertProfile | src/context/AuthContext.jsx:32-37 | success upserts the profile by id |
| EventDetail.EventDetailPage.constructor | src/pages/EventDetailPage.jsx:25-29 | no event, loading, not registered, no registration in flight, empty error |
| EventDetail.EventDetailPage.FetchEvent | src/pages/EventDetailPage.jsx:39-53 | exactly one row with the id loads it; otherwise the error is "Event not found." and the event is unchanged; loading ends false |
| EventDetail.EventDetailPage.CheckRegistration | src/pages/EventDetailPage.jsx:35-64 | runs only with both user and event; registered iff the query succeeds with exactly one confirmed row for the pair |
| EventDetail.EventDetailPage.HandleRegister | src/pages/EventDetailPage.jsx:66-103 | insert failure: error set, nothing written. Update failure: error set, pair rows deleted if the compensation succeeds, registration and count unchanged. Success: registered, local count +1, stored count = snapshot + 1. Registration loading ends false on every path; no capacity check |
| EventDetail.EventDetailPage.UpdateCountOrCompensate | src/pages/EventDetailPage.jsx:82-100 | after a successful insert: an update failure sets the error and deletes the pair's rows again when that delete succeeds, leaving `registered`, the event and the stored counts unchanged; an update success marks the user registered, adds one to the local count and stores the snapshot's count plus one |
| EventDetail.EventDetailPage.HandleUnregister | src/pages/EventDetailPage.jsx:105-116 | deletes the pair's rows and never touches counts; registered becomes false only on success; registration loading ends false |
| EventDetail.WithoutPairRemovesPair | src/pages/EventDetailPage.jsx:89-93 | the pair delete keeps exactly the rows of other pairs, in order |
| EventDetail.CompensationLeavesNoOrphan | src/pages/EventDetailPage.jsx:70-93 | insert followed by the compensating delete leaves what the delete alone leaves of the table before the insert |
| EventDetail.RegisterWhenFull | src/pages/EventDetailPage.jsx:66-103 | registering for an event with 2/2 attendees succeeds and shows 3/2 |
| EventDetail.ConcurrentRegistrationsLoseAnIncrement | src/pages/EventDetailPage.jsx:82-85 | two registrations from one snapshot store two rows but a count of 1 |
| Dashboard.ToDisplayRows | src/pages/DashboardPage.jsx:45-48 | one display row per joined row |
| Dashboard.DisplayRowsFollowJoin | src/pages/DashboardPage.jsx:45-48 | row i shows joined row i's event fields and carries its registration's id |
| Dashboard.DisplayRowsAreTheUsers | src/pages/DashboardPage.jsx:18-48 | every displayed row comes from a registration of the user for that event |
| Dashboard.UsersRegistrationsAreShown | src/pages/DashboardPage.jsx:18-48 | every registration of the user whose event exists is displayed, carrying its registration id and event id |
| Dashboard.CancelRemovesOnlyThatRow | src/pages/DashboardPage.jsx:176-179 | cancelling keeps exactly the registrations with other ids, in order |
| Dashboard.DashboardPage.constructor | src/pages/DashboardPage.jsx:8-10 | no rows, loading, no error |
| Dashboard.DashboardPage.FetchRegisteredEvents | src/pages/DashboardPage.jsx:12-58 | success shows the user's joined rows and keeps any old error; failure sets the error and keeps the rows; loading ends false |
| Dashboard.DashboardPage.OnUserChange | src/pages/DashboardPage.jsx:60-64 | the fetch runs only when a user is present |
| Dashboard.DashboardPage.CancelRegistration | src/pages/DashboardPage.jsx:174-185 | deletes only that registration id and refetches; a failed delete sets the error with no refetch; events are never changed |
| ManageEvents.OwnedListIsExact | src/pages/ManageEventsPage.jsx:15-19 | the fetched list is date-sorted and holds exactly the user's events with their multiplicities |
| ManageEvents.DeleteRemovesOnlyThatEvent | src/pages/ManageEventsPage.jsx:42-45 | deleting keeps exactly the events with other ids, in order |
| ManageEvents.ManageEventsPage.constructor | src/pages/ManageEventsPage.jsx:8-10 | no events, loading, no error |
| ManageEvents.ManageEventsPage.FetchEvents | src/pages/ManageEventsPage.jsx:12-28 | success shows the user's events by date and keeps any old error; failure sets the error and keeps the list; loading ends false |
| ManageEvents.ManageEventsPage.OnUserChange | src/pages/ManageEventsPage.jsx:30-34 | the fetch runs only when a user is present |
| ManageEvents.ManageEventsPage.HandleDeleteEvent | src/pages/ManageEventsPage.jsx:36-52 | declining changes nothing; a confirmed delete removes that id and refetches; a failed delete sets the error with no refetch |
| CreateEvent.InitialForm | src/pages/CreateEventPage.jsx:10-19 | eight fields, all "" except status "active" |
| CreateEvent.ChangeField | src/pages/CreateEventPage.jsx:23-34 | only the named field is replaced; all others are unchanged |
| CreateEvent.Coerce | src/pages/CreateEventPage.jsx:27-32 | computes the value stored for an input; ChangeStores states it per field kind |
| CreateEvent.ChangeStores | src/pages/CreateEventPage.jsx:25-33 | price and max_attendees keep "" as "" and store Number(value) otherwise; other fields store the text verbatim |
| CreateEvent.SubmittedRow | src/pages/CreateEventPage.jsx:41-46 | the inserted row is the form plus organizer_id = the user's id |
| CreateEvent.CreateEventPage.constructor | src/pages/CreateEventPage.jsx:10-21 | the form starts as the initial form with no error |
| CreateEvent.CreateEventPage.HandleChange | src/pages/CreateEventPage.jsx:23-34 | the form becomes the changed form |
| CreateEvent.CreateEventPage.HandleSubmit | src/pages/CreateEventPage.jsx:36-54 | clears the error, inserts exactly one row, then navigates to /manage-events on success or shows the error and stays |
| AuthContext.ProfileFor | src/context/AuthContext.jsx:31-38 | computes the row `ensureProfile` upserts; its fields are stated by ProfileFallbacks, and the effect of the upsert by SignInResetsRole |
| AuthContext.ProfileFallbacks | src/context/AuthContext.jsx:31-38 | profile id = user id; name = metadata full_name, else email; avatar = metadata avatar_url, else null; role "user". The fallbacks go through `OrElse`, the JavaScript or-operator on a string that may be missing |
| AuthContext.SignInResetsRole | src/context/AuthContext.jsx:36 | after a sign-in upsert the user's stored profile has role "user", whatever it was |
| AuthContext.ContextValue | src/context/AuthContext.jsx:46-52 | the context holds user and the four auth functions and no loading entry |
| AuthContext.AuthProvider.constructor | src/context/AuthContext.jsx:7-8 | no user, loading, so the children are not rendered yet |
| AuthContext.AuthProvider.OnSession | src/context/AuthContext.jsx:12-25 | user = the session's user or null; the profile is upserted only when there is a user; loading ends false, so the children render and the context's `user` entry is that user or null; the other tables are unchanged |
| AuthContext.AuthProvider.Request | src/context/AuthContext.jsx:40-44 | the auth functions forward their call and, having an empty frame, change no provider state |
| AuthContext.SignOutThenNotify | src/context/AuthContext.jsx:21-42 | after signing out the user is still set; the next notification clears it |
| App.StaffRoute | src/App.jsx:23-33 | a truthy loading shows the placeholder; with no staff user it redirects to "/"; children render iff not loading and the user's role is "staff" |
| App.ShowsManageLink | src/components/layout/NavBar.jsx:14-26 | computes the navigation bar's `user?.role === "staff"` test for the Manage Events link; StaffGateUnderProvider relates it to the staff gate |
| App.StaffGateUnderProvider | src/App.jsx:24-32 | under the provider's context the loading branch never happens; a missing or non-staff user is redirected to "/"; admission coincides with the navigation bar's staff test |
| App.ManageEventsGuards | src/App.jsx:55-64 | /manage-events is wrapped in ProtectedRoute and StaffRoute |
| App.CreateEventGuards | src/App.jsx:65-74 | /events/new is wrapped in ProtectedRoute and StaffRoute |
| App.DashboardGuards | src/App.jsx:47-54 | /dashboard is wrapped in ProtectedRoute only |
| App.Routes | src/App.jsx:41-75 | computes the eight routes in declaration order, each with its wrappers from the outside in; ManageEventsGuards, CreateEventGuards, DashboardGuards and OnlyStaffPagesAreGated state the guards |
| App.OnlyStaffPagesAreGated | src/App.jsx:55-74 | only the manage-events and create-event pages are behind the staff gate |
| App.GuardsOf | src/App.jsx:41-75 | a found route's guards are those of a declared route with that path |

## Left out

- Remote calls are request/response steps applied at once. Network, SDK and OAuth behaviour are not modelled, nor is how the backend coerces form values into typed columns. `CreateEvent.CreateEventPage.HandleSubmit` returns the rows it sends rather than adding them to the events table.
- React scheduling is not modelled: effect timing, re-renders and stale updates after unmount. The effects are methods the caller invokes: `OnUserChange`, `CheckRegistration`, and `ApplyFilters` after a change of events, search term or filters.
- The awaited compensating delete's own reply is a parameter; its failure is not reported, as in the code.
- Dates are integer milliseconds in UTC. `toDateString` equality is "same day index"; there is no time zone, DST or calendar. "One month earlier" is the `monthBack` parameter.
- Lower-casing covers ASCII letters only; `toLowerCase` on other characters is not modelled.
- Prices are reals. `Number(value)` is a parameter; NaN and parse errors are not modelled.
- Null `description` or `location` columns are not modelled. All text columns are strings; in the source a null column read by the search makes `toLowerCase` throw.
- Store.SortByDate: rows with equal dates keep table order; the backend leaves their order unspecified.
- Store.JoinForUser, Store.EventsWithId and Store.ConfirmedFor: results come in table order. These queries have no `order(...)`, so the backend's order is unspecified.
- Store.Database.DeleteEvent: the registrations of the deleted event stay in the table. Whether the backend cascades the delete, or rejects it because of them, is decided by the database schema, which is not part of this model.
- Records.NULL_USER_MESSAGE: the null-user error text is the V8 engine's wording; other JavaScript engines word this TypeError differently.
- `getGoogleCalendarUrl` (the calendar link) is left out: it is ISO formatting, a regular expression and percent-encoding (section 2.1 of RFC 3986).
- `ProtectedRoute` (components/auth/ProtectedRoute) is not part of this model. Only its place in the route table is. React Router's ranking of "/events/new" above "/events/:id" is not modelled.
- `signUp`, `signIn`, `signInWithGoogle` and `signOut` are modelled only as forwarded requests. The identity provider's behaviour is not modelled.
- Presentation is not modelled: JSX, the card, home and layout components, the navigation bar's menu toggle, and console logging. Only the navigation bar's staff test is modelled.

