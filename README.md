# Tenant-scoped note store, in Dafny

A model of the server core of a multi-tenant note-taking service. Each tenant
(organization) has its own notes. Users are admins or members of exactly one
tenant. A free-plan tenant may hold at most three notes until it is upgraded
to the pro plan.

Three pieces are modelled:

- **The in-memory store** (`Database.Store`, database.dfy). It is a class
  with the three tables (`tenants`, `users`, `notes`) as `seq` fields and
  the auto-increment counters as fields. `InitializeDatabase`,
  `UpdateTenantPlan`, `CreateNote`, `UpdateNote` and `DeleteNote` change
  them in place. The getters are functions that read the store. Every
  mutation keeps `Valid()`:
  - note ids are distinct and below `nextNoteId`;
  - every user's tenant exists.

  Updates and deletes work by index (`findIndex`, then index assignment or
  `splice`). Each is also given a recursive reference definition
  (`UpdatedNotes`, `RemovedNotes`, `TenantsWithPlan`). Lemmas prove that the
  two agree, and prove tenant isolation, "no match changes nothing",
  counting and idempotence about the reference.
- **The authentication helpers** (`Auth`, auth.dfy). They are pure
  functions: bearer-header parsing, `requireAuth`, `requireRole`, the token
  payload, and the control flow of password login. Errors are values
  (`Result`, `Check`), not exceptions.
- **The `/api/notes` handlers** (`NotesRoute`, notes_route.dfy). `Get` is a
  function that only reads the store. `Post` is a method that modifies it.
  Its contract is stated against `Decide`, a function that runs the same
  guards in the same order: authentication, body parsing, non-empty
  title/content, then the free-plan quota.

Foreign code enters as parameters:

- `jwt.verify` is `jwtVerify: string -> JwtOutcome`: the token decodes, or
  verification throws as malformed, bad signature or expired.
- `jwt.sign` is `sign: Payload -> string`.
- `bcrypt.compareSync` is `passwordMatches: (string, string) -> bool`.
- The result of `bcrypt.hashSync` is a `passwordHash` argument.
- The clock (`new Date().toISOString()`) is an integer `now` argument.

JavaScript truthiness is written out:

- `!token`, `!title` and `!content` hold for a missing value and for `""`.
- `user?.email || 'Unknown'` gives `"Unknown"` both for a missing author and
  for an author whose email is `""`.

## Model

| member | source | states |
|---|---|---|
| `ArrayOps.FindIndex` | project/src/lib/database.ts:187 | `findIndex`: -1 exactly when no element matches; otherwise the index of a match with no match before it |
| `ArrayOps.Find` | project/src/lib/database.ts:109 | `find`: nothing exactly when no element matches; otherwise the first matching element |
| `ArrayOps.Filter` | project/src/lib/database.ts:209 | `filter`: every kept element matches, every matching element is kept, and the result is a sub-multiset of the input |
| `ArrayOps.FilterCounts` | project/src/lib/database.ts:209 | `filter` keeps every occurrence of a matching value and drops every occurrence of any other value |
| `ArrayOps.FilterCons` | project/src/lib/database.ts:209 | order: filtering `[x] + s` is `x` (when it matches) followed by the filtered `s`, so kept elements stay in input order |
| `ArrayOps.FilterAppend` | project/src/lib/database.ts:149 | filtering a concatenation is the concatenation of the filtered parts |
| `Database.AuthorEmail` | project/src/lib/database.ts:151-154 | the email of the first user with that id when it is non-empty; "Unknown" when there is no such user or its email is empty |
| `Database.SortNewestFirst` | project/src/lib/database.ts:157 | the sort is a permutation of its input, ordered by `created_at`, newest first |
| `Database.UpdatedNotesAt` | project/src/lib/database.ts:186-198 | the index-based update (`findIndex`, then assign at that index) equals the reference `UpdatedNotes` whenever a note matches |
| `Database.RemovedNotesAt` | project/src/lib/database.ts:200-206 | `splice` at the found index equals the reference `RemovedNotes`: `ns[..i] + ns[i+1..]`, the rest kept in order, whenever a note matches |
| `Database.TenantsWithPlanAt` | project/src/lib/database.ts:112-119 | setting the plan of the tenant found by slug equals the reference `TenantsWithPlan` whenever a tenant has the slug |
| `Database.TenantsWithPlanMissing` | project/src/lib/database.ts:112-119 | an unknown slug leaves the tenant table unchanged |
| `Database.UpdateTouchesOnlyTarget` | project/src/lib/database.ts:186-198 | an update keeps the table length; each note is either unchanged or is a note with that id and tenant whose title, content and update time alone changed |
| `Database.UpdateIsolation` | project/src/lib/database.ts:187-195 | an update scoped to tenant T leaves every other tenant's notes identical |
| `Database.RemoveIsolation` | project/src/lib/database.ts:200-206 | a delete scoped to tenant T leaves every other tenant's notes identical |
| `Database.RemoveCount` | project/src/lib/database.ts:200-206 | when tenant T has the note, a delete removes exactly one note from T's notes |
| `Database.RemoveMissing` | project/src/lib/database.ts:201-202 | a delete with no match in tenant T leaves the table unchanged |
| `Database.UpdateMissing` | project/src/lib/database.ts:187-188 | an update with no match in tenant T leaves the table unchanged |
| `Database.SpliceKeepsIds` | project/src/lib/database.ts:204 | splicing one note out keeps the note ids distinct and below the bound |
| `Database.AppendCount` | project/src/lib/database.ts:182 | appending a note adds one note to its own tenant's notes and leaves every other tenant's notes identical |
| `Database.TenantsWithPlanIdempotent` | project/src/lib/database.ts:112-119 | setting the same plan for the same slug twice equals setting it once |
| `Database.TenantsWithPlanSets` | project/src/lib/database.ts:113-116 | after a plan change, a slug lookup finds the same tenant with the new plan; all ids, slugs and names are kept |
| `Database.OtherTenantsNoteIsHidden` | project/src/lib/database.ts:160-162 | when note ids are distinct, another tenant's note cannot be found by its id in tenant T, just like a missing id |
| `Database.CrossTenantWriteIsNoOp` | project/src/lib/database.ts:186-206 | updating or deleting another tenant's note by its id leaves the table unchanged |
| `Database.SeedShape` | project/src/lib/database.ts:45-99 | the seed is two free tenants with distinct slugs and consecutive ids, and four users (admin then member per tenant) with consecutive ids and the shared hash |
| `Database.Store.constructor` | project/src/lib/database.ts:32-38 | the initial module state: empty tables, counters at 1, not initialized |
| `Database.Store.InitializeDatabase` | project/src/lib/database.ts:41-103 | the first call appends the seed tenants and users, advances the counters by 2 and 4, and sets `initialized`; any later call changes nothing (idempotent) |
| `Database.Store.GetTenantBySlug` | project/src/lib/database.ts:108-110 | nothing exactly when no tenant has the slug; otherwise the first tenant of the table with that slug |
| `Database.Store.UpdateTenantPlan` | project/src/lib/database.ts:112-119 | returns 1 and sets the plan of the tenant with that slug when one exists; otherwise returns 0 with the tenant table unchanged; the rest of the store is unchanged |
| `Database.Store.JoinTenant` | project/src/lib/database.ts:126-131 | the user joined with the slug and plan of the first tenant with the user's tenant id; both are absent exactly when no tenant has that id |
| `Database.Store.GetUserByEmail` | project/src/lib/database.ts:122-132 | nothing exactly when no user has the email; otherwise the first user with that email, joined with its tenant; under the store invariant the slug and plan are present |
| `Database.Store.GetUserById` | project/src/lib/database.ts:134-144 | nothing exactly when no user has the id; otherwise the first user with that id, joined with its tenant; under the store invariant the slug and plan are present |
| `Database.Store.GetNotesByTenant` | project/src/lib/database.ts:147-158 | exactly tenant T's notes (every note of T present, no other note), each with its author's email, newest first |
| `Database.Store.GetNoteById` | project/src/lib/database.ts:160-169 | a note only if its id and tenant both match, with its author email; nothing exactly when tenant T has no such note |
| `Database.Store.CreateNote` | project/src/lib/database.ts:171-184 | appends exactly one note with id = old `nextNoteId`, the given tenant and user, and both timestamps `now`; increments the counter by one; returns the new id; keeps `Valid()` |
| `Database.Store.UpdateNote` | project/src/lib/database.ts:186-198 | returns 1 exactly when tenant T has the note, and the table becomes `UpdatedNotes`; returns 0 with the notes unchanged otherwise; keeps `Valid()` |
| `Database.Store.DeleteNote` | project/src/lib/database.ts:200-206 | returns 1 exactly when tenant T has the note, and the table becomes `RemovedNotes`; returns 0 with the notes unchanged otherwise; keeps `Valid()` |
| `Database.Store.CountNotesByTenant` | project/src/lib/database.ts:208-211 | equals the length of the tenant's note listing |
| `Auth.MessagesDistinguishErrors` | project/src/lib/auth.ts:69-86 | the three thrown messages are pairwise different, so a handler can tell the error kinds apart by message |
| `Auth.TokenPayload` | project/src/lib/auth.ts:26-37 | the payload copies id, email, role, tenant id, tenant slug and tenant plan field for field from the user; `GenerateToken` signs exactly this payload |
| `Auth.VerifyToken` | project/src/lib/auth.ts:39-45 | no payload exactly when `jwt.verify` throws, for any reason; otherwise the decoded payload |
| `Auth.AuthenticateUser` | project/src/lib/auth.ts:47-59 | nothing exactly when no user has the email or the password does not match the hash; otherwise exactly what `getUserByEmail` returns (the first user with that email, joined with its tenant), whose hash matches |
| `Auth.LoginPayloadNamesTenant` | project/src/lib/auth.ts:47-59 | under the store invariant, the payload of a logged-in user carries that email and the slug and plan of an existing tenant with the user's tenant id |
| `Auth.ExtractTokenFromHeader` | project/src/lib/auth.ts:62-67 | a token exactly when the header is present and starts with "Bearer "; the header is then "Bearer " followed by the token |
| `Auth.ExtractBearer` | project/src/lib/auth.ts:62-67 | round trip: extracting from "Bearer " + t gives t |
| `Auth.RequireAuth` | project/src/lib/auth.ts:69-80 | "Authentication required" exactly for a missing or empty token; "Invalid or expired token" exactly when verification throws; otherwise the verified payload unchanged |
| `Auth.EmptyBearerIsUnauthenticated` | project/src/lib/auth.ts:62-72 | the header "Bearer " yields "Authentication required", not "Invalid or expired token" |
| `Auth.IssuedTokenAuthenticates` | project/src/lib/auth.ts:26-45 | if `jwt.verify` decodes what `jwt.sign` produced, the bearer header of an issued token authenticates as exactly the user's payload |
| `Auth.RequireRole` | project/src/lib/auth.ts:82-86 | fails, with "Admin access required", exactly when admin is required and the role is not admin; requiring member never fails |
| `NotesRoute.CaughtError` | project/src/app/api/notes/route.ts:63-74 | the catch block gives 401 with the message exactly for the two authentication messages; anything else gives 500 "Internal server error" |
| `NotesRoute.AuthFailureIs401` | project/src/app/api/notes/route.ts:66-67 | every error `requireAuth` throws becomes 401 |
| `NotesRoute.Decide` | project/src/app/api/notes/route.ts:29-55 | an unauthenticated request is rejected with 401; every rejection has status 400, 401, 403 or 500; an insert happens exactly for an authenticated caller with a parsed body whose title and content are present and non-empty and who is within quota |
| `NotesRoute.AuthenticationFirst` | project/src/app/api/notes/route.ts:29-30 | a request without a valid token is rejected with 401, whatever its body and whatever the store holds |
| `NotesRoute.MissingFieldsRejected` | project/src/app/api/notes/route.ts:34-39 | an authenticated request with a missing or empty title or content gets 400, whatever the quota |
| `NotesRoute.QuotaDecides` | project/src/app/api/notes/route.ts:42-52 | a free-plan caller whose tenant has 3 or more notes gets 403 with code LIMIT_REACHED; a pro-plan caller is never refused for quota |
| `NotesRoute.QuotaInvariant` | project/src/app/api/notes/route.ts:42-55 | an accepted create adds exactly one note to the caller's tenant; for a free-plan caller the tenant then holds at most 3 notes; every other tenant's notes are identical |
| `NotesRoute.Get` | project/src/app/api/notes/route.ts:5-25 | 401 exactly when authentication fails; otherwise 200 with `getNotesByTenant` of the caller's tenant as it is (its notes, newest first, with author emails), as many as its count; the store is only read |
| `NotesRoute.Post` | project/src/app/api/notes/route.ts:27-75 | a rejection returns the decided response and leaves the store unchanged, including `nextNoteId`; an accepted request appends one note with the old `nextNoteId`, the caller's user and tenant ids and the given title and content, increments the note counter, leaves the tenant and user tables, the other counters and `initialized` as they were, and answers 201 with that note and its author's email |

## Left out

- Signing and verification of JSON Web Tokens, the 24-hour expiry and the
  server secret are foreign library code. `jwt.sign` and `jwt.verify` are
  function parameters with no properties assumed. The round trip
  `verify(sign(p)) == p` is a hypothesis of `Auth.IssuedTokenAuthenticates`,
  not a theorem.
- bcrypt hashing and comparison are foreign library code. They appear as a
  hash argument and an arbitrary comparison predicate.
- Timestamps are integer clock readings. Within one call, every `new Date()`
  reads the same value `now`. Parsing ISO strings back to dates for the sort
  key is not modelled.
- Database.SortNewestFirst: sorted and a permutation are proved; stability
  (equal timestamps keep table order, as the JavaScript sort does) is not
  stated.
- JSON parsing, `NextResponse` construction and `console.error` are framework
  I/O. A request is an optional header plus an optional parsed body: an
  absent body stands for `request.json()` throwing. JSON field values that
  are not strings (numbers, objects) are not modelled.
- Concurrency is not modelled. Two `POST`s that run concurrently can both
  pass the quota check (check-then-act). The model is a sequential store,
  and the quota invariant is proved one request at a time.
- Aliasing of the tenant object: `getTenantBySlug` returns the object held
  in the table, so a caller could mutate it. The model returns a value.
- The single-note routes (`GET`/`PUT`/`DELETE /api/notes/{id}`) and the
  tenant-upgrade route are not part of this model. Only the store operations
  they call are modelled (`GetNoteById`, `UpdateNote`, `DeleteNote`,
  `UpdateTenantPlan`). The React components and pages are not part of this
  model either.
- The quota reads the plan carried in the token, not the tenant's current
  plan in the store, as the code does. A token issued before an upgrade
  stays on the free quota until it expires.
- Three behaviours of the code worth knowing, which the model keeps:
  - `updateTenantPlan` takes the plan as an argument; it does not always set
    `pro`.
  - `createNote` does not check that the note's tenant exists. A note's
    tenant id is whatever the verified token carries.
  - `initializeDatabase` is not called by the `/api/notes`,
    `/api/notes/{id}` or tenant-upgrade handlers.
