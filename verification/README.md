# Route handlers of the tickt event-ticketing platform, in Dafny

tickt lets organizations register, create main events and sub-events, and sell
tickets that are checked in at the door. This project models three of its HTTP
route handlers. Each one reads a request, runs a fixed chain of guards, and then
either changes the database or leaves it alone:

- **Ticket check-in** (`POST /api/verify`). A form field `ticketId` names a
  ticket. A CONFIRMED ticket becomes USED and is stamped with the current time.
  The response is a `303 See Other` redirect to the success page (section 15.4.4
  of RFC 9110). Any other request gets an error, and the tickets stay as they were.
- **Main-event creation** (`POST /api/events`). The guards run in this order:
  session, then OWNER/ADMIN membership, then the body schema, then the date
  order. When all of them pass, one DRAFT event is inserted for the caller's
  organization.
- **Organization sign-up** (`POST /api/organizations/register`). The body
  schema is checked first. Then the handler refuses an email that a user already
  holds, and then an organization name that is already taken. When both are
  free, one transaction creates the organization, an ADMIN user with the hashed
  password, and an OWNER membership linking the two.

The database is the class `Store.Database`. It has one field per table: tickets,
users, organizations and main events are maps from row id to row, and
memberships are a sequence whose order stands for the order in which the
database happens to scan that table, since the membership lookup asks for the
first matching row without an `orderBy`. `Database.Valid()` holds the integrity
rules the handlers rely on or maintain: each row is stored under its own id, user emails are unique,
organization names are unique, memberships point at existing users and
organizations, events point at existing organizations, and tickets point at
existing users.

Each handler is modelled twice:

- a pure function gives the response and the rows it changes (`VerifyRoute.Verify`,
  `EventsRoute.CreateEvent`, `RegisterRoute.Register`). Its postconditions state
  the handler's promises: which guard wins, which status and message it returns,
  what is written, and that nothing is written on an error.
- a method `Post(db, …)` is written the way the handler is, with early returns
  and then the table update. Its postconditions tie the response and the new
  tables to that function, say which tables stay untouched, and keep `Valid()`.

Schema validation is modelled in the module `Validation`. A string key is
`Missing`, `NotString` or `Given`. Every key is checked in the order the schema
declares them, and the handler reports the first issue. Each parse function
stops at the first failing key, and its postconditions prove that this gives the
same message as collecting every issue and taking the first.

The following are parameters, not computed in the model:

- the session user (`Option<Id>`);
- the clock reading;
- the fresh ids the database assigns to new rows;
- the email and URL format checks (`isEmail`, `isUrl`);
- the password hash (`hash`).

Dates in the event body are integer timestamps.

## Model

| member | source | states |
|---|---|---|
| `VerifyRoute.Verify` | src/app/api/verify/route.ts:4-44 | The guards and their responses, in order. A missing or empty id gets 400 "Ticket ID is required". An unknown id gets 404. A ticket that is not CONFIRMED gets 400 "Ticket is not valid or already used". On every one of these errors the ticket table is unchanged. The response is 303 exactly when the ticket is CONFIRMED, with Location `/verify/success?ticket=<id>`. On that path the ticket becomes USED with `usedAt` set to the supplied time. Its other fields, every other ticket and the set of ticket ids stay the same. |
| `VerifyRoute.Post` | src/app/api/verify/route.ts:4-44 | The handler updates the one ticket row in place. Its response and ticket table are those of `Verify`. Users, organizations, memberships and events are unchanged, and the store invariant is kept. |
| `VerifyRoute.VerifyTwice` | src/app/api/verify/route.ts:24-37 | Take a CONFIRMED ticket. The first check-in succeeds with 303. A second check-in of the same ticket gets 400 and changes nothing. |
| `VerifyRoute.CheckedInExactlyOnce` | src/app/api/verify/route.ts:9-37 | Apply any sequence of check-in requests, each to the table the previous one left. The number of successful check-ins of a ticket is 1 if its id is non-empty, it started CONFIRMED and some request names it. Otherwise it is 0. A ticket stored under the empty id is never checked in, because the empty id is refused before the lookup. |
| `VerifyRoute.RunKeepsKeys` | src/app/api/verify/route.ts:29-37 | No sequence of check-ins adds or removes tickets: the update touches an existing row only. |
| `VerifyRoute.UsedIsFinal` | src/app/api/verify/route.ts:24-37 | A USED ticket stays in the table and is never changed again by any sequence of check-ins. |
| `VerifyRoute.MarkUsed` | src/app/api/verify/route.ts:33-36 | The update payload: the ticket's status becomes USED and `usedAt` becomes the supplied time. Its user, sub-event, ticket number, price and attendee name stay as they were. |
| `Store.FirstManagerIndex` | src/app/api/events/route.ts:24-34 | The membership lookup finds the first row, in the sequence's scan order, that belongs to the user and has role OWNER or ADMIN. It returns none exactly when the user has no such row. |
| `Validation.TypeIssues` | src/app/api/events/route.ts:10-11 | A required string key with no further check has no issue exactly when it is given. A missing key gets "Required". |
| `Validation.CheckedIssues` | src/app/api/events/route.ts:8-12 | A required string key with one check has at most one issue. It has none exactly when the key is given and passes the check. A given value that fails the check gets that check's message. |
| `Validation.OptionalIssues` | src/app/api/organizations/register/route.ts:10-11 | An optional string key has no issue when it is absent, or when it is given and passes its check. A given value that fails the check gets that check's message. |
| `Validation.SectionIssues` | src/app/api/organizations/register/route.ts:7-18 | A nested object key has no issue exactly when it is present and its own keys have none. |
| `Validation.OptionalValue` | src/app/api/organizations/register/route.ts:10-11 | An optional key that passed validation is stored when it is given, with its value unchanged, and left empty when it is absent. |
| `EventsRoute.ParseEvent` | src/app/api/events/route.ts:7-13 | The event schema accepts a body exactly when title, description and venue are non-empty strings and both dates are given. An accepted body yields exactly those fields. A rejected body reports the first issue in key order. An empty title therefore always reports "Title is required". |
| `EventsRoute.CreateEvent` | src/app/api/events/route.ts:17-66 | The guards and their responses, in order. No session user gets 401. A user without an OWNER/ADMIN membership gets 403. Neither check depends on the body. An invalid body gets 400 with the first issue's message. `endDate <= startDate` gets 400. An event is created exactly when every guard passes, and exactly when the status is 201. The event has the new id, status DRAFT, the submitted fields, and the organization of the user's first OWNER/ADMIN membership. The response body is that event. |
| `EventsRoute.Post` | src/app/api/events/route.ts:15-75 | The handler inserts the event of `CreateEvent` under the new id, or nothing. Existing events and every other table are unchanged, and the store invariant is kept. |
| `RegisterRoute.ParseRegistration` | src/app/api/organizations/register/route.ts:7-18 | The organization schema accepts a body exactly when all of these hold: the organization name is non-empty, the description is absent or a string, the website is absent or a valid URL, the admin name is non-empty, the email is valid, and the password has at least 6 characters. A rejected body reports the first issue in key order. |
| `RegisterRoute.FindUserByEmail` | src/app/api/organizations/register/route.ts:26-28 | The email lookup finds a user exactly when some user holds that email. The user it returns holds that email. |
| `RegisterRoute.FindOrganizationByName` | src/app/api/organizations/register/route.ts:38-40 | The name lookup finds an organization exactly when some organization carries that name. The organization it returns carries that name. |
| `RegisterRoute.Register` | src/app/api/organizations/register/route.ts:22-92 | The checks and their responses, in order. An invalid body gets 400 with the first issue's message. A taken email gets 409 "User with this email already exists", even when the name is also taken. A taken name gets 409. The three rows are created exactly when all checks pass, and exactly when the status is 201. They are: the organization with the submitted fields; the user with role ADMIN and the hash of the password as its stored password; and an OWNER membership linking the two. The 201 body holds only the organization name and the user's name and email. |
| `RegisterRoute.Post` | src/app/api/organizations/register/route.ts:20-104 | The handler inserts either all three rows of `Register` or none of them. Tickets and events are unchanged. The store invariant is kept, including unique emails and unique organization names. |
| `RegisterRoute.RegisterTwice` | src/app/api/organizations/register/route.ts:26-35 | After a successful sign-up, sending the same body again gets 409 "User with this email already exists" and creates nothing. |

## Left out

- The 500 responses. They come from database exceptions, from a body that is not valid JSON, or from a form that cannot be read. The model has no exceptions.
- A `ticketId` form entry that is a file rather than a string. The model reads the field as absent or a string.
- A request body that is not a JSON object at the top level. Each key is modelled on its own: missing, not a string (the schema's "Expected string, received …" message), or a string.
- Date strings that do not parse, and JavaScript's Invalid Date/NaN comparisons. Dates are integer timestamps, so only valid dates are modelled.
- The string length the schema measures: JavaScript counts UTF-16 code units, and the model counts characters.
- Concurrency. Two requests can both pass the duplicate checks before either inserts, and two check-ins of one ticket can overlap. The model runs requests one after another, so it cannot show these races. It also cannot show a transaction that rolls back partway.
- The bcrypt salt and cost factor. `hash` is a parameter, so the model cannot tell the stored hash from the raw password. It only states that the stored value is `hash(password)`.
- Session handling, the database's id generation and the clock. They are inputs, and each new row's id is required to be unused.
- Columns the handlers never read or write, such as timestamps and images. The membership row's own id is also left out.
- QR-payload verification. `/api/verify` reads only `ticketId`. Decoding the base64 payload and comparing the ids inside it happens in src/app/verify/[token]/page.tsx, which is not part of this model.
- Which organization gets a new event when its creator is OWNER or ADMIN of several. The membership lookup in src/app/api/events/route.ts:24-34 has no `orderBy`, so the database picks the row. `EventsRoute.CreateEvent` always uses the first such membership in the sequence, which is one fixed scan order. The source itself does not decide which managed organization receives the event.
