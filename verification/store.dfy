/**
 * The relational store the route handlers talk to, reduced to the tables and
 * columns the handlers read or write. Each table is a field of one `Database`
 * object; a handler changes the store by reassigning these fields.
 */
module Store {

  datatype Option<T> = None | Some(value: T)

  /** Row identifiers are opaque strings assigned by the database. */
  type Id = string

  /** A point in time, as milliseconds since the epoch. */
  type Time = int

  datatype TicketStatus = PENDING | CONFIRMED | CANCELLED | USED
  datatype EventStatus = DRAFT | PUBLISHED
  datatype UserRole = USER | ADMIN
  /** OWNER and ADMIN may manage an organization's events; MEMBER stands for every other role. */
  datatype MemberRole = OWNER | ADMIN | MEMBER

  datatype Ticket = Ticket(
    userId: Id,
    subEventId: Id,
    ticketNumber: string,
    status: TicketStatus,
    price: real,
    attendeeName: Option<string>,
    usedAt: Option<Time>)

  datatype User = User(id: Id, name: string, email: string, password: string, role: UserRole)

  datatype Organization = Organization(
    id: Id,
    name: string,
    description: Option<string>,
    website: Option<string>)

  datatype OrganizationMember = OrganizationMember(organizationId: Id, userId: Id, role: MemberRole)

  datatype MainEvent = MainEvent(
    id: Id,
    title: string,
    description: string,
    startDate: Time,
    endDate: Time,
    venue: string,
    organizationId: Id,
    status: EventStatus)

  /** The body of an HTTP response: plain text, a JSON object, or nothing. */
  datatype Body =
    | NoBody
    | Text(text: string)
    | Message(message: string)
    | CreatedEvent(event: MainEvent)
    | Registered(organizationName: string, userName: string, userEmail: string)

  datatype Response = Response(status: int, body: Body, location: Option<string>)

  function TextResponse(status: int, text: string): Response {
    Response(status, Text(text), None)
  }

  function MessageResponse(status: int, message: string): Response {
    Response(status, Message(message), None)
  }

  /** A member may manage events of its organization when its role is OWNER or ADMIN. */
  predicate Manages(m: OrganizationMember, userId: Id) {
    m.userId == userId && (m.role == OWNER || m.role == MemberRole.ADMIN)
  }

  /**
   * The first membership, in the sequence's order, through which `userId`
   * manages an organization. The sequence stands for one scan order of the
   * table; the lookup it models has no `orderBy`, so the database chooses.
   */
  function FirstManagerIndex(members: seq<OrganizationMember>, userId: Id): (r: Option<nat>)
    ensures r.Some? ==> r.value < |members| && Manages(members[r.value], userId)
    ensures r.Some? ==> forall j :: 0 <= j < r.value ==> !Manages(members[j], userId)
    ensures r.None? ==> forall j :: 0 <= j < |members| ==> !Manages(members[j], userId)
  {
    if |members| == 0 then None
    else if Manages(members[0], userId) then Some(0)
    else
      match FirstManagerIndex(members[1..], userId)
      case None => None
      case Some(k) => Some(k + 1)
  }

  /** Some user already holds `email` (the unique column of the user table). */
  predicate EmailTaken(users: map<Id, User>, email: string) {
    exists id :: id in users && users[id].email == email
  }

  /** Some organization already carries `name`. */
  predicate NameTaken(organizations: map<Id, Organization>, name: string) {
    exists id :: id in organizations && organizations[id].name == name
  }

  class Database {
    var tickets: map<Id, Ticket>
    var users: map<Id, User>
    var organizations: map<Id, Organization>
    var members: seq<OrganizationMember>
    var mainEvents: map<Id, MainEvent>

    /** The integrity constraints of the schema that the handlers rely on or maintain. */
    ghost predicate Valid()
      reads this
    {
      && (forall id :: id in users ==> users[id].id == id)
      && (forall a, b :: a in users && b in users && users[a].email == users[b].email ==> a == b)
      && (forall id :: id in organizations ==> organizations[id].id == id)
      && (forall a, b :: a in organizations && b in organizations && organizations[a].name == organizations[b].name ==> a == b)
      && (forall i :: 0 <= i < |members| ==> members[i].userId in users && members[i].organizationId in organizations)
      && (forall id :: id in mainEvents ==> mainEvents[id].id == id && mainEvents[id].organizationId in organizations)
      && (forall id :: id in tickets ==> tickets[id].userId in users)
    }
  }
}
