/**
 * Main-event creation (`POST /api/events`): authentication, then the
 * OWNER/ADMIN membership check, then body validation, then the date order,
 * and only then the insert of one DRAFT event.
 */
module EventsRoute {
  import opened Store
  import opened Validation

  /** The JSON body as `eventSchema` sees it; date strings are already read as timestamps. */
  datatype EventBody = EventBody(
    title: Field<string>,
    description: Field<string>,
    startDate: Field<Time>,
    endDate: Field<Time>,
    venue: Field<string>)

  /** The fields of a body that passed `eventSchema`. */
  datatype EventInput = EventInput(title: string, description: string, startDate: Time, endDate: Time, venue: string)

  /** Every issue `eventSchema` raises for `body`, key by key in declaration order. */
  function EventIssues(body: EventBody): seq<string> {
    CheckedIssues(body.title, MinLength(1), "Title is required")
    + CheckedIssues(body.description, MinLength(1), "Description is required")
    + TypeIssues(body.startDate)
    + TypeIssues(body.endDate)
    + CheckedIssues(body.venue, MinLength(1), "Venue is required")
  }

  /** `eventSchema.parse`, stopping at the first failing key. */
  function ParseEvent(body: EventBody): (r: Result<EventInput>)
    ensures r.Ok? <==>
              && body.title.Given? && body.title.value != ""
              && body.description.Given? && body.description.value != ""
              && body.startDate.Given? && body.endDate.Given?
              && body.venue.Given? && body.venue.value != ""
    ensures r.Ok? ==> r.value == EventInput(body.title.value, body.description.value,
                                            body.startDate.value, body.endDate.value, body.venue.value)
    // the reported message is the first of all the issues the schema collects
    ensures r.Ok? <==> EventIssues(body) == []
    ensures r.Err? ==> r.message == EventIssues(body)[0]
    ensures body.title == Given("") ==> r == Err("Title is required")
  {
    var title := CheckedIssues(body.title, MinLength(1), "Title is required");
    if title != [] then Err(title[0]) else
    var description := CheckedIssues(body.description, MinLength(1), "Description is required");
    if description != [] then Err(description[0]) else
    var start := TypeIssues(body.startDate);
    if start != [] then Err(start[0]) else
    var end := TypeIssues(body.endDate);
    if end != [] then Err(end[0]) else
    var venue := CheckedIssues(body.venue, MinLength(1), "Venue is required");
    if venue != [] then Err(venue[0]) else
    Ok(EventInput(body.title.value, body.description.value, body.startDate.value, body.endDate.value, body.venue.value))
  }

  /** The session user manages some organization through an OWNER or ADMIN membership. */
  predicate Authorized(members: seq<OrganizationMember>, sessionUser: Option<Id>) {
    sessionUser.Some? && exists i :: 0 <= i < |members| && Manages(members[i], sessionUser.value)
  }

  /** The response, and the event inserted if any. */
  datatype EventOutcome = EventOutcome(response: Response, created: Option<MainEvent>)

  const Unauthorized: Response := TextResponse(401, "Unauthorized")
  const NotAnAdmin: Response := TextResponse(403, "You must be an organization admin to create events")
  const EndBeforeStart: Response := TextResponse(400, "End date must be after start date")

  /** What one creation request answers and which event, if any, it inserts under id `newId`. */
  function CreateEvent(members: seq<OrganizationMember>, sessionUser: Option<Id>, body: EventBody, newId: Id)
    : (r: EventOutcome)
    // the guards, in order; the first two do not look at the body
    ensures sessionUser.None? ==> r == EventOutcome(Unauthorized, None)
    ensures sessionUser.Some? && !Authorized(members, sessionUser) ==> r == EventOutcome(NotAnAdmin, None)
    ensures Authorized(members, sessionUser) && ParseEvent(body).Err? ==>
              r == EventOutcome(MessageResponse(400, ParseEvent(body).message), None)
    ensures Authorized(members, sessionUser) && ParseEvent(body).Ok?
            && ParseEvent(body).value.endDate <= ParseEvent(body).value.startDate ==>
              r == EventOutcome(EndBeforeStart, None)
    // an event is created exactly when every guard passes, and then the answer is 201
    ensures r.created.Some? <==>
              Authorized(members, sessionUser) && ParseEvent(body).Ok?
              && ParseEvent(body).value.startDate < ParseEvent(body).value.endDate
    ensures r.created.Some? <==> r.response.status == 201
    ensures r.created.Some? ==>
              var e := r.created.value;
              && r.response == Response(201, CreatedEvent(e), None)
              && e.id == newId && e.status == DRAFT
              && e.title == body.title.value && e.description == body.description.value
              && e.startDate == body.startDate.value && e.endDate == body.endDate.value
              && e.venue == body.venue.value
              // the organization of the caller's first OWNER/ADMIN membership
              && exists i :: 0 <= i < |members| && Manages(members[i], sessionUser.value)
                             && (forall j :: 0 <= j < i ==> !Manages(members[j], sessionUser.value))
                             && e.organizationId == members[i].organizationId
  {
    if sessionUser.None? then EventOutcome(Unauthorized, None)
    else
      match FirstManagerIndex(members, sessionUser.value)
      case None => EventOutcome(NotAnAdmin, None)
      case Some(k) =>
        match ParseEvent(body)
        case Err(message) => EventOutcome(MessageResponse(400, message), None)
        case Ok(input) =>
          if input.endDate <= input.startDate then EventOutcome(EndBeforeStart, None)
          else
            var e := MainEvent(newId, input.title, input.description, input.startDate, input.endDate,
                               input.venue, members[k].organizationId, DRAFT);
            EventOutcome(Response(201, CreatedEvent(e), None), Some(e))
  }

  /** The handler: guards with early returns, then the insert into the main-event table. */
  method Post(db: Database, sessionUser: Option<Id>, body: EventBody, newId: Id) returns (response: Response)
    requires db.Valid()
    requires newId !in db.mainEvents
    modifies db
    ensures db.Valid()
    ensures response == CreateEvent(old(db.members), sessionUser, body, newId).response
    ensures db.mainEvents == match CreateEvent(old(db.members), sessionUser, body, newId).created
                             case None => old(db.mainEvents)
                             case Some(e) => old(db.mainEvents)[newId := e]
    ensures db.tickets == old(db.tickets) && db.users == old(db.users)
    ensures db.organizations == old(db.organizations) && db.members == old(db.members)
  {
    if sessionUser.None? {
      return Unauthorized;
    }
    var found := FirstManagerIndex(db.members, sessionUser.value);
    if found.None? {
      return NotAnAdmin;
    }
    var membership := db.members[found.value];
    var parsed := ParseEvent(body);
    if parsed.Err? {
      return MessageResponse(400, parsed.message);
    }
    var input := parsed.value;
    if input.endDate <= input.startDate {
      return EndBeforeStart;
    }
    var event := MainEvent(newId, input.title, input.description, input.startDate, input.endDate,
                           input.venue, membership.organizationId, DRAFT);
    db.mainEvents := db.mainEvents[newId := event];
    response := Response(201, CreatedEvent(event), None);
  }
}
