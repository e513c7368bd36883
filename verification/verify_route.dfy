/**
 * Ticket check-in (`POST /api/verify`): a form carrying a ticket id moves that
 * ticket from CONFIRMED to USED, once, and redirects to the success page.
 */
module VerifyRoute {
  import opened Store

  /** The response and the ticket table after one verification request. */
  datatype VerifyOutcome = VerifyOutcome(response: Response, tickets: map<Id, Ticket>)

  /** One request: the `ticketId` form field (absent or a string) and the clock reading. */
  datatype VerifyRequest = VerifyRequest(ticketId: Option<string>, now: Time)

  function SuccessLocation(ticketId: Id): string {
    "/verify/success?ticket=" + ticketId
  }

  /** The ticket as check-in leaves it: USED, stamped with `now`, everything else as it was. */
  function MarkUsed(t: Ticket, now: Time): (u: Ticket)
    ensures u.status == USED && u.usedAt == Some(now)
    ensures u.userId == t.userId && u.subEventId == t.subEventId && u.ticketNumber == t.ticketNumber
    ensures u.price == t.price && u.attendeeName == t.attendeeName
  {
    t.(status := USED, usedAt := Some(now))
  }

  /** What one verification request answers and how it leaves the ticket table. */
  function Verify(tickets: map<Id, Ticket>, ticketId: Option<string>, now: Time): (r: VerifyOutcome)
    // a missing or empty id is rejected first
    ensures ticketId.None? || ticketId == Some("") ==>
              r == VerifyOutcome(TextResponse(400, "Ticket ID is required"), tickets)
    // an unknown id
    ensures ticketId.Some? && ticketId.value != "" && ticketId.value !in tickets ==>
              r == VerifyOutcome(TextResponse(404, "Ticket not found"), tickets)
    // a ticket that is PENDING, CANCELLED or already USED
    ensures ticketId.Some? && ticketId.value != "" && ticketId.value in tickets
            && tickets[ticketId.value].status != CONFIRMED ==>
              r == VerifyOutcome(TextResponse(400, "Ticket is not valid or already used"), tickets)
    // success: a 303 redirect, and only that ticket's status and usedAt change
    ensures r.response.status == 303 <==>
              ticketId.Some? && ticketId.value != "" && ticketId.value in tickets
              && tickets[ticketId.value].status == CONFIRMED
    ensures r.response.status == 303 ==>
              && r.response == Response(303, NoBody, Some(SuccessLocation(ticketId.value)))
              && r.tickets.Keys == tickets.Keys
              && r.tickets[ticketId.value] == MarkUsed(tickets[ticketId.value], now)
              && forall id :: id in tickets && id != ticketId.value ==> r.tickets[id] == tickets[id]
    ensures r.response.status != 303 ==> r.tickets == tickets
  {
    if ticketId.None? || ticketId.value == "" then
      VerifyOutcome(TextResponse(400, "Ticket ID is required"), tickets)
    else if ticketId.value !in tickets then
      VerifyOutcome(TextResponse(404, "Ticket not found"), tickets)
    else if tickets[ticketId.value].status != CONFIRMED then
      VerifyOutcome(TextResponse(400, "Ticket is not valid or already used"), tickets)
    else
      var id := ticketId.value;
      VerifyOutcome(Response(303, NoBody, Some(SuccessLocation(id))), tickets[id := MarkUsed(tickets[id], now)])
  }

  /** The handler: guards with early returns, then an in-place update of one ticket row. */
  method Post(db: Database, ticketId: Option<string>, now: Time) returns (response: Response)
    requires db.Valid()
    modifies db
    ensures db.Valid()
    ensures response == Verify(old(db.tickets), ticketId, now).response
    ensures db.tickets == Verify(old(db.tickets), ticketId, now).tickets
    ensures db.users == old(db.users) && db.organizations == old(db.organizations)
    ensures db.members == old(db.members) && db.mainEvents == old(db.mainEvents)
  {
    if ticketId.None? || ticketId.value == "" {
      return TextResponse(400, "Ticket ID is required");
    }
    var id := ticketId.value;
    if id !in db.tickets {
      return TextResponse(404, "Ticket not found");
    }
    var ticket := db.tickets[id];
    if ticket.status != CONFIRMED {
      return TextResponse(400, "Ticket is not valid or already used");
    }
    db.tickets := db.tickets[id := ticket.(status := USED, usedAt := Some(now))];
    response := Response(303, NoBody, Some(SuccessLocation(id)));
  }

  /** Verifying the same ticket twice: the first request succeeds, the second is refused. */
  lemma VerifyTwice(tickets: map<Id, Ticket>, id: Id, first: Time, second: Time)
    requires id != "" && id in tickets && tickets[id].status == CONFIRMED
    ensures Verify(tickets, Some(id), first).response.status == 303
    ensures Verify(Verify(tickets, Some(id), first).tickets, Some(id), second)
            == VerifyOutcome(TextResponse(400, "Ticket is not valid or already used"),
                             Verify(tickets, Some(id), first).tickets)
  {
  }

  /** The ticket table after a run of requests, each against the table the previous one left. */
  function Run(tickets: map<Id, Ticket>, requests: seq<VerifyRequest>): map<Id, Ticket>
    decreases |requests|
  {
    if requests == [] then tickets
    else Run(Verify(tickets, requests[0].ticketId, requests[0].now).tickets, requests[1..])
  }

  /** How many requests of a run are successful check-ins of ticket `id`. */
  function Successes(tickets: map<Id, Ticket>, requests: seq<VerifyRequest>, id: Id): nat
    decreases |requests|
  {
    if requests == [] then 0
    else
      var step := Verify(tickets, requests[0].ticketId, requests[0].now);
      (if requests[0].ticketId == Some(id) && step.response.status == 303 then 1 else 0)
      + Successes(step.tickets, requests[1..], id)
  }

  /** `id` names a ticket that check-in would accept. */
  predicate Confirmed(tickets: map<Id, Ticket>, id: Id) {
    id != "" && id in tickets && tickets[id].status == CONFIRMED
  }

  /** Some request of the run carries `id`. */
  predicate Requested(requests: seq<VerifyRequest>, id: Id) {
    exists i :: 0 <= i < |requests| && requests[i].ticketId == Some(id)
  }

  /**
   * Used exactly once: in any run of requests, ticket `id` is checked in once
   * if it started CONFIRMED and some request names it, and never otherwise.
   */
  lemma {:induction false} CheckedInExactlyOnce(tickets: map<Id, Ticket>, requests: seq<VerifyRequest>, id: Id)
    ensures Successes(tickets, requests, id) == (if Confirmed(tickets, id) && Requested(requests, id) then 1 else 0)
    decreases |requests|
  {
    if requests != [] {
      var step := Verify(tickets, requests[0].ticketId, requests[0].now);
      var rest := requests[1..];
      CheckedInExactlyOnce(step.tickets, rest, id);
      assert Requested(requests, id) <==> requests[0].ticketId == Some(id) || Requested(rest, id) by {
        if Requested(rest, id) {
          var i :| 0 <= i < |rest| && rest[i].ticketId == Some(id);
          assert requests[i + 1] == rest[i];
        }
        if Requested(requests, id) && requests[0].ticketId != Some(id) {
          var i :| 0 <= i < |requests| && requests[i].ticketId == Some(id);
          assert rest[i - 1] == requests[i];
        }
      }
      if requests[0].ticketId == Some(id) {
        assert !Confirmed(step.tickets, id);
      } else {
        assert Confirmed(step.tickets, id) == Confirmed(tickets, id);
      }
    }
  }

  /** A run of check-ins never adds or removes tickets. */
  lemma {:induction false} RunKeepsKeys(tickets: map<Id, Ticket>, requests: seq<VerifyRequest>)
    ensures Run(tickets, requests).Keys == tickets.Keys
    decreases |requests|
  {
    if requests != [] {
      RunKeepsKeys(Verify(tickets, requests[0].ticketId, requests[0].now).tickets, requests[1..]);
    }
  }

  /** A USED ticket is never changed again by any run of check-ins. */
  lemma {:induction false} UsedIsFinal(tickets: map<Id, Ticket>, requests: seq<VerifyRequest>, id: Id)
    requires id in tickets && tickets[id].status == USED
    ensures id in Run(tickets, requests) && Run(tickets, requests)[id] == tickets[id]
    decreases |requests|
  {
    if requests != [] {
      var step := Verify(tickets, requests[0].ticketId, requests[0].now);
      UsedIsFinal(step.tickets, requests[1..], id);
    }
  }
}
