/** The request list (`RequestView.js`): accepting or declining a request sets
    the status of the items with that id; only pending items offer the two
    actions. */
module RequestView {

  datatype RequestStatus = Pending | Accepted | Declined

  datatype Request = Request(id: string, title: string, description: string, date: string, status: RequestStatus)

  datatype Action = AcceptAction | DeclineAction

  /** The list the screen starts with. */
  const DummyRequests: seq<Request> := [
    Request("1", "Join Calculus Study Group", "Looking for 2 more members for Calculus I group.", "Oct 15, 2023", Pending),
    Request("2", "Physics II Lab Partner", "Need a partner for upcoming Physics II lab.", "Oct 18, 2023", Accepted)
  ]

  /** `prev.map(req => req.id === id ? { ...req, status } : req)`: the items with
      this id get the status, every other item is kept as it is, in place. */
  function SetStatus(reqs: seq<Request>, id: string, status: RequestStatus): (r: seq<Request>)
    ensures |r| == |reqs|
    ensures forall i :: 0 <= i < |r| ==> r[i].id == reqs[i].id
    ensures forall i :: 0 <= i < |r| && reqs[i].id == id ==> r[i] == reqs[i].(status := status)
    ensures forall i :: 0 <= i < |r| && reqs[i].id != id ==> r[i] == reqs[i]
  {
    if reqs == [] then []
    else
      var head := if reqs[0].id == id then reqs[0].(status := status) else reqs[0];
      [head] + SetStatus(reqs[1..], id, status)
  }

  /** `handleAccept(id)`. */
  function HandleAccept(reqs: seq<Request>, id: string): seq<Request> {
    SetStatus(reqs, id, Accepted)
  }

  /** `handleDecline(id)`. */
  function HandleDecline(reqs: seq<Request>, id: string): seq<Request> {
    SetStatus(reqs, id, Declined)
  }

  /** Setting a status twice is setting it once, and the later of two statuses
      for the same id wins. */
  lemma SetStatusLastWins(reqs: seq<Request>, id: string, first: RequestStatus, second: RequestStatus)
    ensures SetStatus(SetStatus(reqs, id, first), id, second) == SetStatus(reqs, id, second)
  {
  }

  /** Both handlers are idempotent. */
  lemma HandlersIdempotent(reqs: seq<Request>, id: string)
    ensures HandleAccept(HandleAccept(reqs, id), id) == HandleAccept(reqs, id)
    ensures HandleDecline(HandleDecline(reqs, id), id) == HandleDecline(reqs, id)
  {
    SetStatusLastWins(reqs, id, Accepted, Accepted);
    SetStatusLastWins(reqs, id, Declined, Declined);
  }

  /** Updates for different ids do not interfere. */
  lemma SetStatusCommutes(reqs: seq<Request>, a: string, sa: RequestStatus, b: string, sb: RequestStatus)
    requires a != b
    ensures SetStatus(SetStatus(reqs, a, sa), b, sb) == SetStatus(SetStatus(reqs, b, sb), a, sa)
  {
  }

  /** The buttons a card shows: Accept and Decline for a pending item, none
      otherwise (the status text is shown instead). */
  function Actions(item: Request): (acts: seq<Action>)
    ensures acts != [] <==> item.status == Pending
    ensures item.status == Pending ==> acts == [AcceptAction, DeclineAction]
  {
    if item.status == Pending then [AcceptAction, DeclineAction] else []
  }

  /** After either handler, no item with that id offers an action any more. */
  lemma HandledItemsOfferNothing(reqs: seq<Request>, id: string)
    ensures forall i :: 0 <= i < |reqs| && reqs[i].id == id ==>
      Actions(HandleAccept(reqs, id)[i]) == [] && Actions(HandleDecline(reqs, id)[i]) == []
  {
  }

  /** On the starting list only the first card offers Accept and Decline, and
      once it is accepted no card offers an action. */
  lemma DummyRequestsActions()
    ensures Actions(DummyRequests[0]) == [AcceptAction, DeclineAction]
    ensures Actions(DummyRequests[1]) == []
    ensures forall i :: 0 <= i < |DummyRequests| ==> Actions(HandleAccept(DummyRequests, "1")[i]) == []
  {
    var after := HandleAccept(DummyRequests, "1");
    assert after[0].status == Accepted;
    assert after[1] == DummyRequests[1];
  }
}
