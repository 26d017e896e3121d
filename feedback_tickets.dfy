/**
 * Feedback and support tickets: a user files one of the two kinds, an
 * administrator closes or reopens tickets (never feedback), and a user lists
 * their own tickets page by page.
 */
module FeedbackTickets {
  import opened Wrappers
  import opened Activities
  import opened Pagination
  import opened ApiFeatures

  const FeedbackKind: string := "feedback"
  const TicketKind: string := "ticket"

  const KindMessage: string := "Type must be either feedback or ticket!"
  const TitleRequiredMessage: string := "A title is required!"
  const MessageRequiredMessage: string := "A message is required!"
  const TicketNotFoundMessage: string := "No feedback or ticket found with that ID!"
  const CloseFeedbackMessage: string := "Only tickets can be marked as closed!"
  const UnclosedFeedbackMessage: string := "Only tickets can be marked as unclosed!"
  const NoTicketsMessage: string := "No tickets found for your account!"

  /** A feedback-or-ticket document; `kind` is its `type` field. */
  datatype Ticket = Ticket(id: Id, userId: Id, kind: string, title: string, message: string, isSolved: bool)

  /** The first position holding the document with id `id`. */
  function FindTicket(tickets: seq<Ticket>, id: Id): (k: Option<nat>)
    ensures k.None? <==> forall i :: 0 <= i < |tickets| ==> tickets[i].id != id
    ensures k.Some? ==> k.value < |tickets| && tickets[k.value].id == id
    ensures k.Some? ==> forall i :: 0 <= i < k.value ==> tickets[i].id != id
  {
    if tickets == [] then None
    else if tickets[0].id == id then Some(0)
    else match FindTicket(tickets[1..], id)
      case None => None
      case Some(k) => Some(k + 1)
  }

  class TicketStore {
    /** The collection, in insertion order. */
    var tickets: seq<Ticket>

    /** Document ids are unique. */
    ghost predicate Valid()
      reads this
    {
      forall i, j :: 0 <= i < j < |tickets| ==> tickets[i].id != tickets[j].id
    }

    constructor ()
      ensures Valid() && tickets == []
    {
      tickets := [];
    }
  }

  /**
   * `createFeedbackTicket`: 400 for a kind other than the two, then the
   * schema's required-field checks on title and message; otherwise a new
   * unsolved document of the caller. `newId` is the id the store assigns.
   */
  method CreateFeedbackTicket(store: TicketStore, userId: Id, kind: string, title: string, message: string,
                              newId: Id)
    returns (r: Result<Ticket>)
    requires store.Valid()
    requires forall i :: 0 <= i < |store.tickets| ==> store.tickets[i].id != newId
    modifies store
    ensures store.Valid()
    ensures kind != FeedbackKind && kind != TicketKind ==> r == Err(Error(BadRequest, KindMessage))
    ensures (kind == FeedbackKind || kind == TicketKind) && title == ""
            ==> r == Err(Error(InternalError, TitleRequiredMessage))
    ensures (kind == FeedbackKind || kind == TicketKind) && title != "" && message == ""
            ==> r == Err(Error(InternalError, MessageRequiredMessage))
    ensures r.Err? ==> store.tickets == old(store.tickets)
    ensures r.Ok? <==> (kind == FeedbackKind || kind == TicketKind) && title != "" && message != ""
    ensures r.Ok? ==>
      && r.value == Ticket(newId, userId, kind, title, message, false)
      && store.tickets == old(store.tickets) + [r.value]
  {
    if kind != FeedbackKind && kind != TicketKind {
      return Err(Error(BadRequest, KindMessage));
    }
    if title == "" {
      return Err(Error(InternalError, TitleRequiredMessage));
    }
    if message == "" {
      return Err(Error(InternalError, MessageRequiredMessage));
    }
    var t := Ticket(newId, userId, kind, title, message, false);
    store.tickets := store.tickets + [t];
    r := Ok(t);
  }

  /** The collection with the document at `k` given the solved flag `solved`. */
  function WithSolved(tickets: seq<Ticket>, k: nat, solved: bool): (r: seq<Ticket>)
    requires k < |tickets|
    ensures |r| == |tickets| && r[k].isSolved == solved
    ensures r[k].(isSolved := tickets[k].isSolved) == tickets[k]
    ensures forall i :: 0 <= i < |tickets| && i != k ==> r[i] == tickets[i]
  {
    tickets[k := tickets[k].(isSolved := solved)]
  }

  /** Closing (or reopening) a ticket twice is the same as doing it once. */
  lemma WithSolvedIdempotent(tickets: seq<Ticket>, k: nat, solved: bool)
    requires k < |tickets|
    ensures WithSolved(WithSolved(tickets, k, solved), k, solved) == WithSolved(tickets, k, solved)
  {
  }

  /** Reopening a ticket that was open before it was closed restores the collection. */
  lemma CloseThenReopenRestores(tickets: seq<Ticket>, k: nat)
    requires k < |tickets| && !tickets[k].isSolved
    ensures WithSolved(WithSolved(tickets, k, true), k, false) == tickets
  {
  }

  /**
   * The shared body of both handlers: 404 for an unknown id, 400 (with the
   * handler's message) for a feedback document, otherwise set the flag.
   */
  method SetSolved(store: TicketStore, ticketId: Id, solved: bool, feedbackMessage: string)
    returns (r: Result<Ticket>)
    requires store.Valid()
    modifies store
    ensures store.Valid()
    ensures FindTicket(old(store.tickets), ticketId).None? ==>
      r == Err(Error(NotFound, TicketNotFoundMessage)) && store.tickets == old(store.tickets)
    ensures FindTicket(old(store.tickets), ticketId).Some? ==>
      var k := FindTicket(old(store.tickets), ticketId).value;
      && (old(store.tickets)[k].kind != TicketKind ==>
            r == Err(Error(BadRequest, feedbackMessage)) && store.tickets == old(store.tickets))
      && (old(store.tickets)[k].kind == TicketKind ==>
            && store.tickets == WithSolved(old(store.tickets), k, solved)
            && r == Ok(store.tickets[k]))
  {
    var found := FindTicket(store.tickets, ticketId);
    if found.None? {
      return Err(Error(NotFound, TicketNotFoundMessage));
    }
    var k := found.value;
    if store.tickets[k].kind != TicketKind {
      return Err(Error(BadRequest, feedbackMessage));
    }
    store.tickets := WithSolved(store.tickets, k, solved);
    r := Ok(store.tickets[k]);
  }

  /** `markTicketAsClosed`: the guards, then `isSolved` true. */
  method MarkTicketAsClosed(store: TicketStore, ticketId: Id) returns (r: Result<Ticket>)
    requires store.Valid()
    modifies store
    ensures store.Valid()
    ensures FindTicket(old(store.tickets), ticketId).None? ==>
      r == Err(Error(NotFound, TicketNotFoundMessage)) && store.tickets == old(store.tickets)
    ensures FindTicket(old(store.tickets), ticketId).Some? ==>
      var k := FindTicket(old(store.tickets), ticketId).value;
      && (old(store.tickets)[k].kind != TicketKind ==>
            r == Err(Error(BadRequest, CloseFeedbackMessage)) && store.tickets == old(store.tickets))
      && (old(store.tickets)[k].kind == TicketKind ==>
            store.tickets == WithSolved(old(store.tickets), k, true) && r == Ok(store.tickets[k]))
  {
    r := SetSolved(store, ticketId, true, CloseFeedbackMessage);
  }

  /** `markTicketAsUnclosed`: the same guards, then `isSolved` false. */
  method MarkTicketAsUnclosed(store: TicketStore, ticketId: Id) returns (r: Result<Ticket>)
    requires store.Valid()
    modifies store
    ensures store.Valid()
    ensures FindTicket(old(store.tickets), ticketId).None? ==>
      r == Err(Error(NotFound, TicketNotFoundMessage)) && store.tickets == old(store.tickets)
    ensures FindTicket(old(store.tickets), ticketId).Some? ==>
      var k := FindTicket(old(store.tickets), ticketId).value;
      && (old(store.tickets)[k].kind != TicketKind ==>
            r == Err(Error(BadRequest, UnclosedFeedbackMessage)) && store.tickets == old(store.tickets))
      && (old(store.tickets)[k].kind == TicketKind ==>
            store.tickets == WithSolved(old(store.tickets), k, false) && r == Ok(store.tickets[k]))
  {
    r := SetSolved(store, ticketId, false, UnclosedFeedbackMessage);
  }

  /** The documents of one user of one kind, in collection order. */
  function OfUserAndKind(tickets: seq<Ticket>, userId: Id, kind: string): (r: seq<Ticket>)
    ensures |r| <= |tickets|
    ensures forall i :: 0 <= i < |r| ==> r[i].userId == userId && r[i].kind == kind && r[i] in tickets
    ensures forall t :: t in tickets && t.userId == userId && t.kind == kind ==> t in r
  {
    if tickets == [] then []
    else if tickets[0].userId == userId && tickets[0].kind == kind
    then [tickets[0]] + OfUserAndKind(tickets[1..], userId, kind)
    else OfUserAndKind(tickets[1..], userId, kind)
  }

  /** Filtering distributes over concatenation: the query keeps collection order. */
  lemma {:induction false} OfUserAndKindAppend(a: seq<Ticket>, b: seq<Ticket>, userId: Id, kind: string)
    ensures OfUserAndKind(a + b, userId, kind) == OfUserAndKind(a, userId, kind) + OfUserAndKind(b, userId, kind)
  {
    if a == [] {
      assert a + b == b;
    } else {
      assert (a + b)[0] == a[0] && (a + b)[1..] == a[1..] + b;
      OfUserAndKindAppend(a[1..], b, userId, kind);
    }
  }

  /** One document is kept exactly when it is the user's and of the kind. */
  lemma OfUserAndKindSingle(t: Ticket, userId: Id, kind: string)
    ensures OfUserAndKind([t], userId, kind) == if t.userId == userId && t.kind == kind then [t] else []
  {
    assert [t][1..] == [];
  }

  /** The number of documents of one kind, whoever filed them. */
  function CountKind(tickets: seq<Ticket>, kind: string): (n: nat)
    ensures n <= |tickets|
  {
    if tickets == [] then 0
    else (if tickets[0].kind == kind then 1 else 0) + CountKind(tickets[1..], kind)
  }

  /** Counting distributes over concatenation. */
  lemma {:induction false} CountKindAppend(a: seq<Ticket>, b: seq<Ticket>, kind: string)
    ensures CountKind(a + b, kind) == CountKind(a, kind) + CountKind(b, kind)
  {
    if a == [] {
      assert a + b == b;
    } else {
      assert (a + b)[0] == a[0] && (a + b)[1..] == a[1..] + b;
      CountKindAppend(a[1..], b, kind);
    }
  }

  /** Filing one more document adds one to the count exactly when it is of the kind. */
  lemma CountKindSnoc(tickets: seq<Ticket>, t: Ticket, kind: string)
    ensures CountKind(tickets + [t], kind) == CountKind(tickets, kind) + (if t.kind == kind then 1 else 0)
  {
    CountKindAppend(tickets, [t], kind);
    assert [t][1..] == [];
  }

  /** What `getMyTickets` reports. */
  datatype TicketListing = TicketListing(currentPage: int, totalPages: nat, pageResults: nat, totalResults: nat,
                                         tickets: seq<Ticket>)

  /**
   * `getMyTickets`: page through the caller's tickets. The page numbers come
   * from the size of the whole collection (feedback included), the reported
   * total counts every user's tickets, and an empty page is a 404.
   */
  function MyTickets(tickets: seq<Ticket>, userId: Id, pageParam: Option<int>, limitParam: Option<int>)
    : (r: Result<TicketListing>)
    ensures OrDefault(pageParam, 1) <= 0 || OrDefault(limitParam, 10) <= 0 ==> r == Err(Error(BadRequest, RangeMessage))
    ensures var page, limit := OrDefault(pageParam, 1), OrDefault(limitParam, 10);
      page > 0 && limit > 0 ==>
        && (page > CeilDiv(|tickets|, limit) ==> r == Err(Error(NotFound, PageNotFoundMessage)))
        && (page <= CeilDiv(|tickets|, limit) && PageWindow(OfUserAndKind(tickets, userId, TicketKind), page, limit) == []
            ==> r == Err(Error(NotFound, NoTicketsMessage)))
        && (r.Ok? <==> page <= CeilDiv(|tickets|, limit) && PageWindow(OfUserAndKind(tickets, userId, TicketKind), page, limit) != [])
        && (r.Ok? ==> r.value.tickets == PageWindow(OfUserAndKind(tickets, userId, TicketKind), page, limit))
    ensures r.Ok? ==>
      && 0 < r.value.pageResults == |r.value.tickets| <= OrDefault(limitParam, 10)
      && r.value.totalResults == CountKind(tickets, TicketKind)
      && r.value.totalPages == CeilDiv(|tickets|, OrDefault(limitParam, 10))
      && r.value.currentPage == OrDefault(pageParam, 1)
      && forall i :: 0 <= i < |r.value.tickets| ==>
           r.value.tickets[i].userId == userId && r.value.tickets[i].kind == TicketKind && r.value.tickets[i] in tickets
  {
    var page := OrDefault(pageParam, 1);
    var limit := OrDefault(limitParam, 10);
    if page <= 0 || limit <= 0 then Err(Error(BadRequest, RangeMessage))
    else
      var own := OfUserAndKind(tickets, userId, TicketKind);
      match FeaturesPage(own, |tickets|, page, limit)
      case Err(e) => Err(e)
      case Ok(p) =>
        if |p.results| == 0 then Err(Error(NotFound, NoTicketsMessage))
        else
          assert forall i :: 0 <= i < |p.results| ==> p.results[i] in own;
          Ok(TicketListing(p.currentPage, p.totalPages, |p.results|, CountKind(tickets, TicketKind), p.results))
  }

  /** The handler itself: build the helper object, paginate, count, and refuse an empty page. */
  method GetMyTickets(store: TicketStore, userId: Id, pageParam: Option<int>, limitParam: Option<int>)
    returns (r: Result<TicketListing>)
    ensures r == MyTickets(store.tickets, userId, pageParam, limitParam)
  {
    var features := NewApiFeatures(OfUserAndKind(store.tickets, userId, TicketKind), pageParam, limitParam);
    if features.Err? {
      return Err(features.error);
    }
    var page := features.value.Paginate(|store.tickets|);
    if page.Err? {
      return Err(page.error);
    }
    var total := CountKind(store.tickets, TicketKind);
    if |page.value.results| == 0 {
      return Err(Error(NotFound, NoTicketsMessage));
    }
    r := Ok(TicketListing(page.value.currentPage, page.value.totalPages, |page.value.results|, total,
                          page.value.results));
  }

  /**
   * A user with no tickets of their own gets 404 on every valid page, even
   * when the collection is large enough to have that page.
   */
  lemma NoOwnTicketsIs404(tickets: seq<Ticket>, userId: Id, pageParam: Option<int>, limitParam: Option<int>)
    requires OrDefault(pageParam, 1) > 0 && OrDefault(limitParam, 10) > 0
    requires forall i :: 0 <= i < |tickets| ==> tickets[i].userId != userId || tickets[i].kind != TicketKind
    ensures MyTickets(tickets, userId, pageParam, limitParam).Err?
    ensures MyTickets(tickets, userId, pageParam, limitParam).error.status == NotFound
  {
    var page, limit := OrDefault(pageParam, 1), OrDefault(limitParam, 10);
    NoneOfUser(tickets, userId, TicketKind);
    assert OfUserAndKind(tickets, userId, TicketKind) == [];
    EmptyQueryPage<Ticket>(|tickets|, page, limit);
  }

  lemma {:induction false} NoneOfUser(tickets: seq<Ticket>, userId: Id, kind: string)
    requires forall i :: 0 <= i < |tickets| ==> tickets[i].userId != userId || tickets[i].kind != kind
    ensures OfUserAndKind(tickets, userId, kind) == []
  {
    if tickets != [] {
      NoneOfUser(tickets[1..], userId, kind);
    }
  }

  /** The reported total includes other users' tickets: one of ours and one of theirs count two. */
  lemma TotalCountsEveryone()
    ensures MyTickets([Ticket(1, 7, TicketKind, "a", "b", false), Ticket(2, 8, TicketKind, "c", "d", false)],
                      7, None, None)
      == Ok(TicketListing(1, 1, 1, 2, [Ticket(1, 7, TicketKind, "a", "b", false)]))
  {
    var mine := Ticket(1, 7, TicketKind, "a", "b", false);
    var theirs := Ticket(2, 8, TicketKind, "c", "d", false);
    var all := [mine, theirs];
    assert all[1..] == [theirs] && [theirs][1..] == [];
    assert OfUserAndKind(all, 7, TicketKind) == [mine];
    assert CountKind(all, TicketKind) == 2;
    assert CeilDiv(2, 10) == 1;
    assert Window([mine], Skip(1, 10), 10) == [mine];
  }
}
