/** The in-memory ticket store of app/data.py: `Ticket` records whose status
    can be changed in place, kept in insertion order, with a counter that
    hands out the ids. */
module TicketStoreModel {
  import opened PyValues
  import opened Records

  /** The `Ticket` dataclass. Only `status` is ever assigned after
      construction (by `close`), so the other fields are constants. */
  class Ticket {
    const id: int
    const title: string
    const description: string
    const priority: string
    var status: string
    const created: string

    constructor (id: int, title: string, description: string, priority: string, status: string, created: string)
      ensures this.id == id && this.title == title && this.description == description
      ensures this.priority == priority && this.status == status && this.created == created
    {
      this.id := id;
      this.title := title;
      this.description := description;
      this.priority := priority;
      this.status := status;
      this.created := created;
    }
  }

  /** Ids strictly increase along the list, from 1 up, and stay below
      `next`, which is at least 1. */
  predicate IdsBelow(ts: seq<Ticket>, next: int)
  {
    && 1 <= next
    && (forall i, j :: 0 <= i < j < |ts| ==> ts[i].id < ts[j].id)
    && (forall i :: 0 <= i < |ts| ==> 1 <= ts[i].id < next)
  }

  /** The generator `next((t for t in tickets if t.id == ticket_id), None)`:
      the index of the first ticket with the id. */
  function FirstWithId(ts: seq<Ticket>, id: int): (r: Option<nat>)
    ensures r.Some? ==> r.value < |ts| && ts[r.value].id == id
    ensures r.Some? ==> forall j :: 0 <= j < r.value ==> ts[j].id != id
    ensures r.None? <==> forall j :: 0 <= j < |ts| ==> ts[j].id != id
    decreases |ts|
  {
    if ts == [] then None
    else if ts[0].id == id then Some(0)
    else
      match FirstWithId(ts[1..], id)
      case None => None
      case Some(j) => Some(j + 1)
  }

  /** With strictly increasing ids, the ticket with an id is the only one:
      every ticket carrying the id is the one found. */
  lemma FirstWithIdUnique(ts: seq<Ticket>, next: int, id: int, k: nat)
    requires IdsBelow(ts, next)
    requires k < |ts| && ts[k].id == id
    ensures FirstWithId(ts, id) == Some(k)
  {
  }

  /** After `add`, `get` with the new id finds the new ticket: the counter
      is above every id already stored. */
  lemma AddedIsFound(ts: seq<Ticket>, next: int, t: Ticket)
    requires IdsBelow(ts, next) && t.id == next
    ensures FirstWithId(ts + [t], next) == Some(|ts|)
    ensures forall id :: id != next ==> FirstWithId(ts + [t], id) == FirstWithId(ts, id)
  {
    FirstIsIndex(ts + [t], next, |ts|);
    forall id | id != next
      ensures FirstWithId(ts + [t], id) == FirstWithId(ts, id)
    {
      FirstWithIdSnoc(ts, t, id);
    }
  }

  /** Appending a ticket with another id does not change what is found. */
  lemma {:induction false} FirstWithIdSnoc(ts: seq<Ticket>, t: Ticket, id: int)
    requires t.id != id
    ensures FirstWithId(ts + [t], id) == FirstWithId(ts, id)
    decreases |ts|
  {
    if ts == [] {
      assert ts + [t] == [t] && [t][1..] == [];
    } else {
      assert (ts + [t])[1..] == ts[1..] + [t];
      FirstWithIdSnoc(ts[1..], t, id);
    }
  }

  /** Newest first: the reversed list of a store with increasing ids has
      strictly decreasing ids. */
  lemma NewestFirst(ts: seq<Ticket>, next: int)
    requires IdsBelow(ts, next)
    ensures forall i, j :: 0 <= i < j < |ts| ==> Reversed(ts)[i].id > Reversed(ts)[j].id
  {
    var r := Reversed(ts);
    forall i, j | 0 <= i < j < |ts| ensures r[i].id > r[j].id {
      assert r[i] == ts[|ts| - 1 - i] && r[j] == ts[|ts| - 1 - j];
    }
  }

  class TicketStore {
    var tickets: seq<Ticket>
    var nextId: int

    /** The store invariant: ids are unique because they strictly increase,
        and every id is below the counter. */
    predicate Valid()
      reads this
    {
      IdsBelow(tickets, nextId)
    }

    /** `__init__`: no tickets, first id 1. */
    constructor ()
      ensures tickets == [] && nextId == 1
      ensures Valid()
    {
      tickets := [];
      nextId := 1;
    }

    /** `all`: a new list, newest first; the store is not changed. */
    method All() returns (r: seq<Ticket>)
      requires Valid()
      ensures r == Reversed(tickets)
      ensures forall i, j :: 0 <= i < j < |r| ==> r[i].id > r[j].id
    {
      r := Reversed(tickets);
      NewestFirst(tickets, nextId);
    }

    /** `add`: append a fresh open ticket carrying the counter as its id,
        then advance the counter; nothing is returned. */
    method Add(title: string, description: string, priority: string, now: string)
      requires Valid()
      modifies this
      ensures Valid()
      ensures |tickets| == |old(tickets)| + 1 && tickets[..|old(tickets)|] == old(tickets)
      ensures nextId == old(nextId) + 1
      ensures var t := tickets[|old(tickets)|];
        && fresh(t) && t.id == old(nextId) && t.title == title && t.description == description
        && t.priority == priority && t.status == Open && t.created == now
    {
      var t := new Ticket(nextId, title, description, priority, Open, now);
      tickets := tickets + [t];
      nextId := nextId + 1;
    }

    /** `get`: the first ticket with the id, or null. */
    method Get(id: int) returns (t: Ticket?)
      ensures FirstWithId(tickets, id).None? ==> t == null
      ensures FirstWithId(tickets, id).Some? ==> t == tickets[FirstWithId(tickets, id).value]
    {
      var i := 0;
      while i < |tickets|
        invariant 0 <= i <= |tickets|
        invariant forall j :: 0 <= j < i ==> tickets[j].id != id
      {
        if tickets[i].id == id {
          assert FirstWithId(tickets, id) == Some(i) by {
            FirstIsIndex(tickets, id, i);
          }
          return tickets[i];
        }
        i := i + 1;
      }
      return null;
    }

    /** `close`: the ticket found by `get`, if any, gets status "Lukket";
        no other ticket and nothing else changes. */
    method Close(id: int)
      requires Valid()
      modifies set t | t in tickets
      ensures Valid()
      ensures tickets == old(tickets) && nextId == old(nextId)
      ensures forall k :: 0 <= k < |tickets| ==>
        tickets[k].status == if FirstWithId(tickets, id) == Some(k) then Closed else old(tickets[k].status)
    {
      var t := Get(id);
      if t != null {
        t.status := Closed;
      }
    }
  }

  /** The first index whose ticket carries the id, with none before it, is
      what `FirstWithId` finds. */
  lemma {:induction false} FirstIsIndex(ts: seq<Ticket>, id: int, i: nat)
    requires i < |ts| && ts[i].id == id
    requires forall j :: 0 <= j < i ==> ts[j].id != id
    ensures FirstWithId(ts, id) == Some(i)
    decreases i
  {
    if i > 0 {
      FirstIsIndex(ts[1..], id, i - 1);
    }
  }
}
