/** The first, single-file version of the helpdesk (app.py): tickets are
    kept in a module-level list of dictionaries, numbered by the length of
    the list, and can be created and looked up but not changed. */
module FirstApp {
  import opened PyValues

  /** A ticket dictionary `{'id', 'title', 'description'}`. */
  datatype Record = Record(id: int, title: string, description: string)

  datatype HttpMethod = GetMethod | PostMethod

  /** What a handler answers. `BadRequest` is Flask's 400 reply to a
      missing form field (the `KeyError` raised by `request.form[...]`). */
  datatype Reply =
    | CreateForm
    | RedirectIndex
    | BadRequest
    | Detail(ticket: Option<Record>)

  /** Ids count up from 1 along the list, so each id is its position
      plus one. */
  predicate Numbered(ts: seq<Record>)
  {
    forall i :: 0 <= i < |ts| ==> ts[i].id == i + 1
  }

  /** `next((t for t in tickets if t['id'] == ticket_id), None)`: the first
      ticket with the id. */
  function FindRecord(ts: seq<Record>, id: int): (r: Option<Record>)
    ensures r.Some? ==> r.value in ts && r.value.id == id
    ensures r.None? <==> forall i :: 0 <= i < |ts| ==> ts[i].id != id
    decreases |ts|
  {
    if ts == [] then None
    else if ts[0].id == id then Some(ts[0])
    else FindRecord(ts[1..], id)
  }

  /** In a numbered list the ticket with id `id` sits at position `id - 1`,
      and ids outside 1..|ts| find nothing. */
  lemma {:induction false} FindNumbered(ts: seq<Record>, id: int)
    requires Numbered(ts)
    ensures FindRecord(ts, id) == if 1 <= id <= |ts| then Some(ts[id - 1]) else None
  {
    if 1 <= id <= |ts| {
      FindAt(ts, id - 1);
    }
  }

  /** When position `k` carries the id and no earlier position does,
      `FindRecord` returns the ticket at `k`. */
  lemma {:induction false} FindAt(ts: seq<Record>, k: nat)
    requires k < |ts|
    requires forall i :: 0 <= i < k ==> ts[i].id != ts[k].id
    ensures FindRecord(ts, ts[k].id) == Some(ts[k])
    decreases k
  {
    if k > 0 {
      assert ts[1..][k - 1] == ts[k];
      FindAt(ts[1..], k - 1);
    }
  }

  /** A numbered list stays numbered when a ticket with id `|ts| + 1` is
      appended, and that ticket can then be found by its id. */
  lemma CreatedIsFound(ts: seq<Record>, title: string, description: string)
    requires Numbered(ts)
    ensures Numbered(ts + [Record(|ts| + 1, title, description)])
    ensures FindRecord(ts + [Record(|ts| + 1, title, description)], |ts| + 1)
      == Some(Record(|ts| + 1, title, description))
  {
    var ts' := ts + [Record(|ts| + 1, title, description)];
    assert Numbered(ts');
    FindNumbered(ts', |ts| + 1);
  }

  class App {
    var tickets: seq<Record>

    /** The module starts with an empty list. */
    constructor ()
      ensures tickets == [] && Numbered(tickets)
    {
      tickets := [];
    }

    /** `create_ticket`: GET shows the form; POST appends a ticket numbered
        `len(tickets) + 1` and redirects to the index, unless a field is
        missing, which is answered with 400 and changes nothing. */
    method CreateTicket(m: HttpMethod, form: Form) returns (reply: Reply)
      modifies this
      ensures m.GetMethod? ==> reply == CreateForm && tickets == old(tickets)
      ensures m.PostMethod? && ("title" !in form || "description" !in form) ==>
        reply == BadRequest && tickets == old(tickets)
      ensures m.PostMethod? && "title" in form && "description" in form ==>
        && reply == RedirectIndex
        && tickets == old(tickets) + [Record(|old(tickets)| + 1, form["title"], form["description"])]
      ensures Numbered(old(tickets)) ==> Numbered(tickets)
    {
      if m.PostMethod? {
        if "title" !in form || "description" !in form {
          return BadRequest;
        }
        var title := form["title"];
        var description := form["description"];
        var ticketId := |tickets| + 1;
        if Numbered(tickets) {
          CreatedIsFound(tickets, title, description);
        }
        tickets := tickets + [Record(ticketId, title, description)];
        return RedirectIndex;
      }
      return CreateForm;
    }

    /** `view_ticket`: the detail page of the first ticket with the id, or
        of no ticket at all. */
    method ViewTicket(id: int) returns (reply: Reply)
      ensures reply == Detail(FindRecord(tickets, id))
    {
      var i := 0;
      while i < |tickets|
        invariant 0 <= i <= |tickets|
        invariant FindRecord(tickets, id) == FindRecord(tickets[i..], id)
      {
        if tickets[i].id == id {
          return Detail(Some(tickets[i]));
        }
        assert tickets[i..][1..] == tickets[i + 1..];
        i := i + 1;
      }
      return Detail(None);
    }
  }
}
