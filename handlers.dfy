/** The request handlers of app/routes.py as transitions on the in-memory
    ticket list: each takes the list and `next_id` as `refresh_state` left
    them, the request data, the client address and the formatted time, and
    says what the page shows, what the list and `next_id` become, whether the
    list is saved and which log entries are appended, in order. */
module Handlers {
  import opened PyValues
  import opened Records
  import opened Listing
  import opened Storage

  /** What a request ends in: a redirect, a rendered page, or an error
      status (`abort(400)`, `abort(403)`, the 404 text, or a 500 when Python
      raises). */
  datatype Outcome =
    | Redirect
    | ShowList(tickets: seq<Dict>)
    | ShowTicket(ticket: Dict)
    | ShowForm
    | ShowLog(entries: seq<Value>)
    | BadRequest
    | Forbidden
    | NotFound
    | ServerError

  /** One handler run: the outcome, the new list and counter, whether
      `save_tickets` ran, and the entries `log_action` appended. */
  datatype Step = Step(outcome: Outcome, tickets: seq<Dict>, nextId: int, save: bool, logged: seq<Dict>)

  /** A handler that changes nothing. */
  function Unchanged(o: Outcome, ts: seq<Dict>, nextId: int): Step
  {
    Step(o, ts, nextId, false, [])
  }

  /** The state every handler starts from: `refresh_state` has normalised
      every record, so the handlers' own `normalize_ticket` calls change
      nothing (`Records.NormalizeKeepsNormalized`). */
  predicate Refreshed(ts: seq<Dict>)
  {
    forall i :: 0 <= i < |ts| ==> Normalized(ts[i])
  }

  /** The handlers' text for an empty name. */
  function Shown(s: string): string
  {
    if s != "" then s else "(tom)"
  }

  /** The allowed statuses. */
  predicate IsStatus(s: string)
  {
    s == Open || s == InProgress || s == Closed
  }

  /** `index`, given the stripped, lower-cased query `q`. */
  function Index(ts: seq<Dict>, nextId: int, q: string): Step
  {
    match IndexListing(ts, q)
    case None => Unchanged(ServerError, ts, nextId)
    case Some(shown) => Unchanged(ShowList(shown), ts, nextId)
  }

  /** `my_work`: admin only. */
  function MyWork(ts: seq<Dict>, nextId: int, ip: string): Step
  {
    if !IsAdmin(ip) then Unchanged(Forbidden, ts, nextId)
    else match MyWorkListing(ts)
      case None => Unchanged(ServerError, ts, nextId)
      case Some(shown) => Unchanged(ShowList(shown), ts, nextId)
  }

  /** `ticket`: the detail page of the first ticket with the id. */
  function View(ts: seq<Dict>, nextId: int, id: int): Step
  {
    match FindTicket(ts, id)
    case None => Unchanged(NotFound, ts, nextId)
    case Some(i) => Unchanged(ShowTicket(ts[i]), ts, nextId)
  }

  /** The value `create_ticket` puts under key `k`. */
  function NewField(k: string, id: int, title: string, description: string, priority: string, now: string): Value
  {
    if k == "id" then VInt(id)
    else if k == "title" then VStr(title)
    else if k == "description" then VStr(description)
    else if k == "priority" then VStr(priority)
    else if k == "status" then VStr(Open)
    else if k == "created_at" then VStr(now)
    else if k == "comments" then VList([])
    else VStr("")
  }

  /** The record `create_ticket` builds: the eight ticket keys and nothing
      else, already in the shape `normalize_ticket` leaves. */
  function NewTicket(id: int, title: string, description: string, priority: string, now: string): (t: Dict)
    ensures t.Keys == TicketKeys && Normalized(t)
    ensures t["id"] == VInt(id) && t["title"] == VStr(title) && t["description"] == VStr(description)
    ensures t["priority"] == VStr(priority) && t["status"] == VStr(Open) && t["created_at"] == VStr(now)
    ensures t["assignee"] == VStr("") && t["comments"] == VList([])
  {
    map k | k in TicketKeys :: NewField(k, id, title, description, priority, now)
  }

  /** `(request.form.get(k) or default).strip()` */
  function FormText(form: Form, k: string, default: string): string
  {
    Strip(FormOr(form, k, default))
  }

  /** `create_ticket`, given the stripped `title`, `description` and
      `priority` fields: open to everyone; a blank title is refused; a blank
      priority becomes "Lav". */
  function Create(ts: seq<Dict>, nextId: int, title: string, description: string, given: string, ip: string, now: string): Step
  {
    var priority := if given != "" then given else "Lav";
    if title == "" then Unchanged(BadRequest, ts, nextId)
    else
      var t := NewTicket(nextId, title, description, priority, now);
      Step(Redirect, ts + [t], nextId + 1, true,
           [Entry(now, CreateAction(title, priority), VInt(nextId), "user", ip, CreateDetails(title, priority))])
  }

  /** The action text `create_ticket` logs. */
  function CreateAction(title: string, priority: string): string
  {
    "Opprettet sak: “" + title + "” (Prioritet: " + priority + ")"
  }

  /** The details `create_ticket` logs: the title and the priority used. */
  function CreateDetails(title: string, priority: string): Value
  {
    VDict(map["title" := VStr(title), "priority" := VStr(priority)])
  }

  /** The entry `set_status` logs when it assigns the work user. */
  function AutoAssignEntry(id: int, ip: string, now: string): Dict
  {
    Entry(now, "Auto-tildelt ansvarlig ved Pågår: (tom) -> " + WorkUserName, VInt(id), "admin", ip,
          VDict(map["old_assignee" := VStr(""), "new_assignee" := VStr(WorkUserName)]))
  }

  /** The entry `set_status` logs for the status change itself. */
  function StatusEntry(id: int, oldStatus: Value, status: string, ip: string, now: string): Dict
  {
    Entry(now, "Endret status: " + PyStr(oldStatus) + " -> " + status, VInt(id), "admin", ip,
          VDict(map["old_status" := oldStatus, "new_status" := VStr(status)]))
  }

  /** The part of `set_status` after its checks, on the record at index
      `i`: the status is written first, so when reading the assignee then
      raises the in-memory record already carries the new status (it is not
      saved). */
  function ChangeStatus(ts: seq<Dict>, nextId: int, i: nat, id: int, status: string, ip: string, now: string): Step
    requires i < |ts|
  {
    var t := ts[i];
    var t1 := t["status" := VStr(status)];
    var last := StatusEntry(id, Get(t, "status", VStr("")), status, ip, now);
    if status != InProgress then Step(Redirect, ts[i := t1], nextId, true, [last])
    else match TextOrEmpty(Get(t1, "assignee", VNone))
      case None => Unchanged(ServerError, ts[i := t1], nextId)
      case Some(a) =>
        if Strip(a) == "" then
          Step(Redirect, ts[i := t1["assignee" := VStr(WorkUserName)]], nextId, true,
               [AutoAssignEntry(id, ip, now), last])
        else Step(Redirect, ts[i := t1], nextId, true, [last])
  }

  /** `set_status`, given the stripped `status` field: admin only; a closed
      ticket and an unknown status are refused. */
  function SetStatus(ts: seq<Dict>, nextId: int, id: int, status: string, ip: string, now: string): Step
  {
    if !IsAdmin(ip) then Unchanged(Forbidden, ts, nextId)
    else match FindTicket(ts, id)
      case None => Unchanged(NotFound, ts, nextId)
      case Some(i) =>
        match IsClosed(ts[i])
        case None => Unchanged(ServerError, ts, nextId)
        case Some(true) => Unchanged(BadRequest, ts, nextId)
        case Some(false) =>
          if !IsStatus(status) then Unchanged(BadRequest, ts, nextId)
          else ChangeStatus(ts, nextId, i, id, status, ip, now)
  }

  /** The entry `assign` logs. */
  function AssignEntry(id: int, previous: string, assignee: string, ip: string, now: string): Dict
  {
    Entry(now, "Endret ansvarlig: " + Shown(previous) + " -> " + Shown(assignee), VInt(id), "admin", ip,
          VDict(map["old_assignee" := VStr(previous), "new_assignee" := VStr(assignee)]))
  }

  /** The part of `assign` after its checks, on the record at index `i`. */
  function ChangeAssignee(ts: seq<Dict>, nextId: int, i: nat, id: int, assignee: string, ip: string, now: string): Step
    requires i < |ts|
  {
    var t := ts[i];
    match TextOrEmpty(Get(t, "assignee", VNone))
    case None => Unchanged(ServerError, ts, nextId)
    case Some(o) =>
      Step(Redirect, ts[i := t["assignee" := VStr(assignee)]], nextId, true,
           [AssignEntry(id, Strip(o), assignee, ip, now)])
  }

  /** `assign`, given the stripped `assignee` field: admin only; a closed
      ticket is refused. */
  function Assign(ts: seq<Dict>, nextId: int, id: int, assignee: string, ip: string, now: string): Step
  {
    if !IsAdmin(ip) then Unchanged(Forbidden, ts, nextId)
    else match FindTicket(ts, id)
      case None => Unchanged(NotFound, ts, nextId)
      case Some(i) =>
        match IsClosed(ts[i])
        case None => Unchanged(ServerError, ts, nextId)
        case Some(true) => Unchanged(BadRequest, ts, nextId)
        case Some(false) => ChangeAssignee(ts, nextId, i, id, assignee, ip, now)
  }

  /** The comment `add_comment` appends. */
  function Comment(name: string, text: string, now: string): Value
  {
    VDict(map["time" := VStr(now), "name" := VStr(name), "text" := VStr(text)])
  }

  /** `add_comment`, given the stripped `name` (default "admin") and
      `comment` fields: admin only, allowed on closed tickets too; a blank
      comment redirects without change. */
  function AddComment(ts: seq<Dict>, nextId: int, id: int, name: string, text: string, ip: string, now: string): Step
    requires Refreshed(ts)
  {
    if !IsAdmin(ip) then Unchanged(Forbidden, ts, nextId)
    else match FindTicket(ts, id)
      case None => Unchanged(NotFound, ts, nextId)
      case Some(i) =>
        var t := ts[i];
        if text == "" then Unchanged(Redirect, ts, nextId)
        else
          var preview := ShortText(text, 60);
          var action := "Kommentar lagt til av " + name + ": “" + preview + "”";
          var details := VDict(map["name" := VStr(name), "text_preview" := VStr(preview), "text_len" := VInt(|text|)]);
          Step(Redirect, ts[i := t["comments" := VList(t["comments"].items + [Comment(name, text, now)])]],
               nextId, true, [Entry(now, action, VInt(id), "admin", ip, details)])
  }

  /** `list.remove(x)`: drop the first element equal to `x` (Python raises
      when there is none; that cannot happen here). */
  function RemoveFirst(s: seq<Dict>, x: Dict): (r: seq<Dict>)
    ensures x in s ==> |r| == |s| - 1
    ensures x !in s ==> r == s
    decreases |s|
  {
    if s == [] then []
    else if s[0] == x then s[1..]
    else [s[0]] + RemoveFirst(s[1..], x)
  }

  /** `delete_ticket`: admin only, allowed on closed tickets too. */
  function Delete(ts: seq<Dict>, nextId: int, id: int, ip: string, now: string): Step
  {
    if !IsAdmin(ip) then Unchanged(Forbidden, ts, nextId)
    else match FindTicket(ts, id)
      case None => Unchanged(NotFound, ts, nextId)
      case Some(i) =>
        var title := Get(ts[i], "title", VStr(""));
        var action := "Slettet sak: “" + PyStr(title) + "”";
        Step(Redirect, RemoveFirst(ts, ts[i]), nextId, true,
             [Entry(now, action, VInt(id), "admin", ip, VDict(map["title" := title]))])
  }

  /** The assignee counts as nobody: a falsy value, or a string that strips
      to "". */
  predicate BlankAssignee(t: Dict)
  {
    var a := Get(t, "assignee", VNone);
    !Truthy(a) || (a.VStr? && Strip(a.s) == "")
  }

  /** Record `u` differs from `t` at most under the keys in `ks`, and has the
      same keys. */
  predicate SameExcept(t: Dict, u: Dict, ks: set<string>)
  {
    u.Keys == t.Keys && forall k :: k in t && k !in ks ==> u[k] == t[k]
  }

  /** The list `u` differs from `ts` at most at index `i`. */
  predicate OnlyAt(ts: seq<Dict>, u: seq<Dict>, i: int)
  {
    |u| == |ts| && forall j :: 0 <= j < |ts| && j != i ==> u[j] == ts[j]
  }

  /** A form field read with a default is the default exactly when the
      field is absent or empty, and the stripped submitted text otherwise. */
  lemma FormTextSpec(form: Form, k: string, default: string)
    ensures FormOr(form, k, "") == "" ==> FormText(form, k, default) == Strip(default)
    ensures FormOr(form, k, "") != "" ==> FormText(form, k, default) == Strip(form[k])
  {
  }

  /** The defaults "Lav" and "admin" have nothing to strip, so they are
      used as they are; a field of spaces strips to "" instead. */
  lemma DefaultsStripped()
    ensures Strip("Lav") == "Lav" && Strip("admin") == "admin"
  {
    assert TrimStart("Lav") == "Lav" && TrimEnd("Lav") == "Lav";
    assert TrimStart("admin") == "admin" && TrimEnd("admin") == "admin";
  }

  /** The priority `create_ticket` stores: "Lav" when the submitted field
      strips to "", the stripped field otherwise. */
  lemma CreatePriority(form: Form)
    ensures var p := FormText(form, "priority", "Lav");
      (if p != "" then p else "Lav") ==
      (if FormText(form, "priority", "") == "" then "Lav" else FormText(form, "priority", ""))
  {
    FormTextSpec(form, "priority", "Lav");
    FormTextSpec(form, "priority", "");
    DefaultsStripped();
  }

  /** `create_ticket`: a blank title is refused and nothing changes;
      otherwise exactly one record is appended, carrying id `next_id`, the
      title, status "Åpen", no assignee and no comments, `next_id` goes up
      by one, the list is saved and one entry by "user" is logged. */
  lemma CreateSpec(ts: seq<Dict>, nextId: int, title: string, description: string, given: string, ip: string, now: string)
    ensures var r := Create(ts, nextId, title, description, given, ip, now);
      && (title == "" ==> r == Unchanged(BadRequest, ts, nextId))
      && (title != "" ==>
        && r.outcome == Redirect && r.save && r.nextId == nextId + 1
        && |r.tickets| == |ts| + 1 && r.tickets[..|ts|] == ts
        && Normalized(r.tickets[|ts|]) && r.tickets[|ts|].Keys == TicketKeys
        && r.tickets[|ts|]["id"] == VInt(nextId)
        && r.tickets[|ts|]["title"] == VStr(title)
        && r.tickets[|ts|]["status"] == VStr(Open)
        && r.tickets[|ts|]["assignee"] == VStr("")
        && r.tickets[|ts|]["comments"] == VList([])
        && r.tickets[|ts|]["priority"] == VStr(if given == "" then "Lav" else given)
        && |r.logged| == 1 && r.logged[0]["ticket_id"] == VInt(nextId) && r.logged[0]["by"] == VStr("user"))
  {
    if title != "" {
      var r := Create(ts, nextId, title, description, given, ip, now);
      assert r.tickets[..|ts|] == ts;
    }
  }

  /** The id `create_ticket` hands out is new: once `refresh_state` has set
      `next_id`, the new record is the one found under that id, and every
      id is still an integer. */
  lemma CreateFreshId(ts: seq<Dict>, nextId: int, title: string, description: string, given: string, ip: string, now: string)
    requires NextId(ts) == Some(nextId)
    requires title != ""
    ensures FindTicket(Create(ts, nextId, title, description, given, ip, now).tickets, nextId) == Some(|ts|)
    ensures IntIds(Create(ts, nextId, title, description, given, ip, now).tickets)
  {
    CreateSpec(ts, nextId, title, description, given, ip, now);
    var r := Create(ts, nextId, title, description, given, ip, now).tickets;
    forall i | 0 <= i < |r| ensures AsInt(IdOf(r[i])).Some? {
      if i < |ts| {
        assert r[i] == r[..|ts|][i];
      }
    }
    forall j | 0 <= j < |ts| ensures !HasId(r[j], nextId) {
      assert r[j] == r[..|ts|][j] == ts[j];
      assert AsInt(IdOf(ts[j])).value < nextId;
    }
    assert HasId(r[|ts|], nextId);
    FindFirst(r, nextId, |ts|);
  }

  /** A client that is not on the loopback address is refused by every
      admin handler, and nothing changes. */
  lemma AdminOnly(ts: seq<Dict>, nextId: int, id: int, field: string, text: string, ip: string, now: string)
    requires Refreshed(ts)
    requires !IsAdmin(ip)
    ensures MyWork(ts, nextId, ip) == Unchanged(Forbidden, ts, nextId)
    ensures SetStatus(ts, nextId, id, field, ip, now) == Unchanged(Forbidden, ts, nextId)
    ensures Assign(ts, nextId, id, field, ip, now) == Unchanged(Forbidden, ts, nextId)
    ensures AddComment(ts, nextId, id, field, text, ip, now) == Unchanged(Forbidden, ts, nextId)
    ensures Delete(ts, nextId, id, ip, now) == Unchanged(Forbidden, ts, nextId)
  {
  }

  /** A handler step that leaves the list and `next_id` as they were and
      neither saves nor logs. */
  predicate ChangesNothing(r: Step, ts: seq<Dict>, nextId: int)
  {
    r.tickets == ts && r.nextId == nextId && !r.save && r.logged == []
  }

  /** The pages `index`, `my_work` and `ticket` only show: they change
      nothing. `index` shows its listing, and 500 exactly when a match test
      raises; `my_work` shows its listing to an admin, and 500 exactly when
      an assignee test raises; `ticket` shows a ticket of the list carrying
      the id, and 404 exactly when no ticket has it. */
  lemma ReadOnlyPages(ts: seq<Dict>, nextId: int, q: string, ip: string, id: int)
    ensures ChangesNothing(Index(ts, nextId, q), ts, nextId)
    ensures ChangesNothing(MyWork(ts, nextId, ip), ts, nextId)
    ensures ChangesNothing(View(ts, nextId, id), ts, nextId)
    ensures Index(ts, nextId, q).outcome == ServerError <==> IndexListing(ts, q).None?
    ensures IndexListing(ts, q).Some? ==> Index(ts, nextId, q).outcome == ShowList(IndexListing(ts, q).value)
    ensures IsAdmin(ip) ==> (MyWork(ts, nextId, ip).outcome == ServerError <==> MyWorkListing(ts).None?)
    ensures IsAdmin(ip) && MyWorkListing(ts).Some? ==> MyWork(ts, nextId, ip).outcome == ShowList(MyWorkListing(ts).value)
    ensures View(ts, nextId, id).outcome == NotFound <==> forall j :: 0 <= j < |ts| ==> !HasId(ts[j], id)
    ensures View(ts, nextId, id).outcome != NotFound ==>
      exists i :: 0 <= i < |ts| && HasId(ts[i], id) && View(ts, nextId, id).outcome == ShowTicket(ts[i])
        && forall j :: 0 <= j < i ==> !HasId(ts[j], id)
  {
    if FindTicket(ts, id).Some? {
      var i := FindTicket(ts, id).value;
      assert View(ts, nextId, id).outcome == ShowTicket(ts[i]);
    }
  }

  /** An id no ticket carries gives 404 and no change, for every handler
      that takes an id. */
  lemma UnknownId(ts: seq<Dict>, nextId: int, id: int, field: string, text: string, ip: string, now: string)
    requires Refreshed(ts)
    requires IsAdmin(ip)
    requires forall j :: 0 <= j < |ts| ==> !HasId(ts[j], id)
    ensures View(ts, nextId, id) == Unchanged(NotFound, ts, nextId)
    ensures SetStatus(ts, nextId, id, field, ip, now) == Unchanged(NotFound, ts, nextId)
    ensures Assign(ts, nextId, id, field, ip, now) == Unchanged(NotFound, ts, nextId)
    ensures AddComment(ts, nextId, id, field, text, ip, now) == Unchanged(NotFound, ts, nextId)
    ensures Delete(ts, nextId, id, ip, now) == Unchanged(NotFound, ts, nextId)
  {
  }

  /** The closed lock: on a ticket whose stripped status is "Lukket" neither
      the status nor the assignee can be changed, while a comment can still
      be added and the ticket can still be deleted. */
  lemma ClosedLock(ts: seq<Dict>, nextId: int, id: int, i: nat, field: string, name: string, text: string, ip: string, now: string)
    requires Refreshed(ts)
    requires IsAdmin(ip)
    requires FindTicket(ts, id) == Some(i)
    requires IsClosed(ts[i]) == Some(true)
    ensures SetStatus(ts, nextId, id, field, ip, now) == Unchanged(BadRequest, ts, nextId)
    ensures Assign(ts, nextId, id, field, ip, now) == Unchanged(BadRequest, ts, nextId)
    ensures text != "" ==> AddComment(ts, nextId, id, name, text, ip, now).save
    ensures Delete(ts, nextId, id, ip, now).outcome == Redirect
    ensures |Delete(ts, nextId, id, ip, now).tickets| == |ts| - 1
  {
    assert ts[i] in ts;
  }

  /** `set_status` refuses a status outside "Åpen", "Pågår", "Lukket" and
      changes nothing. */
  lemma SetStatusRejectsUnknown(ts: seq<Dict>, nextId: int, id: int, status: string, ip: string, now: string)
    requires !IsStatus(status)
    ensures var r := SetStatus(ts, nextId, id, status, ip, now);
      r.tickets == ts && !r.save && r.logged == [] && r.outcome != Redirect
  {
  }

  /** `set_status` past its checks, on a normalised record: the request
      fails (500, nothing saved or logged) only when the assignee has to be
      read and is a truthy non-string; otherwise it redirects after saving
      and logs the status change, preceded by an auto-assignment entry
      exactly when the new status is "Pågår" and there was no assignee. */
  lemma ChangeStatusOutcome(ts: seq<Dict>, nextId: int, i: nat, id: int, status: string, ip: string, now: string)
    requires i < |ts| && Normalized(ts[i])
    ensures var r := ChangeStatus(ts, nextId, i, id, status, ip, now);
      var a := ts[i]["assignee"];
      var auto := status == InProgress && BlankAssignee(ts[i]);
      && (r.outcome == ServerError <==> status == InProgress && Truthy(a) && !a.VStr?)
      && (r.outcome != ServerError ==> r.outcome == Redirect && r.save)
      && (r.outcome == ServerError ==> !r.save && r.logged == [])
      && (r.outcome == Redirect ==>
            && |r.logged| == (if auto then 2 else 1)
            && (auto ==> r.logged[0] == AutoAssignEntry(id, ip, now))
            && r.logged[|r.logged| - 1] == StatusEntry(id, ts[i]["status"], status, ip, now))
  {
    var t := ts[i];
    var t1 := t["status" := VStr(status)];
    var a := t["assignee"];
    assert t1["assignee"] == a;
    if status == InProgress {
      match TextOrEmpty(a)
      case None =>
      case Some(x) =>
        if Strip(x) == "" {
          assert BlankAssignee(t);
        } else {
          assert !BlankAssignee(t);
        }
    }
  }

  /** `set_status` past its checks, on a normalised record: only that
      record changes, and only under "status" and "assignee"; the status
      becomes the submitted one (even when the request then fails); on
      success the assignee becomes "Julian" exactly when the new status is
      "Pågår" and there was no assignee, and is left alone otherwise. */
  lemma ChangeStatusRecord(ts: seq<Dict>, nextId: int, i: nat, id: int, status: string, ip: string, now: string)
    requires i < |ts| && Normalized(ts[i])
    ensures var r := ChangeStatus(ts, nextId, i, id, status, ip, now);
      var a := ts[i]["assignee"];
      var auto := status == InProgress && BlankAssignee(ts[i]);
      && OnlyAt(ts, r.tickets, i) && r.nextId == nextId
      && SameExcept(ts[i], r.tickets[i], {"status", "assignee"})
      && r.tickets[i]["status"] == VStr(status)
      && (r.outcome == Redirect ==>
            && (auto ==> r.tickets[i]["assignee"] == VStr(WorkUserName))
            && (!auto ==> r.tickets[i]["assignee"] == a))
  {
    var t := ts[i];
    var t1 := t["status" := VStr(status)];
    assert SameExcept(t, t1, {"status", "assignee"});
    var a := t["assignee"];
    assert t1["assignee"] == a;
    if status == InProgress {
      match TextOrEmpty(a)
      case None =>
      case Some(x) =>
        if Strip(x) == "" {
          assert BlankAssignee(t);
          assert SameExcept(t, t1["assignee" := VStr(WorkUserName)], {"status", "assignee"});
        } else {
          assert !BlankAssignee(t);
        }
    }
  }

  /** `set_status` with a valid status on an open ticket comes down to
      `ChangeStatus` on the record `find_ticket` found. */
  lemma SetStatusReaches(ts: seq<Dict>, nextId: int, id: int, i: nat, status: string, ip: string, now: string)
    requires IsAdmin(ip) && FindTicket(ts, id) == Some(i)
    requires IsClosed(ts[i]) == Some(false) && IsStatus(status)
    ensures SetStatus(ts, nextId, id, status, ip, now) == ChangeStatus(ts, nextId, i, id, status, ip, now)
  {
  }

  /** `assign` past its checks, on a normalised record: only that record's
      assignee changes, to the submitted value, and one entry recording the
      old (stripped) and new assignee is logged; a truthy non-string
      assignee makes it fail with no change. */
  lemma ChangeAssigneeSpec(ts: seq<Dict>, nextId: int, i: nat, id: int, assignee: string, ip: string, now: string)
    requires i < |ts| && Normalized(ts[i])
    ensures var r := ChangeAssignee(ts, nextId, i, id, assignee, ip, now);
      var a := ts[i]["assignee"];
      && (r.outcome == ServerError <==> Truthy(a) && !a.VStr?)
      && (r.outcome == ServerError ==> r == Unchanged(ServerError, ts, nextId))
      && (r.outcome != ServerError ==>
            && r.outcome == Redirect && r.save && r.nextId == nextId
            && OnlyAt(ts, r.tickets, i)
            && SameExcept(ts[i], r.tickets[i], {"assignee"})
            && r.tickets[i]["assignee"] == VStr(assignee)
            && r.logged == [AssignEntry(id, Strip(TextOrEmpty(a).value), assignee, ip, now)])
  {
    var t := ts[i];
    assert SameExcept(t, t["assignee" := VStr(assignee)], {"assignee"});
  }

  /** The entry `assign` logs records the old and the new assignee. */
  lemma AssignEntrySpec(id: int, previous: string, assignee: string, ip: string, now: string)
    ensures var e := AssignEntry(id, previous, assignee, ip, now);
      && "details" in e
      && e["details"] == VDict(map["old_assignee" := VStr(previous), "new_assignee" := VStr(assignee)])
      && e["ticket_id"] == VInt(id) && e["by"] == VStr("admin")
  {
    assert "old_assignee" in map["old_assignee" := VStr(previous), "new_assignee" := VStr(assignee)];
  }

  /** `assign` on an open ticket comes down to `ChangeAssignee` on the
      record `find_ticket` found. */
  lemma AssignReaches(ts: seq<Dict>, nextId: int, id: int, i: nat, assignee: string, ip: string, now: string)
    requires IsAdmin(ip) && FindTicket(ts, id) == Some(i)
    requires IsClosed(ts[i]) == Some(false)
    ensures Assign(ts, nextId, id, assignee, ip, now) == ChangeAssignee(ts, nextId, i, id, assignee, ip, now)
  {
  }

  /** `add_comment`: a blank comment changes nothing; otherwise exactly one
      `{time, name, text}` comment is appended after the existing ones of
      that record and nothing else changes. */
  lemma AddCommentSpec(ts: seq<Dict>, nextId: int, id: int, i: nat, name: string, text: string, ip: string, now: string)
    requires Refreshed(ts)
    requires IsAdmin(ip)
    requires FindTicket(ts, id) == Some(i)
    ensures var r := AddComment(ts, nextId, id, name, text, ip, now);
      && (text == "" ==> r == Unchanged(Redirect, ts, nextId))
      && (text != "" ==>
            && r.outcome == Redirect && r.save && r.nextId == nextId
            && OnlyAt(ts, r.tickets, i)
            && SameExcept(ts[i], r.tickets[i], {"comments"})
            && r.tickets[i]["comments"].VList?
            && r.tickets[i]["comments"].items == ts[i]["comments"].items + [Comment(name, text, now)]
            && |r.logged| == 1)
  {
    assert Normalized(ts[i]);
  }

  /** `list.remove` of the record `find_ticket` returned removes exactly
      that record: no earlier record can equal it, because none carries its
      id. */
  lemma {:induction false} RemoveFound(ts: seq<Dict>, id: int, i: nat)
    requires FindTicket(ts, id) == Some(i)
    ensures RemoveFirst(ts, ts[i]) == ts[..i] + ts[i + 1..]
    decreases |ts|
  {
    if i == 0 {
      assert ts[0] == ts[i];
    } else {
      assert !HasId(ts[0], id);
      assert ts[0] != ts[i];
      var tail := ts[1..];
      assert FindTicket(tail, id) == Some(i - 1);
      RemoveFound(tail, id, i - 1);
      assert tail[i - 1] == ts[i];
      assert RemoveFirst(ts, ts[i]) == [ts[0]] + RemoveFirst(tail, ts[i]);
      SpliceCons(ts, i);
    }
  }

  /** `list.remove(x)` drops the first element equal to `x`, at index `i`,
      and keeps every other element in its order. */
  lemma {:induction false} RemoveFirstAt(s: seq<Dict>, x: Dict, i: nat)
    requires i < |s| && s[i] == x && x !in s[..i]
    ensures RemoveFirst(s, x) == s[..i] + s[i + 1..]
    decreases |s|
  {
    if i == 0 {
      assert s[..0] + s[1..] == s[1..];
    } else {
      assert s[0] in s[..i];
      var tail := s[1..];
      assert tail[i - 1] == x;
      assert tail[..i - 1] == s[1..i];
      assert x !in tail[..i - 1];
      RemoveFirstAt(tail, x, i - 1);
      SpliceCons(s, i);
    }
  }

  /** Cutting out index `i > 0` commutes with taking off the head. */
  lemma SpliceCons<T>(s: seq<T>, i: nat)
    requires 0 < i < |s|
    ensures [s[0]] + (s[1..][..i - 1] + s[1..][i..]) == s[..i] + s[i + 1..]
  {
    assert s[1..][..i - 1] == s[1..i] && s[1..][i..] == s[i + 1..];
    assert s[..i] == [s[0]] + s[1..i];
  }

  /** `delete_ticket`: exactly the found record is removed, the others stay
      in order, and the deletion is logged with the record's title. */
  lemma DeleteSpec(ts: seq<Dict>, nextId: int, id: int, i: nat, ip: string, now: string)
    requires IsAdmin(ip)
    requires FindTicket(ts, id) == Some(i)
    ensures var r := Delete(ts, nextId, id, ip, now);
      && r.outcome == Redirect && r.save && r.nextId == nextId
      && r.tickets == ts[..i] + ts[i + 1..]
      && |r.logged| == 1 && "details" in r.logged[0]
      && r.logged[0]["details"] == VDict(map["title" := Get(ts[i], "title", VStr(""))])
  {
    RemoveFound(ts, id, i);
    assert "title" in map["title" := Get(ts[i], "title", VStr(""))];
  }

  /** Each handler leaves a normalised list normalised. */
  lemma CreateKeepsRefreshed(ts: seq<Dict>, nextId: int, title: string, description: string, given: string, ip: string, now: string)
    requires Refreshed(ts)
    ensures Refreshed(Create(ts, nextId, title, description, given, ip, now).tickets)
  {
    var r := Create(ts, nextId, title, description, given, ip, now);
    CreateSpec(ts, nextId, title, description, given, ip, now);
    if title != "" {
      forall i | 0 <= i < |r.tickets| ensures Normalized(r.tickets[i]) {
        if i < |ts| {
          assert r.tickets[i] == r.tickets[..|ts|][i];
        }
      }
    }
  }

  lemma SetStatusKeepsRefreshed(ts: seq<Dict>, nextId: int, id: int, status: string, ip: string, now: string)
    requires Refreshed(ts)
    ensures Refreshed(SetStatus(ts, nextId, id, status, ip, now).tickets)
  {
    if IsAdmin(ip) && FindTicket(ts, id).Some? {
      var i := FindTicket(ts, id).value;
      if IsClosed(ts[i]) == Some(false) && IsStatus(status) {
        ChangeStatusKeepsRefreshed(ts, nextId, i, id, status, ip, now);
      }
    }
  }

  lemma ChangeStatusKeepsRefreshed(ts: seq<Dict>, nextId: int, i: nat, id: int, status: string, ip: string, now: string)
    requires i < |ts| && Refreshed(ts)
    ensures Refreshed(ChangeStatus(ts, nextId, i, id, status, ip, now).tickets)
  {
    var r := ChangeStatus(ts, nextId, i, id, status, ip, now).tickets;
    assert |r| == |ts|;
    forall j | 0 <= j < |r| ensures Normalized(r[j]) {
      if j != i {
        assert r[j] == ts[j];
      } else {
        assert Normalized(ts[i]);
      }
    }
  }

  lemma AssignKeepsRefreshed(ts: seq<Dict>, nextId: int, id: int, assignee: string, ip: string, now: string)
    requires Refreshed(ts)
    ensures Refreshed(Assign(ts, nextId, id, assignee, ip, now).tickets)
  {
    if IsAdmin(ip) && FindTicket(ts, id).Some? {
      var i := FindTicket(ts, id).value;
      if IsClosed(ts[i]) == Some(false) {
        ChangeAssigneeSpec(ts, nextId, i, id, assignee, ip, now);
        var r := ChangeAssignee(ts, nextId, i, id, assignee, ip, now);
        if r.outcome != ServerError {
          assert Normalized(r.tickets[i]);
        }
      }
    }
  }

  lemma AddCommentKeepsRefreshed(ts: seq<Dict>, nextId: int, id: int, name: string, text: string, ip: string, now: string)
    requires Refreshed(ts)
    ensures Refreshed(AddComment(ts, nextId, id, name, text, ip, now).tickets)
  {
    if IsAdmin(ip) && FindTicket(ts, id).Some? {
      var i := FindTicket(ts, id).value;
      AddCommentSpec(ts, nextId, id, i, name, text, ip, now);
      if text != "" {
        assert Normalized(AddComment(ts, nextId, id, name, text, ip, now).tickets[i]);
      }
    }
  }

  lemma DeleteKeepsRefreshed(ts: seq<Dict>, nextId: int, id: int, ip: string, now: string)
    requires Refreshed(ts)
    ensures Refreshed(Delete(ts, nextId, id, ip, now).tickets)
  {
    if IsAdmin(ip) && FindTicket(ts, id).Some? {
      var i := FindTicket(ts, id).value;
      DeleteSpec(ts, nextId, id, i, ip, now);
      var r := Delete(ts, nextId, id, ip, now).tickets;
      forall j | 0 <= j < |r| ensures Normalized(r[j]) {
        if j < i {
          assert r[j] == ts[j];
        } else {
          assert r[j] == ts[j + 1];
        }
      }
    }
  }

  /** Deleting the ticket `create_ticket` has just added, by its id, gives
      back the list as it was before. */
  lemma DeleteUndoesCreate(ts: seq<Dict>, nextId: int, later: int, title: string, description: string, given: string, ip: string, now: string)
    requires NextId(ts) == Some(nextId) && title != "" && IsAdmin(ip)
    ensures Delete(Create(ts, nextId, title, description, given, ip, now).tickets, later, nextId, ip, now).tickets == ts
  {
    var us := Create(ts, nextId, title, description, given, ip, now).tickets;
    CreateSpec(ts, nextId, title, description, given, ip, now);
    CreateFreshId(ts, nextId, title, description, given, ip, now);
    DeleteSpec(us, later, nextId, |ts|, ip, now);
    assert us[|ts| + 1..] == [];
  }
}
