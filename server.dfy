/** One request to the helpdesk of app/routes.py from start to end: the
    `refresh_state` every handler begins with, the handler, and what reaches
    the two files. `Serve` states it as a function of the state; the class
    `Helpdesk` holds the module globals `tickets` and `next_id` and does the
    same work step by step, and each of its methods is proved to end in the
    state `Serve` gives. */
module Server {
  import opened PyValues
  import opened Records
  import opened Listing
  import opened Storage
  import opened Handlers

  /** The routes, with the data each reads from the request. */
  datatype Request =
    | IndexPage(args: Form)
    | MyWorkPage
    | NewTicketPage
    | CreateTicket(form: Form)
    | TicketPage(id: int)
    | SetStatusPost(id: int, form: Form)
    | AssignPost(id: int, form: Form)
    | CommentPost(id: int, form: Form)
    | DeletePost(id: int)
    | ActivityPage

  /** The two files and the two module globals. */
  datatype State = State(ticketsFile: FileContent, logFile: FileContent, tickets: seq<Dict>, nextId: int)

  /** `refresh_state` succeeds: every id is an integer, so `max(...) + 1`
      does not raise. */
  predicate RefreshOk(s: State, now: string)
  {
    NextId(NormalizeAll(LoadList(s.ticketsFile), now)).Some?
  }

  /** The state `refresh_state` leaves: `tickets` is the normalised loaded
      list; when `next_id` can be computed it is set and the list is saved
      if normalising changed anything; when it raises, `tickets` has already
      been replaced and nothing else changes. */
  function Refreshing(s: State, now: string): (r: State)
    ensures r.logFile == s.logFile
    ensures r.tickets == NormalizeAll(LoadList(s.ticketsFile), now)
    ensures Refreshed(r.tickets)
    ensures NextId(r.tickets).Some? ==>
      && r.nextId == NextId(r.tickets).value
      && r.ticketsFile == (if AnyChanged(LoadList(s.ticketsFile)) then Saved(r.tickets) else s.ticketsFile)
    ensures NextId(r.tickets).None? ==> r.nextId == s.nextId && r.ticketsFile == s.ticketsFile
  {
    var loaded := LoadList(s.ticketsFile);
    var ts := NormalizeAll(loaded, now);
    NormalizeAllSpec(loaded, now);
    match NextId(ts)
    case None => s.(tickets := ts)
    case Some(n) =>
      s.(ticketsFile := if AnyChanged(loaded) then Saved(ts) else s.ticketsFile, tickets := ts, nextId := n)
  }

  /** The handler a request reaches after a successful refresh. */
  function Handle(req: Request, ts: seq<Dict>, nextId: int, ip: string, now: string): Step
    requires Refreshed(ts) && !req.ActivityPage?
  {
    match req
    case IndexPage(args) => Index(ts, nextId, Query(args))
    case MyWorkPage => MyWork(ts, nextId, ip)
    case NewTicketPage => Unchanged(ShowForm, ts, nextId)
    case CreateTicket(form) =>
      Create(ts, nextId, FormText(form, "title", ""), FormText(form, "description", ""),
             FormText(form, "priority", "Lav"), ip, now)
    case TicketPage(id) => View(ts, nextId, id)
    case SetStatusPost(id, form) => SetStatus(ts, nextId, id, FormText(form, "status", ""), ip, now)
    case AssignPost(id, form) => Assign(ts, nextId, id, FormText(form, "assignee", ""), ip, now)
    case CommentPost(id, form) =>
      AddComment(ts, nextId, id, FormText(form, "name", "admin"), FormText(form, "comment", ""), ip, now)
    case DeletePost(id) => Delete(ts, nextId, id, ip, now)
  }

  /** The state after a handler step: the new globals, the list saved when
      the handler saved it, the entries appended to the log. */
  function Apply(s: State, step: Step): State
  {
    State(if step.save then Saved(step.tickets) else s.ticketsFile,
          AppendEntries(s.logFile, step.logged), step.tickets, step.nextId)
  }

  /** What the client gets and the state after a handler step on `s`. */
  function Finish(s: State, step: Step): (Outcome, State)
  {
    (step.outcome, Apply(s, step))
  }

  /** `activity` (admin only, no refresh): the log, newest entry first. */
  function Activity(s: State, ip: string): Outcome
  {
    if IsAdmin(ip) then ShowLog(Reversed(LoadList(s.logFile))) else Forbidden
  }

  /** One request: what the client gets and the state afterwards. */
  function Serve(s: State, req: Request, ip: string, now: string): (Outcome, State)
  {
    if req.ActivityPage? then (Activity(s, ip), s)
    else
      var s1 := Refreshing(s, now);
      if !RefreshOk(s, now) then (ServerError, s1)
      else
        Finish(s1, Handle(req, s1.tickets, s1.nextId, ip, now))
  }

  /** What every request promises about the files. The activity page
      changes nothing and shows the whole log, newest first, to an admin
      only; a refresh that raises gives 500 and leaves both files as they
      were; and every request only appends to the log. */
  lemma ServeSpec(s: State, req: Request, ip: string, now: string)
    ensures req.ActivityPage? ==> Serve(s, req, ip, now).1 == s
    ensures req.ActivityPage? ==> (Serve(s, req, ip, now).0.ShowLog? <==> IsAdmin(ip))
    ensures req.ActivityPage? && IsAdmin(ip) ==> Reversed(Serve(s, req, ip, now).0.entries) == LoadList(s.logFile)
    ensures !req.ActivityPage? && !RefreshOk(s, now) ==>
      && Serve(s, req, ip, now).0 == ServerError
      && Serve(s, req, ip, now).1.ticketsFile == s.ticketsFile
      && Serve(s, req, ip, now).1.logFile == s.logFile
    ensures LoadList(s.logFile) <= LoadList(Serve(s, req, ip, now).1.logFile)
  {
    if req.ActivityPage? {
      ReversedTwice(LoadList(s.logFile));
    } else if RefreshOk(s, now) {
      var s1 := Refreshing(s, now);
      var step := Handle(req, s1.tickets, s1.nextId, ip, now);
      assert Serve(s, req, ip, now).1 == Apply(s1, step);
      AppendEntriesSpec(s1.logFile, step.logged, []);
    }
  }

  /** Normalising one entry more extends the normalised prefix by it. */
  lemma NormalizeAllSnoc(loaded: seq<Value>, j: nat, now: string)
    requires j < |loaded|
    ensures NormalizeAll(loaded[..j + 1], now) == NormalizeAll(loaded[..j], now) + [NormalizeTicket(AsRecord(loaded[j]), now)]
  {
    assert loaded[..j + 1][j] == loaded[j];
  }

  /** Some entry of a prefix one longer needs normalising exactly when some
      entry of the shorter prefix or the new entry does. */
  lemma AnyChangedSnoc(loaded: seq<Value>, j: nat)
    requires j < |loaded|
    ensures AnyChanged(loaded[..j + 1]) <==> AnyChanged(loaded[..j]) || NeedsNormalizing(loaded[j])
  {
    var p := loaded[..j + 1];
    if AnyChanged(p) && !NeedsNormalizing(loaded[j]) {
      var k :| 0 <= k < |p| && NeedsNormalizing(p[k]);
      assert k < j && loaded[..j][k] == p[k];
    }
    if AnyChanged(loaded[..j]) {
      var k :| 0 <= k < j && NeedsNormalizing(loaded[..j][k]);
      assert p[k] == loaded[..j][k];
    }
    if NeedsNormalizing(loaded[j]) {
      assert p[j] == loaded[j];
    }
  }

  /** The loop of `refresh_state`: normalise every loaded entry (a non-dict
      becomes `{}` first) and note whether any of them changed. */
  method NormalizeLoaded(loaded: seq<Value>, now: string) returns (normalized: seq<Dict>, changed: bool)
    ensures normalized == NormalizeAll(loaded, now)
    ensures changed == AnyChanged(loaded)
  {
    changed := false;
    normalized := [];
    var j := 0;
    while j < |loaded|
      invariant 0 <= j <= |loaded|
      invariant normalized == NormalizeAll(loaded[..j], now)
      invariant changed == AnyChanged(loaded[..j])
    {
      var before := AsRecord(loaded[j]);
      var t := NormalizeTicket(before, now);
      ChangesIff(loaded[j], now);
      NormalizeAllSnoc(loaded, j, now);
      AnyChangedSnoc(loaded, j);
      normalized := normalized + [t];
      if t != before {
        changed := true;
      }
      j := j + 1;
    }
    assert loaded[..j] == loaded;
  }

  /** Records read back from a list of normalised records normalise to
      themselves, whatever the time, so nothing in the list needs
      normalising. */
  lemma NormalizedLoad(loaded: seq<Value>, ts: seq<Dict>, now: string)
    requires |loaded| == |ts|
    requires forall i :: 0 <= i < |ts| ==> loaded[i] == VDict(ts[i]) && Normalized(ts[i])
    ensures NormalizeAll(loaded, now) == ts
    ensures !AnyChanged(loaded)
  {
    forall i | 0 <= i < |ts| ensures NormalizeAll(loaded, now)[i] == ts[i] {
      NormalizeKeepsNormalized(ts[i], now);
    }
  }

  /** `refresh_state` is stable: once it has succeeded, running it again, at
      any later time, succeeds, saves nothing and changes nothing. */
  lemma RefreshStable(s: State, now: string, later: string)
    requires RefreshOk(s, now)
    ensures RefreshOk(Refreshing(s, now), later)
    ensures Refreshing(Refreshing(s, now), later) == Refreshing(s, now)
  {
    var loaded := LoadList(s.ticketsFile);
    var ts := NormalizeAll(loaded, now);
    var s1 := Refreshing(s, now);
    NormalizeAllSpec(loaded, now);
    if AnyChanged(loaded) {
      LoadSaved(ts);
      NormalizedLoad(LoadList(s1.ticketsFile), ts, later);
    } else {
      forall i | 0 <= i < |loaded| ensures loaded[i] == VDict(ts[i]) {
        assert !NeedsNormalizing(loaded[i]);
        NormalizeKeepsNormalized(loaded[i].fields, now);
      }
      NormalizedLoad(loaded, ts, later);
    }
  }

  /** A refresh right after a handler saved a normalised list reads that
      list back unchanged and does not save again; it fails exactly when
      some id is not an integer. */
  lemma RefreshAfterSave(s: State, ts: seq<Dict>, now: string)
    requires s.ticketsFile == Saved(ts) && Refreshed(ts)
    ensures RefreshOk(s, now) <==> IntIds(ts)
    ensures Refreshing(s, now).tickets == ts
    ensures IntIds(ts) ==> Refreshing(s, now) == s.(tickets := ts, nextId := NextId(ts).value)
  {
    LoadSaved(ts);
    NormalizedLoad(LoadList(Saved(ts)), ts, now);
  }

  /** Every handler leaves the in-memory list normalised, so the
      `normalize_ticket` calls the handlers make change nothing. */
  lemma HandleKeepsRefreshed(req: Request, ts: seq<Dict>, nextId: int, ip: string, now: string)
    requires Refreshed(ts) && !req.ActivityPage?
    ensures Refreshed(Handle(req, ts, nextId, ip, now).tickets)
  {
    match req
    case CreateTicket(form) =>
      CreateKeepsRefreshed(ts, nextId, FormText(form, "title", ""), FormText(form, "description", ""),
                           FormText(form, "priority", "Lav"), ip, now);
    case SetStatusPost(id, form) =>
      SetStatusKeepsRefreshed(ts, nextId, id, FormText(form, "status", ""), ip, now);
    case AssignPost(id, form) =>
      AssignKeepsRefreshed(ts, nextId, id, FormText(form, "assignee", ""), ip, now);
    case CommentPost(id, form) =>
      AddCommentKeepsRefreshed(ts, nextId, id, FormText(form, "name", "admin"), FormText(form, "comment", ""), ip, now);
    case DeletePost(id) =>
      DeleteKeepsRefreshed(ts, nextId, id, ip, now);
    case _ =>
  }

  /** Ids can be handed out twice: `next_id` is the largest id plus one at
      every refresh, so when a ticket is created and then deleted again by
      the next request, the following refresh gives out its id once more. */
  lemma IdReusedAfterDelete(s: State, title: string, description: string, priority: string, ip: string, now: string, later: string)
    requires RefreshOk(s, now) && IsAdmin(ip) && title != ""
    ensures var s1 := Refreshing(s, now);
      var n := s1.nextId;
      var s2 := Apply(s1, Create(s1.tickets, n, title, description, priority, ip, now));
      var s2r := Refreshing(s2, now);
      var s3 := Apply(s2r, Delete(s2r.tickets, s2r.nextId, n, ip, now));
      && s2.nextId == n + 1
      && RefreshOk(s2, now) && RefreshOk(s3, later) && Refreshing(s3, later).nextId == n
  {
    var s1 := Refreshing(s, now);
    var ts := s1.tickets;
    var n := s1.nextId;
    CreateFreshId(ts, n, title, description, priority, ip, now);
    CreateKeepsRefreshed(ts, n, title, description, priority, ip, now);
    var s2 := Apply(s1, Create(ts, n, title, description, priority, ip, now));
    RefreshAfterSave(s2, s2.tickets, now);
    var s2r := Refreshing(s2, now);
    DeleteUndoesCreate(ts, n, s2r.nextId, title, description, priority, ip, now);
    var step2 := Delete(s2r.tickets, s2r.nextId, n, ip, now);
    RefreshAfterSave(Apply(s2r, step2), ts, later);
  }

  /** The loop of `my_work`: keep each active ticket whose assignee is
      blank or the work user's, in order; a non-text assignee raises. */
  method WorkFilter(active: seq<Dict>) returns (r: Option<seq<Dict>>)
    ensures r == TryFilter(active, OnWorkList)
  {
    var filtered: seq<Dict> := [];
    var j := 0;
    while j < |active|
      invariant 0 <= j <= |active|
      invariant TryFilter(active[..j], OnWorkList) == Some(filtered)
    {
      var keep := OnWorkList(active[j]);
      if keep.None? {
        TryFilterRaises(active, j, OnWorkList);
        return None;
      }
      TryFilterPrefix(active, j, OnWorkList);
      if keep.value {
        filtered := filtered + [active[j]];
      } else {
        assert filtered + [] == filtered;
      }
      j := j + 1;
    }
    assert active[..j] == active;
    return Some(filtered);
  }

  /** The helpdesk process: the globals `tickets` and `next_id` of
      app/routes.py and the files it reads and writes. */
  class Helpdesk {
    var tickets: seq<Dict>
    var nextId: int
    const disk: Disk

    /** The whole state, as `Serve` sees it. */
    function Snapshot(): State
      reads this, disk
    {
      State(disk.ticketsFile, disk.logFile, tickets, nextId)
    }

    /** Importing the module: `tickets = []`, `next_id = 1`, then the start-up
        `refresh_state`. When that refresh raises, the import fails and the
        application is never created, so the process exists only when it
        succeeds. */
    constructor (d: Disk, now: string)
      requires RefreshOk(State(d.ticketsFile, d.logFile, [], 1), now)
      modifies d
      ensures disk == d
      ensures Snapshot() == Refreshing(State(old(d.ticketsFile), old(d.logFile), [], 1), now)
    {
      disk := d;
      tickets := [];
      nextId := 1;
      new;
      var ok := RefreshState(now);
      assert ok;
    }

    /** `refresh_state(save_if_changed=True)`: normalise the loaded list,
        derive `next_id`, and save when normalising changed something; `ok`
        is false when deriving `next_id` raises. */
    method RefreshState(now: string) returns (ok: bool)
      modifies this, disk
      ensures ok == RefreshOk(old(Snapshot()), now)
      ensures Snapshot() == Refreshing(old(Snapshot()), now)
    {
      var loaded := LoadList(disk.ticketsFile);
      var normalized, changed := NormalizeLoaded(loaded, now);
      tickets := normalized;
      var n := NextId(normalized);
      if n.None? {
        return false;
      }
      nextId := n.value;
      if changed {
        disk.SaveTickets(tickets);
      }
      return true;
    }

    /** A request: `activity` reads the log without a refresh; every other
        route first runs `refresh_state` (a failure there is a server error)
        and then its handler. */
    method Route(req: Request, ip: string, now: string) returns (o: Outcome)
      modifies this, disk
      ensures (o, Snapshot()) == Serve(old(Snapshot()), req, ip, now)
    {
      if req.ActivityPage? {
        if !IsAdmin(ip) {
          return Forbidden;
        }
        var log := LoadList(disk.logFile);
        return ShowLog(Reversed(log));
      }
      var ok := RefreshState(now);
      if !ok {
        return ServerError;
      }
      match req {
        case IndexPage(args) =>
          var shown := IndexListing(tickets, Query(args));
          o := if shown.None? then ServerError else ShowList(shown.value);
        case MyWorkPage =>
          o := MyWork(ip);
        case NewTicketPage =>
          o := ShowForm;
        case CreateTicket(form) =>
          o := CreateTicket(form, ip, now);
        case TicketPage(id) =>
          var found := FindTicket(tickets, id);
          o := if found.None? then NotFound else ShowTicket(tickets[found.value]);
        case SetStatusPost(id, form) =>
          o := SetStatus(id, form, ip, now);
        case AssignPost(id, form) =>
          o := Assign(id, form, ip, now);
        case CommentPost(id, form) =>
          o := AddComment(id, form, ip, now);
        case DeletePost(id) =>
          o := DeleteTicket(id, ip, now);
      }
    }

    /** `my_work` after its refresh: admin only; the active tickets whose
        assignee is blank or the work user's, newest first. */
    method MyWork(ip: string) returns (o: Outcome)
      ensures o == Handlers.MyWork(tickets, nextId, ip).outcome
    {
      if !IsAdmin(ip) {
        return Forbidden;
      }
      var filtered := WorkFilter(Active(tickets));
      if filtered.None? {
        return ServerError;
      }
      return ShowList(SortByIdDesc(filtered.value));
    }

    /** `create_ticket` after its refresh. */
    method CreateTicket(form: Form, ip: string, now: string) returns (o: Outcome)
      modifies this, disk
      ensures (o, Snapshot()) == Finish(old(Snapshot()), Create(old(tickets), old(nextId), FormText(form, "title", ""),
                FormText(form, "description", ""), FormText(form, "priority", "Lav"), ip, now))
    {
      var title := FormText(form, "title", "");
      var description := FormText(form, "description", "");
      var priority := FormText(form, "priority", "Lav");
      if title == "" {
        return BadRequest;
      }
      o := WriteNew(title, description, priority, ip, now);
    }

    /** The part of `create_ticket` after the title check: append the new
        ticket under the counter, advance the counter, save, log. */
    method WriteNew(title: string, description: string, given: string, ip: string, now: string) returns (o: Outcome)
      requires title != ""
      modifies this, disk
      ensures (o, Snapshot()) == Finish(old(Snapshot()), Create(old(tickets), old(nextId), title, description, given, ip, now))
    {
      ghost var step := Create(tickets, nextId, title, description, given, ip, now);
      var priority := if given != "" then given else "Lav";
      var id := nextId;
      var t := NewTicket(id, title, description, priority, now);
      var action := CreateAction(title, priority);
      var details := CreateDetails(title, priority);
      assert step == Step(Redirect, tickets + [t], nextId + 1, true, [Entry(now, action, VInt(id), "user", ip, details)]);
      tickets := tickets + [t];
      nextId := nextId + 1;
      disk.SaveTickets(tickets);
      disk.LogAction(now, action, VInt(id), "user", ip, details);
      assert disk.logFile == AppendEntries(old(disk.logFile), step.logged);
      assert disk.ticketsFile == Saved(step.tickets);
      assert Snapshot() == Apply(old(Snapshot()), step);
      return Redirect;
    }

    /** `set_status` after its refresh. The new status is written into the
        record before the assignee is read, so a crash there leaves it in
        memory, unsaved. */
    method SetStatus(id: int, form: Form, ip: string, now: string) returns (o: Outcome)
      modifies this, disk
      ensures (o, Snapshot()) == Finish(old(Snapshot()),
                Handlers.SetStatus(old(tickets), old(nextId), id, FormText(form, "status", ""), ip, now))
    {
      ghost var step := Handlers.SetStatus(tickets, nextId, id, FormText(form, "status", ""), ip, now);
      if !IsAdmin(ip) {
        return Forbidden;
      }
      var found := FindTicket(tickets, id);
      if found.None? {
        return NotFound;
      }
      var i := found.value;
      var t := tickets[i];
      var closed := IsClosed(t);
      if closed.None? {
        return ServerError;
      }
      if closed.value {
        return BadRequest;
      }
      var status := FormText(form, "status", "");
      if !IsStatus(status) {
        return BadRequest;
      }
      o := WriteStatus(i, id, status, ip, now);
    }

    /** The rest of `set_status`, on the ticket at index `i`: write the
        status, auto-assign the work user when the ticket goes in progress
        unassigned, save, log. */
    method WriteStatus(i: nat, id: int, status: string, ip: string, now: string) returns (o: Outcome)
      requires i < |tickets|
      modifies this, disk
      ensures (o, Snapshot()) == Finish(old(Snapshot()), ChangeStatus(old(tickets), old(nextId), i, id, status, ip, now))
    {
      ghost var step := ChangeStatus(tickets, nextId, i, id, status, ip, now);
      var t := tickets[i];
      var oldStatus := Get(t, "status", VStr(""));
      t := t["status" := VStr(status)];
      tickets := tickets[i := t];
      ghost var logged: seq<Dict> := [];
      if status == InProgress {
        var current := TextOrEmpty(Get(t, "assignee", VNone));
        if current.None? {
          assert step == Unchanged(ServerError, tickets, nextId);
          return ServerError;
        }
        if Strip(current.value) == "" {
          t := t["assignee" := VStr(WorkUserName)];
          tickets := tickets[i := t];
          disk.LogAction(now, "Auto-tildelt ansvarlig ved Pågår: (tom) -> " + WorkUserName, VInt(id), "admin", ip,
                         VDict(map["old_assignee" := VStr(""), "new_assignee" := VStr(WorkUserName)]));
          logged := [AutoAssignEntry(id, ip, now)];
        }
      }
      disk.SaveTickets(tickets);
      disk.LogAction(now, "Endret status: " + PyStr(oldStatus) + " -> " + status, VInt(id), "admin", ip,
                     VDict(map["old_status" := oldStatus, "new_status" := VStr(status)]));
      AppendEntriesSpec(old(disk.logFile), logged, [StatusEntry(id, oldStatus, status, ip, now)]);
      assert step == Step(Redirect, tickets, nextId, true, logged + [StatusEntry(id, oldStatus, status, ip, now)]);
      assert Snapshot() == Apply(old(Snapshot()), step);
      return Redirect;
    }

    /** `assign` after its refresh. */
    method Assign(id: int, form: Form, ip: string, now: string) returns (o: Outcome)
      modifies this, disk
      ensures (o, Snapshot()) == Finish(old(Snapshot()),
                Handlers.Assign(old(tickets), old(nextId), id, FormText(form, "assignee", ""), ip, now))
    {
      ghost var step := Handlers.Assign(tickets, nextId, id, FormText(form, "assignee", ""), ip, now);
      if !IsAdmin(ip) {
        return Forbidden;
      }
      var found := FindTicket(tickets, id);
      if found.None? {
        return NotFound;
      }
      var i := found.value;
      var t := tickets[i];
      var closed := IsClosed(t);
      if closed.None? {
        return ServerError;
      }
      if closed.value {
        return BadRequest;
      }
      var assignee := FormText(form, "assignee", "");
      var current := TextOrEmpty(Get(t, "assignee", VNone));
      if current.None? {
        return ServerError;
      }
      var previous := Strip(current.value);
      t := t["assignee" := VStr(assignee)];
      assert step == Step(Redirect, tickets[i := t], nextId, true, [AssignEntry(id, previous, assignee, ip, now)]);
      tickets := tickets[i := t];
      disk.SaveTickets(tickets);
      disk.LogAction(now, "Endret ansvarlig: " + Shown(previous) + " -> " + Shown(assignee), VInt(id), "admin", ip,
                     VDict(map["old_assignee" := VStr(previous), "new_assignee" := VStr(assignee)]));
      assert Snapshot() == Apply(old(Snapshot()), step);
      return Redirect;
    }

    /** `add_comment` after its refresh. */
    method AddComment(id: int, form: Form, ip: string, now: string) returns (o: Outcome)
      requires Refreshed(tickets)
      modifies this, disk
      ensures (o, Snapshot()) == Finish(old(Snapshot()),
                Handlers.AddComment(old(tickets), old(nextId), id, FormText(form, "name", "admin"),
                                    FormText(form, "comment", ""), ip, now))
    {
      ghost var step := Handlers.AddComment(tickets, nextId, id, FormText(form, "name", "admin"),
                                            FormText(form, "comment", ""), ip, now);
      if !IsAdmin(ip) {
        return Forbidden;
      }
      var found := FindTicket(tickets, id);
      if found.None? {
        return NotFound;
      }
      var i := found.value;
      var t := tickets[i];
      var name := FormText(form, "name", "admin");
      var text := FormText(form, "comment", "");
      if text == "" {
        return Redirect;
      }
      t := t["comments" := VList(t["comments"].items + [Comment(name, text, now)])];
      var preview := ShortText(text, 60);
      var action := "Kommentar lagt til av " + name + ": “" + preview + "”";
      var details := VDict(map["name" := VStr(name), "text_preview" := VStr(preview), "text_len" := VInt(|text|)]);
      assert step == Step(Redirect, tickets[i := t], nextId, true, [Entry(now, action, VInt(id), "admin", ip, details)]);
      tickets := tickets[i := t];
      disk.SaveTickets(tickets);
      disk.LogAction(now, action, VInt(id), "admin", ip, details);
      assert Snapshot() == Apply(old(Snapshot()), step);
      return Redirect;
    }

    /** `delete_ticket` after its refresh: `tickets.remove(t)`. */
    method DeleteTicket(id: int, ip: string, now: string) returns (o: Outcome)
      modifies this, disk
      ensures (o, Snapshot()) == Finish(old(Snapshot()), Delete(old(tickets), old(nextId), id, ip, now))
    {
      ghost var step := Delete(tickets, nextId, id, ip, now);
      if !IsAdmin(ip) {
        return Forbidden;
      }
      var found := FindTicket(tickets, id);
      if found.None? {
        return NotFound;
      }
      var t := tickets[found.value];
      var title := Get(t, "title", VStr(""));
      var action := "Slettet sak: “" + PyStr(title) + "”";
      assert step == Step(Redirect, RemoveFirst(tickets, t), nextId, true,
                          [Entry(now, action, VInt(id), "admin", ip, VDict(map["title" := title]))]);
      tickets := RemoveFirst(tickets, t);
      disk.SaveTickets(tickets);
      disk.LogAction(now, action, VInt(id), "admin", ip, VDict(map["title" := title]));
      assert Snapshot() == Apply(old(Snapshot()), step);
      return Redirect;
    }
  }
}
