# Helpdesk ticket store — a Dafny model

This project models the core of a small Flask helpdesk. In it, users file
tickets, and an administrator on the loopback address changes their status,
assigns them, comments on them and deletes them. Every state change is saved
to a JSON ticket file and recorded in an append-only JSON activity log.

The model has these parts:

- `PyValues` (values.dfy): the JSON values the application handles (`None`,
  booleans, integers, floats, strings, lists and dicts), and the Python
  string operations it uses: `strip`, `lower`, `in`, `str()` and
  `list(reversed(...))`. A Python exception caused by a value of the wrong
  type becomes `None` of an `Option`.
- `Records` (records.dfy): the helpers in app/routes.py. These are the
  loopback admin test, `normalize_ticket`, what `refresh_state` computes
  (the normalised list, the "changed" flag and `next_id`), `find_ticket`,
  `is_closed` and `short_text`.
- `Storage` (storage.dfy): app/storage.py. The two files, list-or-empty
  loading, `save_tickets`, and the entry `log_action` builds and appends.
  `Disk` is a class whose two file fields the save and log methods overwrite.
- `Listing` (listing.dfy): the `index` listing and the `my_work` listing.
  `index` sorts newest first and optionally filters by a search query.
  `my_work` shows the active tickets that are unassigned or assigned to the
  work user, newest first. The model includes Python's stable sort and
  filters whose tests may raise.
- `Handlers` (handlers.dfy): each route handler as a step on the in-memory
  list. A step says:
  - what the client gets;
  - what the list and `next_id` become;
  - whether the list is saved;
  - which log entries are appended.
  The module also holds the lemmas about each handler.
- `Server` (server.dfy): one whole request. `Serve` states it as a function:
  the `refresh_state` every handler starts with, then the handler, then the
  save and the log writes. The class `Helpdesk` holds the module globals
  `tickets` and `next_id` and does the same work step by step, with a loop
  for `refresh_state` and for `my_work`. Each of its methods is proved to end
  in the state `Serve` (or the matching handler step) gives.
- `TicketStoreModel` (ticket_store.dfy): the in-memory `TicketStore` of
  app/data.py. Its `Ticket` objects are shared by reference, and `close`
  updates their status in place.
- `FirstApp` (first_app.dfy): the earlier single-file application in
  app.py. It keeps a list of `{id, title, description}` records numbered by
  the list's length.

`next_id` is recomputed as the largest stored id plus one on every
request, so deleting the newest ticket hands its id out again
(`Server.IdReusedAfterDelete`). The default priority is "Lav", and the
statuses are "Åpen", "Pågår" and "Lukket"; the model uses these exact
strings.

## Model

| member | source | states |
|---|---|---|
| PyValues.FormOr | app/routes.py:162-164 | `form.get(k) or default` is the default, or else the submitted field, which is then non-empty |
| PyValues.TextOrEmpty | app/routes.py:78 | `(v or "")` before a string method: "" for every falsy value, the string itself for a string, and an exception exactly for a truthy non-string |
| PyValues.AsInt | app/routes.py:72 | the integer a stored id stands for in `t.get("id") == ticket_id`: an integer is itself, `True` is 1 and `False` is 0; no other value is taken as an integer (floats: see Left out) |
| PyValues.ReversedTwice | app/routes.py:346 | reversing the loaded log twice gives it back, so the activity page shows every entry |
| PyValues.ReversedSnoc | app/routes.py:346 | the entry appended last is shown first on the activity page, before the older entries |
| PyValues.StripSpec | app/routes.py:78 | `strip()` keeps a contiguous run of the input with no whitespace at either end, and gives "" exactly when the input is all whitespace |
| PyValues.StripIdempotent | app/routes.py:162-164 | stripping a stripped field changes nothing |
| PyValues.ContainsIff | app/routes.py:111-116 | the `q in text` search test holds exactly when `q` occurs in the text as a contiguous substring |
| Records.NormalizeTicketSpec | app/routes.py:30-41 | `normalize_ticket` (`NormalizeTicket`) adds every missing ticket key and only those. It keeps every present value except a non-list `comments`, and leaves the record normalised |
| Records.NormalizeTicketDefaults | app/routes.py:31-40 | the default of each missing key: id 0, "" for the texts, priority "Lav", status "Åpen", created_at the current time, comments []. A non-list `comments` becomes [] |
| Records.NormalizeKeepsNormalized | app/routes.py:30-41 | a record that already has all keys and a list of comments is left unchanged, whatever the clock says |
| Records.NormalizeIdempotent | app/routes.py:30-41 | normalising twice, even at a later time, gives the first result |
| Records.NormalizeChangesIff | app/routes.py:30-41 | `normalize_ticket` changes a record exactly when the record is not yet normalised |
| Records.NormalizeAllSpec | app/routes.py:54-59 | the refreshed list (`NormalizeAll`) has the loaded list's length and order. Every entry is normalised, and every loaded dict keeps every value except a non-list `comments`, which becomes []. A non-dict entry becomes a normalised `{}` |
| Records.ChangesIff | app/routes.py:56-61 | the `t != before` test fires exactly for entries that are not already normalised dicts |
| Records.MaxId | app/routes.py:64 | `max` of the ids is an upper bound attained by some id; the expression `max(...) + 1` raises exactly when some id is not an integer (the model reports that case as no maximum) |
| Records.NextId | app/routes.py:64 | `next_id` exceeds every id and is 1 for an empty list, otherwise the largest id plus one; it raises exactly when some id is not an integer |
| Records.FindTicket | app/routes.py:70-74 | `find_ticket` returns the first record whose id equals the requested one, and returns nothing exactly when no record has it |
| Records.FindFirst | app/routes.py:70-74 | the first record carrying the id is the one `find_ticket` returns |
| Records.IsClosed | app/routes.py:77-78 | closed exactly when the stripped status is "Lukket"; it raises exactly for a truthy non-string status |
| Records.ShortText | app/routes.py:81-83 | the preview is at most `n` characters and has no newline. It is the stripped one-line text when that fits; otherwise its first `n - 1` characters plus "…" |
| Storage.LoadList | app/storage.py:9-17 | a missing or unreadable file, or one that holds no list, loads as []; a list loads as its items (`load_log`, storage.py:25-33, is the same) |
| Storage.LoadSaved | app/storage.py:20-22 | loading what `save_tickets` wrote gives back the saved records in order |
| Storage.EntrySpec | app/storage.py:44-54 | the entry `log_action` builds (`Entry`) always has time, action, ticket_id and by. It has `ip` exactly when the address is non-empty, `details` exactly when they are a non-empty dict, and no other key |
| Storage.AppendEntriesSpec | app/storage.py:56-60 | the log only grows: after `log_action` has run once per entry (`AppendEntries`), the loaded log gains exactly the new entries at its end, and two batches append as one |
| Storage.Disk.SaveTickets | app/storage.py:20-22 | the ticket file afterwards holds the whole list |
| Storage.Disk.LogAction | app/storage.py:36-60 | the log file afterwards holds the previously loaded log plus the one new entry |
| Listing.SortDesc | app/routes.py:97 | `sorted(..., reverse=True)` gives a list with non-increasing keys that is a permutation of the input |
| Listing.SortIsStable | app/routes.py:97 | records with equal ids keep their relative order |
| Listing.SortByIdDesc | app/routes.py:146 | the `my_work` and `index` lists are ordered by id, newest first, and hold the same records |
| Listing.TryFilterSpec | app/routes.py:119 | a comprehension whose test may raise raises exactly when some test raises; otherwise it keeps each passing element as often as it occurs |
| Listing.TryFilterSnoc | app/routes.py:119 | the comprehension tests left to right and puts each passing element after those kept before it, so the kept elements are in their original order |
| Listing.TryFilterWithKey | app/routes.py:119 | among the elements with a given id, the filter keeps exactly the passing ones, in their original order |
| Listing.TryFilterSorted | app/routes.py:119 | filtering a sorted list leaves it sorted |
| Listing.MatchesSpec | app/routes.py:109-117 | `match(t)` (`Matches`): a ticket matches only when one of its five texts or its comment text contains the query. When the five fields are strings it matches exactly then; the test raises only on a non-string field |
| Listing.CommentsTextHas | app/routes.py:101-107 | `comments_text` (`CommentsText`) contains the lower-cased name and text of every dict comment, so a search for either finds the ticket |
| Listing.IndexListingSpec | app/routes.py:90-121 | the `index` list (`IndexListing`) is newest first. With no query it lists every ticket; otherwise it lists exactly the matching tickets, and it raises exactly when a match test raises. Tickets with the same id keep their order from the list, as the stable sort and the comprehension leave them |
| Listing.ActiveSpec | app/routes.py:137 | the active list (`Active`) holds exactly the tickets whose status is "Åpen" or "Pågår", each as often as it occurs |
| Listing.ActiveMembers | app/routes.py:137 | a record is active-listed exactly when it is in the list and active |
| Listing.ActiveWithKey | app/routes.py:137 | among the tickets with a given id, the active list holds the active ones in their original order |
| Listing.WorkListRaisesIff | app/routes.py:141-144 | the `my_work` loop raises exactly when an active ticket has a truthy non-string assignee |
| Listing.MyWorkListingSpec | app/routes.py:124-147 | the `my_work` list (`MyWorkListing`) holds exactly the active tickets that are unassigned or the work user's, newest first; it raises exactly when an active ticket has a truthy non-string assignee. Tickets with the same id keep their order from the list |
| Handlers.NewTicket | app/routes.py:169-178 | the new record has exactly the eight ticket keys with the given values, status "Åpen", no assignee and no comments, and is normalised |
| Handlers.FormTextSpec | app/routes.py:162-164 | a form field read with a default is the stripped default when the field is absent or empty, and the stripped field otherwise |
| Handlers.CreatePriority | app/routes.py:164-173 | the stored priority is "Lav" when the submitted field strips to "", and the stripped field otherwise |
| Handlers.CreateSpec | app/routes.py:156-191 | `create_ticket` (`Create`): a blank title gives 400 and changes nothing. Otherwise one normalised record with id `next_id` is appended, `next_id` goes up by one, and the list is saved. One entry is logged, by "user" |
| Handlers.CreateFreshId | app/routes.py:169-181 | after a refresh, the new id belongs to no earlier ticket, so `find_ticket` finds the new record under it; all ids stay integers |
| Handlers.AdminOnly | app/routes.py:20-27 | a client that is not on the loopback address (`IsAdmin` is false) gets 403 from every admin handler, and nothing changes |
| Handlers.ReadOnlyPages | app/routes.py:90-203 | `index`, `my_work` and `ticket` (`Index`, `MyWork`, `View`) change nothing. `index` shows its listing, or 500 exactly when a match test raises; `my_work` shows its listing to an admin, or 500 exactly when an assignee test raises; `ticket` shows the first ticket with the id, or 404 exactly when no ticket has it |
| Handlers.UnknownId | app/routes.py:198-200 | an id no ticket carries gives 404 and no change, in every handler that takes an id |
| Handlers.ClosedLock | app/routes.py:215-216 | on a closed ticket, status and assignee changes are refused with 400 and no change; comments and deletion still go through |
| Handlers.SetStatusRejectsUnknown | app/routes.py:218-220 | `set_status` (`SetStatus`): a status other than "Åpen", "Pågår" or "Lukket" is refused; nothing is saved or logged |
| Handlers.ChangeStatusOutcome | app/routes.py:222-248 | the status change (`ChangeStatus`) fails only on a truthy non-string assignee. Otherwise it saves and logs the change, after an auto-assignment entry exactly when the new status is "Pågår" and nobody is assigned |
| Handlers.ChangeStatusRecord | app/routes.py:222-238 | only the found record changes, and only under status and assignee. The status is the submitted one, even in memory after a failure. The assignee becomes "Julian" exactly when auto-assigning |
| Handlers.SetStatusReaches | app/routes.py:206-221 | a valid status on an open ticket, from an admin, goes through to the status change on the found record |
| Handlers.ChangeAssigneeSpec | app/routes.py:263-280 | the assignee change (`ChangeAssignee`): only the found record's assignee changes, to the submitted value, and one entry with the old and the new assignee is logged; a truthy non-string assignee gives 500 and no change (a falsy one counts as "") |
| Handlers.AssignEntrySpec | app/routes.py:270-279 | the assign entry records the old and the new assignee, the ticket id and "admin" |
| Handlers.AssignReaches | app/routes.py:251-262 | `assign` (`Assign`) from an admin on an open ticket goes through to the assignee change on the found record |
| Handlers.AddCommentSpec | app/routes.py:283-315 | `add_comment` (`AddComment`): a blank comment redirects without change. Otherwise exactly one `{time, name, text}` comment is appended after the existing ones, nothing else changes, and one entry is logged |
| Handlers.RemoveFirst | app/routes.py:329 | `list.remove` shortens the list by one when the record is present, and leaves it as it is otherwise |
| Handlers.RemoveFirstAt | app/routes.py:329 | `list.remove(x)` drops exactly the first element equal to `x` and keeps every other element in its order |
| Handlers.RemoveFound | app/routes.py:323-329 | removing the record `find_ticket` returned removes exactly that position, because no earlier record can equal it |
| Handlers.DeleteSpec | app/routes.py:318-339 | `delete_ticket` (`Delete`) removes exactly the found record and keeps the others in order. It saves, and logs the record's title |
| Handlers.CreateKeepsRefreshed | app/routes.py:180 | creating keeps every record normalised |
| Handlers.SetStatusKeepsRefreshed | app/routes.py:238 | `set_status` keeps every record normalised, so its `normalize_ticket` call changes nothing |
| Handlers.ChangeStatusKeepsRefreshed | app/routes.py:222-238 | the status change keeps every record normalised |
| Handlers.AssignKeepsRefreshed | app/routes.py:266-267 | `assign` keeps every record normalised |
| Handlers.AddCommentKeepsRefreshed | app/routes.py:292-305 | `add_comment` keeps every record normalised |
| Handlers.DeleteKeepsRefreshed | app/routes.py:329 | deletion keeps every record normalised |
| Handlers.DeleteUndoesCreate | app/routes.py:318-339 | deleting, by its id, the ticket just created gives back the list as it was |
| Server.Refreshing | app/routes.py:44-67 | `refresh_state` replaces the list with the normalised loaded list, which is all normalised, and does not touch the log. When every id is an integer, `next_id` becomes the largest id plus one (1 for an empty list) and the file is rewritten exactly when normalising changed an entry; when `max` raises, `next_id` and the file stay |
| Server.ServeSpec | app/routes.py:44-67 | for one whole request (`Serve`): the activity page (`Activity`, routes.py:342-347) changes nothing and shows the whole log newest first, to an admin only; a refresh that raises gives 500 and leaves both files; every request only appends to the log |
| Server.NormalizeLoaded | app/routes.py:54-61 | the refresh loop builds the normalised list and sets `changed` exactly when some entry needed normalising |
| Server.NormalizedLoad | app/routes.py:54-61 | reading back normalised records changes nothing and sets no flag |
| Server.RefreshStable | app/routes.py:44-67 | a refresh that succeeded can be repeated at any later time: it succeeds again, saves nothing and changes nothing |
| Server.RefreshAfterSave | app/routes.py:44-67 | the refresh after a handler saved reads the list back unchanged and saves nothing again; it fails exactly when some id is not an integer |
| Server.HandleKeepsRefreshed | app/routes.py:90-339 | every handler leaves the in-memory list normalised |
| Server.IdReusedAfterDelete | app/routes.py:64 | creating a ticket and deleting it in the next request makes the following refresh hand out its id again |
| Server.WorkFilter | app/routes.py:140-144 | the `my_work` loop keeps, in order, the active tickets that pass the assignee test; it raises as the comprehension would |
| Server.Helpdesk.constructor | app/routes.py:9-10 | importing the module sets `tickets = []` and `next_id = 1`, then runs the start-up refresh (routes.py:87). It requires that refresh to succeed: when it raises, the import in app/__init__.py fails and no application exists |
| Server.Helpdesk.RefreshState | app/routes.py:44-67 | the refresh method ends in the state `Refreshing` gives; it fails exactly when `next_id` cannot be computed |
| Server.Helpdesk.Route | app/routes.py:90-347 | every request ends with the outcome and state `Serve` gives. The activity page reads the log without a refresh; every other route refreshes first and then runs its handler |
| Server.Helpdesk.MyWork | app/routes.py:124-147 | the method's page is the `my_work` listing, or 403 or 500 as the handler says |
| Server.Helpdesk.CreateTicket | app/routes.py:156-167 | the create method ends as the `create_ticket` step says |
| Server.Helpdesk.WriteNew | app/routes.py:169-191 | appending, counting up, saving and logging end as the `create_ticket` step says |
| Server.Helpdesk.SetStatus | app/routes.py:206-221 | the status method ends as the `set_status` step says |
| Server.Helpdesk.WriteStatus | app/routes.py:222-248 | writing the status, auto-assigning, saving and logging end as the status-change step says |
| Server.Helpdesk.Assign | app/routes.py:251-280 | the assign method ends as the `assign` step says |
| Server.Helpdesk.AddComment | app/routes.py:283-315 | the comment method ends as the `add_comment` step says |
| Server.Helpdesk.DeleteTicket | app/routes.py:318-339 | the delete method ends as the `delete_ticket` step says |
| TicketStoreModel.Ticket.constructor | app/data.py:4-11 | a ticket carries exactly the fields it was built with |
| TicketStoreModel.FirstWithId | app/data.py:33-34 | the generator finds the first ticket with the id, and finds nothing exactly when no ticket has it |
| TicketStoreModel.FirstIsIndex | app/data.py:33-34 | the first position carrying the id is the one found |
| TicketStoreModel.FirstWithIdUnique | app/data.py:33-34 | with increasing ids, any ticket carrying the id is the one found |
| TicketStoreModel.AddedIsFound | app/data.py:21-34 | after `add`, `get` with the new id finds the new ticket, and every other id finds what it found before |
| TicketStoreModel.NewestFirst | app/data.py:18-19 | the reversed list has strictly decreasing ids |
| TicketStoreModel.TicketStore.constructor | app/data.py:14-16 | the store starts empty with counter 1 and satisfies its invariant |
| TicketStoreModel.TicketStore.All | app/data.py:18-19 | `all` returns the tickets newest first, with strictly decreasing ids, and changes nothing |
| TicketStoreModel.TicketStore.Add | app/data.py:21-31 | `add` appends one fresh open ticket carrying the counter and the given fields, advances the counter and keeps the ids increasing |
| TicketStoreModel.TicketStore.Get | app/data.py:33-34 | `get` returns the first ticket with the id, or null when there is none |
| TicketStoreModel.TicketStore.Close | app/data.py:36-39 | `close` sets "Lukket" on exactly the ticket `get` finds. No other ticket's status, the list or the counter changes |
| FirstApp.FindRecord | app.py:35 | the lookup returns a ticket of the list with the id, and nothing exactly when no ticket has it |
| FirstApp.FindNumbered | app.py:25-35 | with ids numbered by position, id `k` finds the `k`-th ticket, and ids outside 1..len find nothing |
| FirstApp.FindAt | app.py:35 | the first position carrying the id is the one found |
| FirstApp.CreatedIsFound | app.py:25-35 | appending with id `len + 1` keeps the numbering, and the new ticket is found under that id |
| FirstApp.App.constructor | app.py:7 | the list starts empty, so it is numbered |
| FirstApp.App.CreateTicket | app.py:14-29 | GET shows the form and changes nothing. A POST missing a field gets 400 and changes nothing. Otherwise one ticket numbered `len + 1` is appended and the client is redirected; the ticket at position `i` keeps id `i + 1` |
| FirstApp.App.ViewTicket | app.py:31-36 | the detail page shows the first ticket with the id, or no ticket |

## Left out

- Flask itself is not modelled: routing, templates, `url_for` and the
  400/403 error pages (routes.py:350-359). A rendered page is an `Outcome`
  value; `abort` and the 404 text are the error outcomes.
- The JSON text, its encoding and indentation are not modelled. A file is
  what parsing it yields (`Storage.FileContent`).
- The clock is the parameter `now`, the already formatted time. The client
  address is the parameter `ip`, "" when Flask has none.
- Concurrency is not modelled: requests are served one after another.
- The record the handlers change is updated in place through the reference
  `find_ticket` returned. The model writes it as a new value at the found
  index (`ts[i := ...]`). No other reference to it outlives the request, so
  the effect is the same.
- The `save_if_changed=False` path of `refresh_state` is not modelled, because
  every caller passes `True`.
- The `normalize_ticket` calls inside the handlers (routes.py:96, 135, 180,
  202, 238, 267, 292) are not modelled as steps. They change nothing, because
  the list is normalised after every refresh and every handler
  (`Server.HandleKeepsRefreshed`, `Records.NormalizeKeepsNormalized`).
- `if not t` after `find_ticket` treats an empty dict as missing. After a
  refresh no record is empty, so the model tests only whether a record was
  found.
- Records.NextId: a float id makes the model report a failure (500), whereas
  Python would compute a float `next_id`. Float values are kept only as their
  printed text.
- PyValues.AsInt: a float is never taken as an integer, so `find_ticket`
  never matches a float id, whereas Python's `2.0 == 2` holds. After a
  successful refresh every id is an integer, so this only matters where the
  refresh already reports a failure.
- PyValues.PyStr: `str()` of a list or a dict is not modelled and gives "".
  It is used only in log texts and in the comment search text.
- PyValues.Lower: `lower()` covers ASCII and Latin-1 capitals only, not the
  rest of Unicode.
- Records.ShortText: requires `n >= 1`, because `short_text` is only called
  with its default of 60. The slice `s[:n - 1]` with `n = 0` is not modelled.
- Handlers.RemoveFirst: the `ValueError` that `list.remove` raises for a
  missing record is not modelled, because `delete_ticket` removes a record it
  has just found.
- The `index` route of app.py (lines 9-12) only renders the list and is not
  modelled. Other HTTP methods on its `/create` route are refused by Flask
  (405) and are not modelled either.
- In app/data.py every `Ticket` field could be reassigned. Only `status` is
  ever assigned, so the other fields are constants.
- TicketStoreModel.TicketStore.Close: idempotence is not stated as a lemma of
  its own. It follows from the postcondition, because a second call writes
  "Lukket" onto the ticket that already has it.
