/** The ticket-record helpers of app/routes.py: the admin gate, default
    filling (`normalize_ticket`), what `refresh_state` computes from the loaded
    list, lookup by id, the closed check and `short_text`. A ticket is a dict
    of JSON values, as in the source. */
module Records {
  import opened PyValues

  const Open: string := "Åpen"
  const InProgress: string := "Pågår"
  const Closed: string := "Lukket"

  /** `WORK_USER_NAME`: the owner a ticket is auto-assigned to. */
  const WorkUserName: string := "Julian"

  /** `is_admin()`: the client address (`request.remote_addr or ""`) is a
      loopback address. */
  predicate IsAdmin(clientIp: string)
  {
    clientIp == "127.0.0.1" || clientIp == "::1"
  }

  /** The keys `normalize_ticket` guarantees. */
  const TicketKeys: set<string> :=
    {"id", "title", "description", "priority", "status", "created_at", "assignee", "comments"}

  /** The default `normalize_ticket` gives an absent key; `now` is the
      formatted current time. */
  function Default(k: string, now: string): Value
  {
    if k == "id" then VInt(0)
    else if k == "priority" then VStr("Lav")
    else if k == "status" then VStr(Open)
    else if k == "created_at" then VStr(now)
    else if k == "comments" then VList([])
    else VStr("")
  }

  /** A record in the shape `normalize_ticket` leaves it. */
  predicate Normalized(t: Dict)
  {
    TicketKeys <= t.Keys && t["comments"].VList?
  }

  /** What `normalize_ticket` leaves under key `k`: a present value is kept
      (`setdefault` does not overwrite), an absent key gets its default, and
      then a `comments` value that is not a list becomes []. */
  function Field(t: Dict, k: string, now: string): Value
  {
    if k == "comments" && k in t && !t[k].VList? then VList([])
    else if k in t then t[k]
    else Default(k, now)
  }

  /** `normalize_ticket`: the eight `setdefault` calls and the `comments`
      repair, stated key by key. */
  function NormalizeTicket(t: Dict, now: string): Dict
  {
    map k | k in t.Keys + TicketKeys :: Field(t, k, now)
  }

  /** `normalize_ticket` only adds keys, adds every ticket key, and keeps
      every present value except a `comments` value that is not a list. */
  lemma NormalizeTicketSpec(t: Dict, now: string)
    ensures var r := NormalizeTicket(t, now);
      && Normalized(r)
      && r.Keys == t.Keys + TicketKeys
      && forall k :: k in t && k != "comments" ==> r[k] == t[k]
  {
  }

  /** The values `normalize_ticket` gives: `comments` is kept when it is a
      list and replaced by [] otherwise, and each absent key gets its default
      (id 0, title "", description "", priority "Lav", status "Åpen",
      created_at now, assignee "", comments []). */
  lemma NormalizeTicketDefaults(t: Dict, now: string)
    ensures "comments" in t && t["comments"].VList? ==> NormalizeTicket(t, now)["comments"] == t["comments"]
    ensures "comments" in t && !t["comments"].VList? ==> NormalizeTicket(t, now)["comments"] == VList([])
    ensures "id" !in t ==> NormalizeTicket(t, now)["id"] == VInt(0)
    ensures "title" !in t ==> NormalizeTicket(t, now)["title"] == VStr("")
    ensures "description" !in t ==> NormalizeTicket(t, now)["description"] == VStr("")
    ensures "priority" !in t ==> NormalizeTicket(t, now)["priority"] == VStr("Lav")
    ensures "status" !in t ==> NormalizeTicket(t, now)["status"] == VStr(Open)
    ensures "created_at" !in t ==> NormalizeTicket(t, now)["created_at"] == VStr(now)
    ensures "assignee" !in t ==> NormalizeTicket(t, now)["assignee"] == VStr("")
    ensures "comments" !in t ==> NormalizeTicket(t, now)["comments"] == VList([])
  {
  }

  /** A normalised record is left as it is, whatever the clock says. */
  lemma NormalizeKeepsNormalized(t: Dict, now: string)
    requires Normalized(t)
    ensures NormalizeTicket(t, now) == t
  {
    var r := NormalizeTicket(t, now);
    NormalizeTicketSpec(t, now);
    assert r.Keys == t.Keys;
  }

  /** `normalize_ticket` is idempotent, even when called at a later time. */
  lemma NormalizeIdempotent(t: Dict, now: string, later: string)
    ensures NormalizeTicket(NormalizeTicket(t, now), later) == NormalizeTicket(t, now)
  {
    NormalizeTicketSpec(t, now);
    NormalizeKeepsNormalized(NormalizeTicket(t, now), later);
  }

  /** `normalize_ticket` changes a record exactly when it is not yet normalised. */
  lemma NormalizeChangesIff(t: Dict, now: string)
    ensures NormalizeTicket(t, now) == t <==> Normalized(t)
  {
    if Normalized(t) {
      NormalizeKeepsNormalized(t, now);
    }
  }

  /** A loaded list entry as `refresh_state` treats it: a dict stays that dict,
      anything else becomes `{}`. */
  function AsRecord(v: Value): Dict
  {
    if v.VDict? then v.fields else map[]
  }

  /** The list `refresh_state` builds from the loaded one. */
  function NormalizeAll(loaded: seq<Value>, now: string): (r: seq<Dict>)
    ensures |r| == |loaded|
    ensures forall i :: 0 <= i < |loaded| ==> r[i] == NormalizeTicket(AsRecord(loaded[i]), now)
  {
    seq(|loaded|, i requires 0 <= i < |loaded| => NormalizeTicket(AsRecord(loaded[i]), now))
  }

  /** `refresh_state` keeps the length and the order of the loaded list, keeps
      every value a loaded dict already had, and puts a normalised empty
      record where the entry was not a dict. */
  lemma NormalizeAllSpec(loaded: seq<Value>, now: string)
    ensures |NormalizeAll(loaded, now)| == |loaded|
    ensures forall i :: 0 <= i < |loaded| ==> Normalized(NormalizeAll(loaded, now)[i])
    ensures forall i, k :: 0 <= i < |loaded| && loaded[i].VDict? && k in loaded[i].fields && k != "comments" ==>
      k in NormalizeAll(loaded, now)[i] && NormalizeAll(loaded, now)[i][k] == loaded[i].fields[k]
    ensures forall i :: 0 <= i < |loaded| && !loaded[i].VDict? ==>
      NormalizeAll(loaded, now)[i] == NormalizeTicket(map[], now)
  {
    forall i | 0 <= i < |loaded|
      ensures Normalized(NormalizeAll(loaded, now)[i])
      ensures loaded[i].VDict? ==> forall k :: k in loaded[i].fields && k != "comments" ==>
        k in NormalizeAll(loaded, now)[i] && NormalizeAll(loaded, now)[i][k] == loaded[i].fields[k]
    {
      NormalizeTicketSpec(AsRecord(loaded[i]), now);
    }
  }

  /** A loaded entry that `refresh_state` has to change: anything but an
      already normalised dict. */
  predicate NeedsNormalizing(v: Value)
  {
    !(v.VDict? && Normalized(v.fields))
  }

  /** The `t != before` test of `refresh_state` holds exactly for the entries
      that need normalising, whatever the clock says. */
  lemma ChangesIff(v: Value, now: string)
    ensures NormalizeTicket(AsRecord(v), now) != AsRecord(v) <==> NeedsNormalizing(v)
  {
    NormalizeChangesIff(AsRecord(v), now);
    if !v.VDict? {
      assert !Normalized(AsRecord(v)) by {
        assert "id" !in AsRecord(v);
      }
    }
  }

  /** The `changed` flag of `refresh_state`. */
  predicate AnyChanged(loaded: seq<Value>)
  {
    exists j :: 0 <= j < |loaded| && NeedsNormalizing(loaded[j])
  }

  /** `t.get("id", 0)` */
  function IdOf(t: Dict): Value
  {
    Get(t, "id", VInt(0))
  }

  /** Every id is an integer (or a bool), so `max` and `+ 1` succeed. */
  predicate IntIds(ts: seq<Dict>)
  {
    forall i :: 0 <= i < |ts| ==> AsInt(IdOf(ts[i])).Some?
  }

  /** `max` of the ids of a non-empty list: `None` when some id is not an
      integer, so that `max(...) + 1` raises (in `max` itself when the ids
      cannot be compared, otherwise in the `+ 1`). */
  function MaxId(ts: seq<Dict>): (r: Option<int>)
    requires ts != []
    ensures r.Some? <==> IntIds(ts)
    ensures r.Some? ==> forall i :: 0 <= i < |ts| ==> AsInt(IdOf(ts[i])).value <= r.value
    ensures r.Some? ==> exists i :: 0 <= i < |ts| && AsInt(IdOf(ts[i])).value == r.value
    decreases |ts|
  {
    var k := AsInt(IdOf(ts[0]));
    if |ts| == 1 then k
    else
      var m := MaxId(ts[1..]);
      if k.None? || m.None? then None
      else Some(if k.value >= m.value then k.value else m.value)
  }

  /** `next_id` as `refresh_state` derives it: the largest id plus one, or 1
      for an empty list; `None` when Python raises on a non-integer id. */
  function NextId(ts: seq<Dict>): (r: Option<int>)
    ensures r.Some? <==> IntIds(ts)
    ensures ts == [] ==> r == Some(1)
    ensures r.Some? ==> forall i :: 0 <= i < |ts| ==> AsInt(IdOf(ts[i])).value < r.value
    ensures r.Some? && ts != [] ==> exists i :: 0 <= i < |ts| && AsInt(IdOf(ts[i])).value + 1 == r.value
  {
    if ts == [] then Some(1)
    else
      var m := MaxId(ts);
      if m.Some? then Some(m.value + 1) else None
  }

  /** `t.get("id") == ticket_id` */
  predicate HasId(t: Dict, id: int)
  {
    "id" in t && AsInt(t["id"]) == Some(id)
  }

  /** `find_ticket`: the index of the first ticket with that id, or `None`
      when no ticket has it. */
  function FindTicket(ts: seq<Dict>, id: int): (r: Option<nat>)
    ensures r.Some? ==> r.value < |ts| && HasId(ts[r.value], id)
    ensures r.Some? ==> forall j :: 0 <= j < r.value ==> !HasId(ts[j], id)
    ensures r.None? <==> forall j :: 0 <= j < |ts| ==> !HasId(ts[j], id)
    decreases |ts|
  {
    if ts == [] then None
    else if HasId(ts[0], id) then Some(0)
    else
      match FindTicket(ts[1..], id)
      case None => None
      case Some(j) => Some(j + 1)
  }

  /** The first ticket carrying the id is the one `find_ticket` finds. */
  lemma FindFirst(ts: seq<Dict>, id: int, i: nat)
    requires i < |ts| && HasId(ts[i], id)
    requires forall j :: 0 <= j < i ==> !HasId(ts[j], id)
    ensures FindTicket(ts, id) == Some(i)
  {
  }

  /** `is_closed`: the stripped status is "Lukket"; `None` when Python raises
      because the status is a truthy non-string. */
  function IsClosed(t: Dict): (r: Option<bool>)
    ensures r.None? <==> "status" in t && Truthy(t["status"]) && !t["status"].VStr?
    ensures r == Some(true) <==> "status" in t && t["status"].VStr? && Strip(t["status"].s) == Closed
  {
    match TextOrEmpty(Get(t, "status", VNone))
    case None => None
    case Some(s) => Some(Strip(s) == Closed)
  }

  const Ellipsis: char := '…'

  /** `s.replace("\n", " ")` */
  function ReplaceNewlines(s: string): (r: string)
    ensures |r| == |s|
    ensures forall i :: 0 <= i < |s| ==> r[i] == if s[i] == '\n' then ' ' else s[i]
  {
    seq(|s|, i requires 0 <= i < |s| => if s[i] == '\n' then ' ' else s[i])
  }

  /** `short_text(s, n)`: the stripped one-line text, cut to `n - 1`
      characters plus an ellipsis when it is longer than `n`. */
  function ShortText(s: string, n: nat): (r: string)
    requires n >= 1
    ensures |r| <= n
    ensures '\n' !in r
    ensures |Strip(s)| <= n ==> r == ReplaceNewlines(Strip(s))
    ensures |Strip(s)| > n ==> |r| == n && r[..n - 1] == ReplaceNewlines(Strip(s))[..n - 1] && r[n - 1] == Ellipsis
  {
    var c := ReplaceNewlines(Strip(s));
    if |c| > n then c[..n - 1] + [Ellipsis] else c
  }
}
