/** The two JSON files of app/storage.py: the ticket list and the append-only
    activity log. A file is modelled by what reading and parsing it yields; the
    JSON text itself is not modelled. */
module Storage {
  import opened PyValues

  /** What `load_tickets`/`load_log` find on disk: no file, a file that cannot
      be read or parsed, or the parsed value. */
  datatype FileContent = Missing | Unreadable | Parsed(value: Value)

  /** `load_tickets` and `load_log`: the parsed list, or [] when the file is
      missing, unreadable, or holds something other than a list. */
  function LoadList(f: FileContent): (r: seq<Value>)
    ensures f.Parsed? && f.value.VList? ==> r == f.value.items
    ensures !(f.Parsed? && f.value.VList?) ==> r == []
  {
    if f.Parsed? && f.value.VList? then f.value.items else []
  }

  /** Each dict as a JSON object. */
  function Dicts(ts: seq<Dict>): (r: seq<Value>)
    ensures |r| == |ts|
    ensures forall i :: 0 <= i < |ts| ==> r[i] == VDict(ts[i])
  {
    seq(|ts|, i requires 0 <= i < |ts| => VDict(ts[i]))
  }

  /** The content `save_tickets` leaves in the ticket file. */
  function Saved(ts: seq<Dict>): FileContent
  {
    Parsed(VList(Dicts(ts)))
  }

  /** Loading what was saved gives back the saved records, in order. */
  lemma LoadSaved(ts: seq<Dict>)
    ensures |LoadList(Saved(ts))| == |ts|
    ensures forall i :: 0 <= i < |ts| ==> LoadList(Saved(ts))[i] == VDict(ts[i])
  {
  }

  /** The keys a log entry can have. */
  const LogKeys: set<string> := {"time", "action", "ticket_id", "by", "ip", "details"}

  /** The entry `log_action` builds. */
  function Entry(time: string, action: string, ticketId: Value, actor: string, ip: string, details: Value): Dict
  {
    var base := map["time" := VStr(time), "action" := VStr(action), "ticket_id" := ticketId, "by" := VStr(actor)];
    var withIp := if ip != "" then base["ip" := VStr(ip)] else base;
    if details.VDict? && details.fields != map[] then withIp["details" := details] else withIp
  }

  /** Every entry has `time`, `action`, `ticket_id` and `by` with the given
      values; `ip` exactly when the address is non-empty; `details` exactly
      when they are a non-empty dict; and no other key. */
  lemma EntrySpec(time: string, action: string, ticketId: Value, actor: string, ip: string, details: Value)
    ensures var e := Entry(time, action, ticketId, actor, ip, details);
      && e.Keys <= LogKeys
      && "time" in e && e["time"] == VStr(time)
      && "action" in e && e["action"] == VStr(action)
      && "ticket_id" in e && e["ticket_id"] == ticketId
      && "by" in e && e["by"] == VStr(actor)
      && ("ip" in e <==> ip != "")
      && ("ip" in e ==> e["ip"] == VStr(ip))
      && ("details" in e <==> details.VDict? && details.fields != map[])
      && ("details" in e ==> e["details"] == details)
  {
  }

  /** The log file after `log_action` has appended `es`, one call per entry:
      each call reloads the list (or [] if the file is not a list) and
      rewrites the file with one more entry. */
  function AppendEntries(f: FileContent, es: seq<Dict>): FileContent
  {
    if es == [] then f else Parsed(VList(LoadList(f) + Dicts(es)))
  }

  /** Appending is append-only: the loaded log grows by exactly the new
      entries at its end, and two batches append as one. */
  lemma {:induction false} AppendEntriesSpec(f: FileContent, es: seq<Dict>, more: seq<Dict>)
    ensures LoadList(AppendEntries(f, es)) == LoadList(f) + Dicts(es)
    ensures AppendEntries(AppendEntries(f, es), more) == AppendEntries(f, es + more)
  {
    assert Dicts([]) == [];
    assert Dicts(es + more) == Dicts(es) + Dicts(more);
    if es == [] {
      assert es + more == more;
      assert LoadList(f) + Dicts(es) == LoadList(f);
    } else if more == [] {
      assert es + more == es;
    } else {
      assert LoadList(f) + Dicts(es) + Dicts(more) == LoadList(f) + Dicts(es + more);
    }
  }

  /** The two files the application writes. */
  class Disk {
    var ticketsFile: FileContent
    var logFile: FileContent

    constructor (tickets: FileContent, log: FileContent)
      ensures ticketsFile == tickets && logFile == log
    {
      ticketsFile := tickets;
      logFile := log;
    }

    /** `save_tickets`: overwrite the ticket file with the whole list. */
    method SaveTickets(ts: seq<Dict>)
      modifies this`ticketsFile
      ensures ticketsFile == Saved(ts)
    {
      ticketsFile := Parsed(VList(Dicts(ts)));
    }

    /** `log_action`: build the entry, reload the log, append, rewrite. */
    method LogAction(time: string, action: string, ticketId: Value, actor: string, ip: string, details: Value)
      modifies this`logFile
      ensures logFile == AppendEntries(old(logFile), [Entry(time, action, ticketId, actor, ip, details)])
    {
      var entry := map["time" := VStr(time), "action" := VStr(action), "ticket_id" := ticketId, "by" := VStr(actor)];
      if ip != "" {
        entry := entry["ip" := VStr(ip)];
      }
      if details.VDict? && details.fields != map[] {
        entry := entry["details" := details];
      }
      var log := LoadList(logFile);
      log := log + [VDict(entry)];
      logFile := Parsed(VList(log));
      assert entry == Entry(time, action, ticketId, actor, ip, details);
      assert Dicts([entry]) == [VDict(entry)];
    }
  }
}
