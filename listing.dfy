/** The two listings of app/routes.py: `index` (newest first, optionally
    narrowed by a search query) and `my_work` (the active tickets that are
    unassigned or assigned to the work user, newest first). */
module Listing {
  import opened PyValues
  import opened Records

  /** The sort key `x.get("id", 0)`. Once `refresh_state` has succeeded every
      id is an integer (`Records.NextId`), so the fallback 0 is never used. */
  function SortKey(t: Dict): int
  {
    match AsInt(IdOf(t))
    case Some(k) => k
    case None => 0
  }

  /** Keys never increase from left to right. */
  predicate SortedDesc<T>(s: seq<T>, key: T -> int)
  {
    forall i, j :: 0 <= i < j < |s| ==> key(s[i]) >= key(s[j])
  }

  /** Put `t` in front of the first element whose key is not larger, so that
      it precedes the elements with its own key. */
  function InsertDesc<T(==)>(t: T, s: seq<T>, key: T -> int): (r: seq<T>)
    requires SortedDesc(s, key)
    ensures SortedDesc(r, key)
    ensures multiset(r) == multiset(s) + multiset{t}
    decreases |s|
  {
    if s == [] || key(s[0]) <= key(t) then [t] + s
    else
      var rest := InsertDesc(t, s[1..], key);
      HeadBounds(s[0], rest, s[1..] + [t], key);
      assert s == [s[0]] + s[1..];
      [s[0]] + rest
  }

  /** A sorted list stays sorted under a new head whose key bounds every
      element of a permutation of `pool`. */
  lemma HeadBounds<T>(h: T, rest: seq<T>, pool: seq<T>, key: T -> int)
    requires SortedDesc(rest, key)
    requires multiset(rest) == multiset(pool)
    requires forall i :: 0 <= i < |pool| ==> key(pool[i]) <= key(h)
    ensures SortedDesc([h] + rest, key)
  {
    forall j | 0 <= j < |rest| ensures key(rest[j]) <= key(h) {
      assert rest[j] in multiset(pool);
      var i :| 0 <= i < |pool| && pool[i] == rest[j];
    }
  }

  /** `sorted(s, key=key, reverse=True)`: Python's sort is stable, also in
      reverse. */
  function SortDesc<T(==)>(s: seq<T>, key: T -> int): (r: seq<T>)
    ensures SortedDesc(r, key)
    ensures multiset(r) == multiset(s)
    decreases |s|
  {
    if s == [] then []
    else
      assert s == [s[0]] + s[1..];
      InsertDesc(s[0], SortDesc(s[1..], key), key)
  }

  /** The elements of `s` whose key is `k`, in their order in `s`. */
  function WithKey<T>(s: seq<T>, key: T -> int, k: int): seq<T>
    decreases |s|
  {
    if s == [] then []
    else (if key(s[0]) == k then [s[0]] else []) + WithKey(s[1..], key, k)
  }

  /** `WithKey` of a list with a new head. */
  lemma WithKeyCons<T>(x: T, s: seq<T>, key: T -> int, k: int)
    ensures WithKey([x] + s, key, k) == (if key(x) == k then [x] else []) + WithKey(s, key, k)
  {
    assert ([x] + s)[1..] == s;
  }

  /** Inserting `t` puts it in front of the elements with its own key. */
  lemma {:induction false} InsertWithKey<T>(t: T, s: seq<T>, key: T -> int, k: int)
    requires SortedDesc(s, key)
    ensures WithKey(InsertDesc(t, s, key), key, k) == (if key(t) == k then [t] else []) + WithKey(s, key, k)
    decreases |s|
  {
    if s == [] || key(s[0]) <= key(t) {
      WithKeyCons(t, s, key, k);
    } else {
      var rest := InsertDesc(t, s[1..], key);
      var tail := WithKey(s[1..], key, k);
      assert InsertDesc(t, s, key) == [s[0]] + rest;
      assert [s[0]] + s[1..] == s;
      InsertWithKey(t, s[1..], key, k);
      WithKeyCons(s[0], rest, key, k);
      WithKeyCons(s[0], s[1..], key, k);
      if key(s[0]) == k {
        assert WithKey(rest, key, k) == [] + tail == tail;
        assert WithKey(s, key, k) == [s[0]] + tail;
      } else {
        assert WithKey([s[0]] + rest, key, k) == [] + WithKey(rest, key, k) == WithKey(rest, key, k);
        assert WithKey(s, key, k) == [] + tail == tail;
      }
    }
  }

  /** The sort is stable: elements with the same key keep their relative
      order. */
  lemma {:induction false} SortIsStable<T>(s: seq<T>, key: T -> int, k: int)
    ensures WithKey(SortDesc(s, key), key, k) == WithKey(s, key, k)
    decreases |s|
  {
    if s != [] {
      SortIsStable(s[1..], key, k);
      InsertWithKey(s[0], SortDesc(s[1..], key), key, k);
    }
  }

  /** The `index` and `my_work` sort: newest (highest id) first. */
  function SortByIdDesc(ts: seq<Dict>): (r: seq<Dict>)
    ensures SortedDesc(r, SortKey)
    ensures multiset(r) == multiset(ts)
  {
    SortDesc(ts, SortKey)
  }

  /** `[t for t in s if p(t)]` where evaluating `p` may raise (`None`): the
      comprehension raises when any test raises. */
  function TryFilter<T>(s: seq<T>, p: T -> Option<bool>): Option<seq<T>>
    decreases |s|
  {
    if s == [] then Some([])
    else
      match p(s[0])
      case None => None
      case Some(keep) =>
        match TryFilter(s[1..], p)
        case None => None
        case Some(rest) => Some(if keep then [s[0]] + rest else rest)
  }

  /** The filter raises exactly when some test raises; otherwise it keeps
      each element that passes, as often as it occurs. */
  lemma {:induction false} TryFilterSpec<T(!new)>(s: seq<T>, p: T -> Option<bool>)
    ensures TryFilter(s, p).Some? <==> forall i :: 0 <= i < |s| ==> p(s[i]).Some?
    ensures TryFilter(s, p).Some? ==>
      forall x :: multiset(TryFilter(s, p).value)[x] == (if p(x) == Some(true) then multiset(s)[x] else 0)
    decreases |s|
  {
    if s != [] {
      TryFilterSpec(s[1..], p);
      assert s == [s[0]] + s[1..];
      if TryFilter(s, p).None? && p(s[0]).Some? {
        var i :| 0 <= i < |s[1..]| && p(s[1..][i]).None?;
        assert s[i + 1] == s[1..][i];
      }
      if forall i :: 0 <= i < |s| ==> p(s[i]).Some? {
        assert p(s[0]).Some?;
        forall i | 0 <= i < |s[1..]| ensures p(s[1..][i]).Some? {
          assert s[1..][i] == s[i + 1];
        }
      }
    }
  }

  /** Filtering one element more: the test of the new element runs after
      all earlier tests. */
  lemma {:induction false} TryFilterSnoc<T(!new)>(s: seq<T>, x: T, p: T -> Option<bool>)
    ensures TryFilter(s + [x], p) ==
      if TryFilter(s, p).None? || p(x).None? then None
      else Some(TryFilter(s, p).value + (if p(x).value then [x] else []))
    decreases |s|
  {
    if s == [] {
      assert s + [x] == [x];
      assert [x][1..] == s;
      assert TryFilter(s, p) == Some([]);
      match p(x) {
        case None =>
        case Some(keep) =>
          assert TryFilter([x], p) == Some(if keep then [x] + [] else []);
          assert [] + (if keep then [x] else []) == (if keep then [x] + [] else []);
      }
    } else {
      assert (s + [x])[0] == s[0];
      assert (s + [x])[1..] == s[1..] + [x];
      TryFilterSnoc(s[1..], x, p);
      if p(s[0]).Some? && TryFilter(s[1..], p).Some? && p(x).Some? {
        var rest := TryFilter(s[1..], p).value;
        var e := if p(x).value then [x] else [];
        assert [s[0]] + (rest + e) == ([s[0]] + rest) + e;
      }
    }
  }

  /** One more step of a filtering loop over a prefix of `s`. */
  lemma TryFilterPrefix<T(!new)>(s: seq<T>, j: nat, p: T -> Option<bool>)
    requires j < |s|
    ensures TryFilter(s[..j + 1], p) ==
      if TryFilter(s[..j], p).None? || p(s[j]).None? then None
      else Some(TryFilter(s[..j], p).value + (if p(s[j]).value then [s[j]] else []))
  {
    assert s[..j + 1] == s[..j] + [s[j]];
    TryFilterSnoc(s[..j], s[j], p);
  }

  /** The filter keeps the order: among the elements with key `k`, it keeps
      exactly the passing ones, in their original order. */
  lemma {:induction false} TryFilterWithKey<T>(s: seq<T>, p: T -> Option<bool>, key: T -> int, k: int)
    requires TryFilter(s, p).Some?
    ensures TryFilter(WithKey(s, key, k), p) == Some(WithKey(TryFilter(s, p).value, key, k))
    decreases |s|
  {
    if s != [] {
      var x := s[0];
      var rest := TryFilter(s[1..], p).value;
      var w := WithKey(s[1..], key, k);
      TryFilterWithKey(s[1..], p, key, k);
      WithKeyCons(x, rest, key, k);
      assert TryFilter(s, p).value == if p(x).value then [x] + rest else rest;
      if key(x) == k {
        assert WithKey(s, key, k) == [x] + w;
        assert ([x] + w)[0] == x && ([x] + w)[1..] == w;
        if !p(x).value {
          assert WithKey(TryFilter(s, p).value, key, k) == WithKey(rest, key, k);
        }
      } else {
        assert WithKey(s, key, k) == [] + w == w;
        if p(x).value {
          assert WithKey([x] + rest, key, k) == [] + WithKey(rest, key, k) == WithKey(rest, key, k);
        }
      }
    }
  }

  /** When the test raises on one element, the whole filter raises. */
  lemma TryFilterRaises<T(!new)>(s: seq<T>, j: nat, p: T -> Option<bool>)
    requires j < |s| && p(s[j]).None?
    ensures TryFilter(s, p).None?
  {
    TryFilterSpec(s, p);
  }

  /** Filtering keeps the order: the result of a sorted list is sorted. */
  lemma {:induction false} TryFilterSorted<T(!new)>(s: seq<T>, p: T -> Option<bool>, key: T -> int)
    requires SortedDesc(s, key)
    requires TryFilter(s, p).Some?
    ensures SortedDesc(TryFilter(s, p).value, key)
    decreases |s|
  {
    if s != [] {
      TryFilterSorted(s[1..], p, key);
      TryFilterSpec(s[1..], p);
      var rest := TryFilter(s[1..], p).value;
      forall x | x in rest ensures key(s[0]) >= key(x) {
        assert x in multiset(rest);
        assert x in multiset(s[1..]);
        var j :| 0 <= j < |s[1..]| && s[1..][j] == x;
        assert s[j + 1] == x;
      }
    }
  }

  /** The search query: `(request.args.get("q") or "").strip().lower()`. */
  function Query(args: Form): string
  {
    Lower(Strip(FormOr(args, "q", "")))
  }

  /** `q in (t.get(k, "").lower())`; `None` when the value is not a string
      and so has no `lower`. */
  function FieldHas(q: string, t: Dict, k: string): Option<bool>
  {
    var v := Get(t, k, VStr(""));
    if v.VStr? then Some(Contains(q, Lower(v.s))) else None
  }

  /** The comment list; a normalised ticket always has a list here. */
  function CommentList(t: Dict): seq<Value>
  {
    var c := Get(t, "comments", VNone);
    if c.VList? then c.items else []
  }

  /** The `parts` of `comments_text`: name and text of every dict comment. */
  function CommentParts(cs: seq<Value>): seq<string>
    decreases |cs|
  {
    if cs == [] then []
    else
      (if cs[0].VDict? then
         [PyStr(Get(cs[0].fields, "name", VStr(""))), PyStr(Get(cs[0].fields, "text", VStr("")))]
       else [])
      + CommentParts(cs[1..])
  }

  /** `" ".join(parts)` */
  function Join(parts: seq<string>): string
    decreases |parts|
  {
    if parts == [] then ""
    else if |parts| == 1 then parts[0]
    else parts[0] + " " + Join(parts[1..])
  }

  /** `comments_text(t)` */
  function CommentsText(t: Dict): string
  {
    Lower(Join(CommentParts(CommentList(t))))
  }

  /** Every part occurs in the joined text. */
  lemma {:induction false} JoinHasPart(parts: seq<string>, j: nat)
    requires j < |parts|
    ensures exists i :: OccursAt(parts[j], Join(parts), i)
    decreases |parts|
  {
    var s := Join(parts);
    if |parts| == 1 {
      assert OccursAt(parts[0], s, 0);
    } else if j == 0 {
      assert s == parts[0] + (" " + Join(parts[1..]));
      assert s[0..|parts[0]|] == parts[0];
      assert OccursAt(parts[0], s, 0);
    } else {
      var tail := Join(parts[1..]);
      JoinHasPart(parts[1..], j - 1);
      var i :| OccursAt(parts[1..][j - 1], tail, i);
      var off := |parts[0]| + 1;
      assert s == (parts[0] + " ") + tail;
      assert s[off + i..off + i + |parts[j]|] == tail[i..i + |parts[j]|];
      assert OccursAt(parts[j], s, off + i);
    }
  }

  /** The name and text of every dict comment are parts. */
  lemma {:induction false} CommentPartsHas(cs: seq<Value>, m: nat)
    requires m < |cs| && cs[m].VDict?
    ensures PyStr(Get(cs[m].fields, "name", VStr(""))) in CommentParts(cs)
    ensures PyStr(Get(cs[m].fields, "text", VStr(""))) in CommentParts(cs)
    decreases |cs|
  {
    if m > 0 {
      CommentPartsHas(cs[1..], m - 1);
      assert cs[1..][m - 1] == cs[m];
    }
  }

  /** Lower-casing keeps an occurrence where it is. */
  lemma LowerOccurs(q: string, s: string, i: int)
    requires OccursAt(q, s, i)
    ensures OccursAt(Lower(q), Lower(s), i)
  {
    assert Lower(s)[i..i + |q|] == Lower(q) by {
      forall j | 0 <= j < |q| ensures Lower(s)[i..i + |q|][j] == Lower(q)[j] {
        assert s[i..i + |q|][j] == q[j];
      }
    }
  }

  /** The comment text of `index` contains the lower-cased name and text of
      every comment that is a dict, so searching for either finds the
      ticket. */
  lemma CommentsTextHas(t: Dict, m: nat)
    requires m < |CommentList(t)| && CommentList(t)[m].VDict?
    ensures Contains(Lower(PyStr(Get(CommentList(t)[m].fields, "name", VStr("")))), CommentsText(t))
    ensures Contains(Lower(PyStr(Get(CommentList(t)[m].fields, "text", VStr("")))), CommentsText(t))
  {
    var parts := CommentParts(CommentList(t));
    var c := CommentList(t)[m].fields;
    CommentPartsHas(CommentList(t), m);
    var a :| 0 <= a < |parts| && parts[a] == PyStr(Get(c, "name", VStr("")));
    var b :| 0 <= b < |parts| && parts[b] == PyStr(Get(c, "text", VStr("")));
    JoinHasPart(parts, a);
    JoinHasPart(parts, b);
    var i :| OccursAt(parts[a], Join(parts), i);
    var j :| OccursAt(parts[b], Join(parts), j);
    LowerOccurs(parts[a], Join(parts), i);
    LowerOccurs(parts[b], Join(parts), j);
    ContainsIff(Lower(parts[a]), CommentsText(t));
    ContainsIff(Lower(parts[b]), CommentsText(t));
  }

  /** Python's `a or b` on two tests that may raise, `a` evaluated first. */
  function OrElse(a: Option<bool>, b: Option<bool>): Option<bool>
  {
    match a
    case None => None
    case Some(true) => Some(true)
    case Some(false) => b
  }

  /** `match(t)` of `index`: title, description, status, assignee,
      priority, then the comment text, stopping at the first hit. */
  function Matches(q: string, t: Dict): Option<bool>
  {
    OrElse(FieldHas(q, t, "title"),
    OrElse(FieldHas(q, t, "description"),
    OrElse(FieldHas(q, t, "status"),
    OrElse(FieldHas(q, t, "assignee"),
    OrElse(FieldHas(q, t, "priority"),
    Some(Contains(q, CommentsText(t))))))))
  }

  /** The field `k` is a string whose lower-cased form contains `q`. */
  predicate TextHas(q: string, t: Dict, k: string)
  {
    FieldHas(q, t, k) == Some(true)
  }

  /** A ticket matches only when one of its six texts contains the query;
      when its five text fields are strings it matches exactly when one of
      them or its comment text contains the query; and the test raises only
      when some field is not a string. */
  lemma MatchesSpec(q: string, t: Dict)
    ensures Matches(q, t) == Some(true) ==>
      TextHas(q, t, "title") || TextHas(q, t, "description") || TextHas(q, t, "status") ||
      TextHas(q, t, "assignee") || TextHas(q, t, "priority") || Contains(q, CommentsText(t))
    ensures (forall k :: k in ["title", "description", "status", "assignee", "priority"] ==> FieldHas(q, t, k).Some?) ==>
      Matches(q, t) == Some(
        TextHas(q, t, "title") || TextHas(q, t, "description") || TextHas(q, t, "status") ||
        TextHas(q, t, "assignee") || TextHas(q, t, "priority") || Contains(q, CommentsText(t)))
    ensures Matches(q, t).None? ==>
      exists k :: k in ["title", "description", "status", "assignee", "priority"] && FieldHas(q, t, k).None?
  {
    var ks := ["title", "description", "status", "assignee", "priority"];
    assert ks[0] == "title" && ks[1] == "description" && ks[2] == "status" && ks[3] == "assignee" && ks[4] == "priority";
  }

  /** Every element of a permutation of `s` is an element of `s`. */
  lemma SameElements(a: seq<Dict>, b: seq<Dict>)
    requires multiset(a) == multiset(b)
    ensures forall x :: x in a <==> x in b
  {
    forall x ensures x in a <==> x in b {
      assert x in a <==> x in multiset(a);
      assert x in b <==> x in multiset(b);
    }
  }

  /** The list `index` renders for the query `q` (already stripped and
      lower-cased); `None` when a match test raises. */
  function IndexListing(ts: seq<Dict>, q: string): Option<seq<Dict>>
  {
    var sorted := SortByIdDesc(ts);
    if q == "" then Some(sorted) else TryFilter(sorted, t => Matches(q, t))
  }

  /** `index` lists its tickets newest first; with an empty query it lists
      all of them; otherwise it raises exactly when some match test raises,
      and it lists exactly the matching tickets, each as often as it occurs. */
  lemma IndexListingSpec(ts: seq<Dict>, q: string)
    ensures IndexListing(ts, q).Some? ==> SortedDesc(IndexListing(ts, q).value, SortKey)
    ensures q == "" ==> IndexListing(ts, q).Some? && multiset(IndexListing(ts, q).value) == multiset(ts)
    ensures q != "" ==> (IndexListing(ts, q).Some? <==> forall i :: 0 <= i < |ts| ==> Matches(q, ts[i]).Some?)
    ensures q != "" && IndexListing(ts, q).Some? ==>
      forall x :: multiset(IndexListing(ts, q).value)[x] == if Matches(q, x) == Some(true) then multiset(ts)[x] else 0
    ensures q == "" ==> forall k :: WithKey(IndexListing(ts, q).value, SortKey, k) == WithKey(ts, SortKey, k)
    ensures q != "" && IndexListing(ts, q).Some? ==> forall k ::
      Some(WithKey(IndexListing(ts, q).value, SortKey, k)) == TryFilter(WithKey(ts, SortKey, k), t => Matches(q, t))
  {
    var sorted := SortByIdDesc(ts);
    SameElements(sorted, ts);
    forall k ensures WithKey(sorted, SortKey, k) == WithKey(ts, SortKey, k) {
      SortIsStable(ts, SortKey, k);
    }
    if q != "" {
      var r := TryFilter(sorted, t => Matches(q, t));
      TryFilterSpec(sorted, t => Matches(q, t));
      if r.Some? {
        TryFilterSorted(sorted, t => Matches(q, t), SortKey);
        forall k ensures Some(WithKey(r.value, SortKey, k)) == TryFilter(WithKey(ts, SortKey, k), t => Matches(q, t)) {
          TryFilterWithKey(sorted, t => Matches(q, t), SortKey, k);
        }
      }
      if forall i :: 0 <= i < |ts| ==> Matches(q, ts[i]).Some? {
        forall i | 0 <= i < |sorted| ensures Matches(q, sorted[i]).Some? {
          assert sorted[i] in ts;
        }
      }
      if forall i :: 0 <= i < |sorted| ==> Matches(q, sorted[i]).Some? {
        forall i | 0 <= i < |ts| ensures Matches(q, ts[i]).Some? {
          assert ts[i] in sorted;
        }
      }
    }
  }

  /** `t.get("status") in ("Åpen", "Pågår")` */
  predicate IsActive(t: Dict)
  {
    Get(t, "status", VNone) == VStr(Open) || Get(t, "status", VNone) == VStr(InProgress)
  }

  /** The `my_work` loop test: the stripped, lower-cased assignee is empty
      or the work user's; `None` when the assignee is a truthy non-string. */
  function OnWorkList(t: Dict): Option<bool>
  {
    match TextOrEmpty(Get(t, "assignee", VNone))
    case None => None
    case Some(a) =>
      var x := Lower(Strip(a));
      Some(x == "" || x == Lower(Strip(WorkUserName)))
  }

  /** The work user's name as `my_work` compares it. */
  lemma WorkTarget()
    ensures Lower(Strip(WorkUserName)) == "julian"
  {
    assert Strip(WorkUserName) == WorkUserName;
    var l := Lower(WorkUserName);
    assert l[0] == 'j';
  }

  /** `[t for t in ts if t.get("status") in ("Åpen", "Pågår")]` */
  function Active(ts: seq<Dict>): seq<Dict>
    decreases |ts|
  {
    if ts == [] then []
    else (if IsActive(ts[0]) then [ts[0]] else []) + Active(ts[1..])
  }

  /** The active list holds each active ticket as often as the list does,
      and nothing else. */
  lemma {:induction false} ActiveSpec(ts: seq<Dict>)
    ensures forall x :: multiset(Active(ts))[x] == (if IsActive(x) then multiset(ts)[x] else 0)
    decreases |ts|
  {
    if ts != [] {
      ActiveSpec(ts[1..]);
      assert ts == [ts[0]] + ts[1..];
    }
  }

  /** The comprehension keeps the order: among the tickets with key `k`, the
      active list holds the active ones in their original order. */
  lemma {:induction false} ActiveWithKey(ts: seq<Dict>, key: Dict -> int, k: int)
    ensures WithKey(Active(ts), key, k) == Active(WithKey(ts, key, k))
    decreases |ts|
  {
    if ts != [] {
      var x := ts[0];
      var w := WithKey(ts[1..], key, k);
      ActiveWithKey(ts[1..], key, k);
      if IsActive(x) {
        WithKeyCons(x, Active(ts[1..]), key, k);
      } else {
        assert Active(ts) == [] + Active(ts[1..]) == Active(ts[1..]);
      }
      if key(x) == k {
        assert WithKey(ts, key, k) == [x] + w;
        assert ([x] + w)[0] == x && ([x] + w)[1..] == w;
      } else {
        assert WithKey(ts, key, k) == [] + w == w;
      }
    }
  }

  /** An element of a list whose multiset count is positive is in it. */
  lemma InMultiset(x: Dict, s: seq<Dict>)
    ensures x in s <==> multiset(s)[x] > 0
  {
  }

  /** The active tickets are the tickets that are active. */
  lemma ActiveMembers(ts: seq<Dict>, x: Dict)
    ensures x in Active(ts) <==> x in ts && IsActive(x)
  {
    ActiveSpec(ts);
    InMultiset(x, Active(ts));
    InMultiset(x, ts);
  }

  /** The assignee test raises on some active ticket exactly when it raises
      on some element of the active list. */
  lemma WorkListRaisesIff(ts: seq<Dict>)
    ensures TryFilter(Active(ts), OnWorkList).Some? <==>
      forall i :: 0 <= i < |ts| && IsActive(ts[i]) ==> OnWorkList(ts[i]).Some?
  {
    var active := Active(ts);
    TryFilterSpec(active, OnWorkList);
    if TryFilter(active, OnWorkList).None? {
      var i :| 0 <= i < |active| && OnWorkList(active[i]).None?;
      ActiveMembers(ts, active[i]);
    } else {
      forall i | 0 <= i < |ts| && IsActive(ts[i]) ensures OnWorkList(ts[i]).Some? {
        ActiveMembers(ts, ts[i]);
      }
    }
  }

  /** The list `my_work` renders: the active tickets, then those passing the
      assignee test, sorted newest first; `None` when a test raises. */
  function MyWorkListing(ts: seq<Dict>): Option<seq<Dict>>
  {
    match TryFilter(Active(ts), OnWorkList)
    case None => None
    case Some(filtered) => Some(SortByIdDesc(filtered))
  }

  /** `my_work` raises exactly when the assignee test raises on an active
      ticket; otherwise it lists exactly the active tickets that are
      unassigned or the work user's, each as often as it occurs, newest
      first. */
  lemma MyWorkListingSpec(ts: seq<Dict>)
    ensures MyWorkListing(ts).Some? <==> forall i :: 0 <= i < |ts| && IsActive(ts[i]) ==> OnWorkList(ts[i]).Some?
    ensures MyWorkListing(ts).Some? ==> SortedDesc(MyWorkListing(ts).value, SortKey)
    ensures MyWorkListing(ts).Some? ==> forall x ::
      multiset(MyWorkListing(ts).value)[x] == (if IsActive(x) && OnWorkList(x) == Some(true) then multiset(ts)[x] else 0)
    ensures MyWorkListing(ts).Some? ==> forall k ::
      Some(WithKey(MyWorkListing(ts).value, SortKey, k)) == TryFilter(Active(WithKey(ts, SortKey, k)), OnWorkList)
  {
    WorkListRaisesIff(ts);
    ActiveSpec(ts);
    TryFilterSpec(Active(ts), OnWorkList);
    var filtered := TryFilter(Active(ts), OnWorkList);
    if filtered.Some? {
      forall k ensures Some(WithKey(MyWorkListing(ts).value, SortKey, k)) == TryFilter(Active(WithKey(ts, SortKey, k)), OnWorkList) {
        SortIsStable(filtered.value, SortKey, k);
        TryFilterWithKey(Active(ts), OnWorkList, SortKey, k);
        ActiveWithKey(ts, SortKey, k);
      }
    }
  }
}
