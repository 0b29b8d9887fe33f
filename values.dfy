/** Python values as `json.load` hands them to the helpdesk, and the few `str`
    operations (`strip`, `lower`, `in`, `str()`) that the route handlers apply
    to them. */
module PyValues {

  datatype Option<+T> = None | Some(value: T)

  /** One JSON value after parsing: null, a boolean, an integer, a float (kept
      as Python's `repr` of it), a string, a list or an object. */
  datatype Value =
    | VNone
    | VBool(b: bool)
    | VInt(i: int)
    | VFloat(repr: string)
    | VStr(s: string)
    | VList(items: seq<Value>)
    | VDict(fields: map<string, Value>)

  /** A Python `dict` with string keys, as a ticket or a log entry is. */
  type Dict = map<string, Value>

  /** Submitted form fields or query arguments (`request.form`, `request.args`). */
  type Form = map<string, string>

  /** `d.get(k, default)` */
  function Get(d: Dict, k: string, default: Value): Value
  {
    if k in d then d[k] else default
  }

  /** `form.get(k) or default`: an absent or empty field gives the default. */
  function FormOr(form: Form, k: string, default: string): (r: string)
    ensures r == default || (k in form && r == form[k] && r != "")
  {
    if k in form && form[k] != "" then form[k] else default
  }

  /** `list(reversed(s))` */
  function Reversed<T>(s: seq<T>): (r: seq<T>)
    ensures |r| == |s|
    ensures forall i :: 0 <= i < |s| ==> r[i] == s[|s| - 1 - i]
  {
    seq(|s|, i requires 0 <= i < |s| => s[|s| - 1 - i])
  }

  /** Reversing twice gives the list back. */
  lemma ReversedTwice<T>(s: seq<T>)
    ensures Reversed(Reversed(s)) == s
  {
    var r := Reversed(Reversed(s));
    assert forall i :: 0 <= i < |s| ==> r[i] == s[i];
  }

  /** The element appended last comes first in the reversed list. */
  lemma ReversedSnoc<T>(s: seq<T>, x: T)
    ensures Reversed(s + [x]) == [x] + Reversed(s)
  {
    var l, r := Reversed(s + [x]), [x] + Reversed(s);
    assert forall i :: 0 <= i < |l| ==> l[i] == r[i];
  }

  /** Python's truth value of a JSON value. */
  predicate Truthy(v: Value)
  {
    match v
    case VNone => false
    case VBool(b) => b
    case VInt(i) => i != 0
    case VFloat(repr) => repr != "0.0" && repr != "-0.0"
    case VStr(s) => s != ""
    case VList(xs) => xs != []
    case VDict(m) => m != map[]
  }

  /** `(v or "")` about to receive a `str` method such as `.strip()`: a falsy
      value becomes "", a string stays itself, and any other truthy value has
      no such method, so Python raises (`None` here). */
  function TextOrEmpty(v: Value): (r: Option<string>)
    ensures r.None? <==> Truthy(v) && !v.VStr?
    ensures v.VStr? ==> r == Some(v.s)
    ensures !Truthy(v) ==> r == Some("")
  {
    if !Truthy(v) then Some("") else if v.VStr? then Some(v.s) else None
  }

  /** The integer a value stands for in `==` and `<` against an `int`: Python's
      `bool` is a subclass of `int`, so `True` is 1 and `False` is 0. */
  function AsInt(v: Value): (r: Option<int>)
    ensures r.Some? <==> v.VInt? || v.VBool?
    ensures v.VInt? ==> r == Some(v.i)
    ensures v.VBool? ==> r == Some(if v.b then 1 else 0)
  {
    match v
    case VInt(i) => Some(i)
    case VBool(b) => Some(if b then 1 else 0)
    case _ => None
  }

  function Digit(d: nat): char
    requires d < 10
  {
    "0123456789"[d]
  }

  /** Decimal digits of a natural number, most significant first. */
  function Digits(n: nat): (r: string)
    ensures |r| >= 1
    ensures forall i :: 0 <= i < |r| ==> '0' <= r[i] <= '9'
    decreases n
  {
    if n < 10 then [Digit(n)] else Digits(n / 10) + [Digit(n % 10)]
  }

  /** `str(v)` for the scalar values; a list or dict renders as "". */
  function PyStr(v: Value): string
  {
    match v
    case VNone => "None"
    case VBool(b) => if b then "True" else "False"
    case VInt(i) => if i < 0 then "-" + Digits(-i) else Digits(i)
    case VFloat(repr) => repr
    case VStr(s) => s
    case _ => ""
  }

  /** The characters `str.strip()` removes (Python's `str.isspace`). */
  predicate IsSpace(c: char)
  {
    || '\U{0009}' <= c <= '\U{000D}'
    || '\U{001C}' <= c <= '\U{0020}'
    || c == '\U{0085}' || c == '\U{00A0}' || c == '\U{1680}'
    || '\U{2000}' <= c <= '\U{200A}'
    || c == '\U{2028}' || c == '\U{2029}' || c == '\U{202F}'
    || c == '\U{205F}' || c == '\U{3000}'
  }

  /** Drop the leading whitespace. */
  function TrimStart(s: string): string
    decreases |s|
  {
    if s != [] && IsSpace(s[0]) then TrimStart(s[1..]) else s
  }

  /** Drop the trailing whitespace. */
  function TrimEnd(s: string): string
    decreases |s|
  {
    if s != [] && IsSpace(s[|s| - 1]) then TrimEnd(s[..|s| - 1]) else s
  }

  /** `TrimStart` removes exactly the whitespace prefix: the rest is a suffix
      of the input that does not start with whitespace. */
  lemma {:induction false} TrimStartSpec(s: string)
    ensures var r := TrimStart(s);
      && |r| <= |s| && r == s[|s| - |r|..]
      && (r == [] || !IsSpace(r[0]))
      && forall i :: 0 <= i < |s| - |r| ==> IsSpace(s[i])
    decreases |s|
  {
    if s != [] && IsSpace(s[0]) {
      TrimStartSpec(s[1..]);
    }
  }

  /** `TrimEnd` removes exactly the whitespace suffix: the rest is a prefix of
      the input that does not end with whitespace. */
  lemma {:induction false} TrimEndSpec(s: string)
    ensures var r := TrimEnd(s);
      && |r| <= |s| && r == s[..|r|]
      && (r == [] || !IsSpace(r[|r| - 1]))
      && forall i :: |r| <= i < |s| ==> IsSpace(s[i])
    decreases |s|
  {
    if s != [] && IsSpace(s[|s| - 1]) {
      TrimEndSpec(s[..|s| - 1]);
    }
  }

  /** `s.strip()` */
  function Strip(s: string): string
  {
    TrimEnd(TrimStart(s))
  }

  /** A stripped string neither starts nor ends with whitespace. */
  predicate Stripped(s: string)
  {
    s == [] || (!IsSpace(s[0]) && !IsSpace(s[|s| - 1]))
  }

  /** Stripping keeps a contiguous run of the input, leaves nothing to strip,
      and gives "" exactly for an all-whitespace input. */
  lemma StripSpec(s: string)
    ensures Stripped(Strip(s))
    ensures exists i :: OccursAt(Strip(s), s, i)
    ensures Strip(s) == [] <==> forall i :: 0 <= i < |s| ==> IsSpace(s[i])
  {
    var a := TrimStart(s);
    var r := TrimEnd(a);
    TrimStartSpec(s);
    TrimEndSpec(a);
    var i := |s| - |a|;
    assert s[i..i + |r|] == r by {
      assert a == s[i..] && r == a[..|r|];
    }
    assert OccursAt(r, s, i);
    if r == [] {
      assert a == [];
      assert i == |s|;
    } else {
      assert r[0] == a[0];
      assert s[i] == r[0];
    }
  }

  /** Stripping twice strips nothing more. */
  lemma StripIdempotent(s: string)
    ensures Strip(Strip(s)) == Strip(s)
  {
    StripSpec(s);
  }

  /** `str.lower()` on one character: ASCII and Latin-1 capitals. */
  function LowerChar(c: char): char
  {
    if 'A' <= c <= 'Z' || ('\U{00C0}' <= c <= '\U{00DE}' && c != '\U{00D7}') then
      (c as int + 32) as char
    else
      c
  }

  /** `s.lower()` */
  function Lower(s: string): (r: string)
    ensures |r| == |s|
    ensures forall i :: 0 <= i < |s| ==> r[i] == LowerChar(s[i])
  {
    seq(|s|, i requires 0 <= i < |s| => LowerChar(s[i]))
  }

  /** `q in s` for strings: `q` occurs in `s` as a contiguous substring. */
  predicate Contains(q: string, s: string)
    decreases |s|
  {
    q <= s || (s != [] && Contains(q, s[1..]))
  }

  /** `q` occurs in `s` starting at index `i`. */
  predicate OccursAt(q: string, s: string, i: int)
  {
    0 <= i <= |s| - |q| && s[i..i + |q|] == q
  }

  /** `Contains` is the substring relation. */
  lemma {:induction false} ContainsIff(q: string, s: string)
    ensures Contains(q, s) <==> exists i :: OccursAt(q, s, i)
    decreases |s|
  {
    if q <= s {
      assert OccursAt(q, s, 0);
    } else if s == [] {
    } else {
      ContainsIff(q, s[1..]);
      if Contains(q, s[1..]) {
        var i :| OccursAt(q, s[1..], i);
        assert s[i + 1..i + 1 + |q|] == s[1..][i..i + |q|];
        assert OccursAt(q, s, i + 1);
      }
      if exists i :: OccursAt(q, s, i) {
        var i :| OccursAt(q, s, i);
        assert i != 0;
        assert s[1..][i - 1..i - 1 + |q|] == s[i..i + |q|];
        assert OccursAt(q, s[1..], i - 1);
      }
    }
  }
}
