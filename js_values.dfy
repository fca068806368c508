/**
 * The loosely typed values the frontend reads out of JSON responses, with
 * JavaScript's truthiness, strict equality (`===`), `a || b` and
 * `String.prototype.trim`.
 */
module JsValues {

  /** A field of a decoded JSON record. `JsUndefined` is a missing key.
      Numbers are modelled as integers. */
  datatype JsValue =
    | JsUndefined
    | JsNull
    | JsBool(b: bool)
    | JsNum(n: int)
    | JsStr(s: string)
    | JsObject   // an array or object: always truthy, a fresh reference

  /** The outcome of an awaited API call: the response's `data`, or the
      rejection, carrying `error.response?.data?.error` (`JsUndefined` when
      the request got no response). */
  datatype Fetch<+T> = Fetched(data: T) | FetchFailed(serverError: JsValue)

  /** JavaScript's ToBoolean. */
  predicate Truthy(v: JsValue) {
    match v
    case JsUndefined => false
    case JsNull => false
    case JsBool(b) => b
    case JsNum(n) => n != 0
    case JsStr(s) => s != ""
    case JsObject => true
  }

  /** `a === b`: equal primitives; two decoded objects are distinct references. */
  predicate StrictEq(a: JsValue, b: JsValue) {
    a == b && !a.JsObject?
  }

  /** `a || b`. */
  function Or(a: JsValue, b: JsValue): (r: JsValue)
    ensures Truthy(a) ==> r == a
    ensures !Truthy(a) ==> r == b
  {
    if Truthy(a) then a else b
  }

  /** The characters `String.prototype.trim` removes: ECMAScript WhiteSpace
      (tab, vertical tab, form feed, space, no-break space, byte order mark
      and the Zs category) and LineTerminator. */
  predicate IsJsSpace(c: char) {
    c == '\t' || c == '\n' || c == '\U{000B}' || c == '\U{000C}' || c == '\r'
    || c == ' ' || c == '\U{00A0}' || c == '\U{1680}'
    || ('\U{2000}' <= c <= '\U{200A}')
    || c == '\U{2028}' || c == '\U{2029}' || c == '\U{202F}' || c == '\U{205F}'
    || c == '\U{3000}' || c == '\U{FEFF}'
  }

  /** A string with no character other than white space. */
  ghost predicate IsBlank(s: string) {
    forall i :: 0 <= i < |s| ==> IsJsSpace(s[i])
  }

  function TrimStart(s: string): string {
    if s != "" && IsJsSpace(s[0]) then TrimStart(s[1..]) else s
  }

  function TrimEnd(s: string): string {
    if s != "" && IsJsSpace(s[|s| - 1]) then TrimEnd(s[..|s| - 1]) else s
  }

  /** `s.trim()`. */
  function Trim(s: string): string {
    TrimEnd(TrimStart(s))
  }

  /** `TrimStart` drops exactly the leading run of white space. */
  lemma {:induction false} TrimStartShape(s: string)
    ensures var r := TrimStart(s);
      && |r| <= |s| && r == s[|s| - |r|..]
      && (r != "" ==> !IsJsSpace(r[0]))
      && IsBlank(s[..|s| - |r|])
  {
    if s != "" && IsJsSpace(s[0]) {
      TrimStartShape(s[1..]);
      var r := TrimStart(s);
      assert s[1..][|s| - 1 - |r|..] == s[|s| - |r|..];
      var lead := s[..|s| - |r|];
      forall i | 0 <= i < |lead| ensures IsJsSpace(lead[i]) {
        if i > 0 {
          assert lead[i] == s[1..][..|s| - 1 - |r|][i - 1];
        }
      }
    } else {
      assert s[|s|..] == [];
    }
  }

  /** `TrimEnd` drops exactly the trailing run of white space. */
  lemma {:induction false} TrimEndShape(s: string)
    ensures var r := TrimEnd(s);
      && |r| <= |s| && r == s[..|r|]
      && (r != "" ==> !IsJsSpace(r[|r| - 1]))
      && IsBlank(s[|r|..])
  {
    if s != "" && IsJsSpace(s[|s| - 1]) {
      var p := s[..|s| - 1];
      TrimEndShape(p);
      var r := TrimEnd(s);
      assert p[..|r|] == s[..|r|];
      forall i | |r| <= i < |s| ensures IsJsSpace(s[i]) {
        if i < |s| - 1 {
          assert s[i] == p[|r|..][i - |r|];
        }
      }
      assert forall i :: 0 <= i < |s[|r|..]| ==> s[|r|..][i] == s[|r| + i];
    } else {
      assert s[..|s|] == s;
    }
  }

  /** `s.trim()` is empty exactly when `s` is blank (so `!s.trim()` is
      "blank" and `s.trim().length > 0` is "has a visible character"). */
  lemma TrimEmptyIffBlank(s: string)
    ensures Trim(s) == "" <==> IsBlank(s)
  {
    var t := TrimStart(s);
    TrimStartShape(s);
    TrimEndShape(t);
    if Trim(s) == "" {
      assert t == "";
      assert s[..|s|] == s;
    } else {
      var r := Trim(s);
      assert r[0] == t[0];
      assert !IsJsSpace(s[|s| - |t|]);
    }
  }
}
