/**
 * The request-body checks of the user controller, as pure predicates over
 * the values a JSON body can carry.
 */
module Validation {
  import opened Js

  /** What `field?.trim() === ""` does for one field. */
  datatype Verdict =
    | Pass    // the field is absent, null, or a string with a non-space character
    | Blank   // the field is a string made of white space only
    | Throws  // the field is neither nullish nor a string, so it has no `trim` method

  /**
   * The callback on one field: a nullish field short-circuits `?.` and
   * passes, a string passes when it has a non-space character, and anything
   * else has no `trim` method.
   */
  function FieldVerdict(v: JsValue): (verdict: Verdict)
    ensures verdict == Pass <==> Nullish(v) || (v.Str? && exists i :: 0 <= i < |v.s| && !IsJsSpace(v.s[i]))
    ensures verdict == Throws <==> !Nullish(v) && !v.Str?
  {
    if Nullish(v) then Pass
    else if v.Str? then (if Trim(v.s) == "" then Blank else Pass)
    else Throws
  }

  /**
   * Where `fields.some((field) => field?.trim() === "")` stops, scanning left
   * to right: at the first field that is blank (the callback returns true) or
   * that has no `trim` method (the call throws); `|fields|` if there is none.
   */
  function StopIndex(fields: seq<JsValue>): (k: nat)
    ensures k <= |fields|
    ensures forall j :: 0 <= j < k ==> FieldVerdict(fields[j]) == Pass
    ensures k < |fields| ==> FieldVerdict(fields[k]) != Pass
  {
    if fields == [] || FieldVerdict(fields[0]) != Pass then 0
    else
      var k := StopIndex(fields[1..]);
      assert forall j :: 1 <= j < k + 1 ==> fields[j] == fields[1..][j - 1];
      k + 1
  }

  /**
   * The outcome of the `some` call: `Pass` exactly when every field passes,
   * and otherwise the verdict of the first field that does not.
   */
  function AnyBlank(fields: seq<JsValue>): (v: Verdict)
    ensures v == Pass <==> forall i :: 0 <= i < |fields| ==> FieldVerdict(fields[i]) == Pass
    ensures v != Pass ==>
      exists i :: 0 <= i < |fields| && FieldVerdict(fields[i]) == v &&
        forall j :: 0 <= j < i ==> FieldVerdict(fields[j]) == Pass
  {
    var k := StopIndex(fields);
    if k == |fields| then Pass else FieldVerdict(fields[k])
  }

  /** The registration check: blank `fullName`, `email`, `username` or `password`. */
  function RegisterCheck(fullName: JsValue, email: JsValue, username: JsValue, password: JsValue): Verdict {
    AnyBlank([fullName, email, username, password])
  }

  /** `!username && !email`: login names neither account key. */
  function IdentifierMissing(username: JsValue, email: JsValue): (missing: bool)
    ensures missing <==> username in FalsyValues && email in FalsyValues
  {
    !Truthy(username) && !Truthy(email)
  }

  /** `!fullName || !email`: the profile update lacks one of its two values. */
  function DetailsMissing(fullName: JsValue, email: JsValue): (missing: bool)
    ensures missing <==> fullName in FalsyValues || email in FalsyValues
  {
    !Truthy(fullName) || !Truthy(email)
  }

  /** A string field is blank exactly when it consists of JavaScript white space only. */
  lemma {:induction false} BlankIffWhiteSpace(s: string)
    ensures FieldVerdict(Str(s)) == Blank <==> forall i :: 0 <= i < |s| ==> IsJsSpace(s[i])
  {
  }

  /**
   * The three checks disagree on the edge cases. A white-space-only string
   * fails registration but is accepted as a login name and as a profile
   * value; an absent field passes registration but fails the profile check,
   * and it fails the login check only when the other key is absent too.
   */
  lemma ChecksDisagree(s: string)
    requires s != [] && forall i :: 0 <= i < |s| ==> IsJsSpace(s[i])
    ensures FieldVerdict(Str(s)) == Blank
    ensures !IdentifierMissing(Str(s), Undefined) && !DetailsMissing(Str(s), Str(s))
    ensures FieldVerdict(Undefined) == Pass
    ensures IdentifierMissing(Undefined, Undefined) && DetailsMissing(Undefined, Str(s))
    ensures !IdentifierMissing(Undefined, Str(s))
  {
  }
}
