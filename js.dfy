/**
 * The fragment of JavaScript value semantics the user controller relies on:
 * values read from a parsed JSON request body, truthiness, and the string
 * methods `trim`, `toLowerCase` and `split`.
 */
module Js {

  /**
   * A value read from a parsed JSON request body. A key the client did not
   * send reads as `Undefined`. Numbers are modelled as integers; arrays and
   * objects are lumped together as `Obj`.
   */
  datatype JsValue = Undefined | Null | Bool(b: bool) | Num(n: int) | Str(s: string) | Obj

  /** `v == null`: the values at which `?.` short-circuits. */
  predicate Nullish(v: JsValue) {
    v.Undefined? || v.Null?
  }

  /** ECMAScript ToBoolean: what `if (v)`, `!v` and `v || w` test. */
  predicate Truthy(v: JsValue) {
    match v
    case Undefined => false
    case Null => false
    case Bool(b) => b
    case Num(n) => n != 0
    case Str(s) => s != ""
    case Obj => true
  }

  /** The falsy values of ECMAScript that a JSON body can carry: undefined, null, false, 0 and "". */
  const FalsyValues: set<JsValue> := {Undefined, Null, Bool(false), Num(0), Str("")}

  /** `a || b`: the first operand when it is truthy, otherwise the second. */
  function Or(a: JsValue, b: JsValue): (r: JsValue)
    ensures Truthy(r) <==> Truthy(a) || Truthy(b)
    ensures Truthy(a) ==> r == a
    ensures !Truthy(a) ==> r == b
  {
    if Truthy(a) then a else b
  }

  /**
   * The characters `String.prototype.trim` removes: ECMAScript WhiteSpace
   * (tab, vertical tab, form feed, space, no-break space, byte order mark and
   * the other Unicode space separators) and LineTerminator.
   */
  predicate IsJsSpace(c: char) {
    var n := c as int;
    n == 0x09 || n == 0x0A || n == 0x0B || n == 0x0C || n == 0x0D || n == 0x20 ||
    n == 0xA0 || n == 0x1680 || (0x2000 <= n <= 0x200A) || n == 0x2028 || n == 0x2029 ||
    n == 0x202F || n == 0x205F || n == 0x3000 || n == 0xFEFF
  }

  /** `s` with its leading white space removed: a suffix of `s`. */
  function TrimStart(s: string): (r: string)
    ensures |r| <= |s| && r == s[|s| - |r|..]
    ensures forall i :: 0 <= i < |s| - |r| ==> IsJsSpace(s[i])
    ensures r != [] ==> !IsJsSpace(r[0])
  {
    if s != [] && IsJsSpace(s[0]) then
      var r := TrimStart(s[1..]);
      assert r == s[|s| - |r|..] by {
        assert s[1..][|s| - 1 - |r|..] == s[|s| - |r|..];
      }
      assert forall i :: 1 <= i < |s| - |r| ==> s[i] == s[1..][i - 1];
      r
    else s
  }

  /** `s` with its trailing white space removed: a prefix of `s`. */
  function TrimEnd(s: string): (r: string)
    ensures |r| <= |s| && r == s[..|r|]
    ensures forall i :: |r| <= i < |s| ==> IsJsSpace(s[i])
    ensures r != [] ==> !IsJsSpace(r[|r| - 1])
  {
    if s != [] && IsJsSpace(s[|s| - 1]) then
      var r := TrimEnd(s[..|s| - 1]);
      assert r == s[..|r|] by {
        assert s[..|s| - 1][..|r|] == s[..|r|];
      }
      assert forall i :: |r| <= i < |s| - 1 ==> s[i] == s[..|s| - 1][i];
      r
    else s
  }

  /**
   * `s.trim()`. The result is empty exactly when every character of `s` is
   * white space; otherwise it neither starts nor ends with white space.
   */
  function Trim(s: string): (r: string)
    ensures |r| <= |s|
    ensures r == [] <==> forall i :: 0 <= i < |s| ==> IsJsSpace(s[i])
    ensures r != [] ==> !IsJsSpace(r[0]) && !IsJsSpace(r[|r| - 1])
  {
    var t := TrimStart(s);
    var r := TrimEnd(t);
    assert r != [] ==> r[0] == t[0];
    assert t != [] ==> t[0] == s[|s| - |t|];
    r
  }

  predicate IsAsciiUpper(c: char) {
    'A' <= c <= 'Z'
  }

  function LowerChar(c: char): char {
    if IsAsciiUpper(c) then (c as int + 32) as char else c
  }

  /**
   * `s.toLowerCase()` restricted to the ASCII letters: every upper-case
   * letter becomes its lower-case partner and every other character stays.
   */
  function Lower(s: string): (r: string)
    ensures |r| == |s|
    ensures forall i :: 0 <= i < |r| ==> !IsAsciiUpper(r[i])
    ensures forall i :: 0 <= i < |s| && !IsAsciiUpper(s[i]) ==> r[i] == s[i]
    ensures forall i :: 0 <= i < |s| && IsAsciiUpper(s[i]) ==> r[i] as int == s[i] as int + 32
  {
    seq(|s|, i requires 0 <= i < |s| => LowerChar(s[i]))
  }

  /** Lower-casing twice is lower-casing once. */
  lemma LowerIdempotent(s: string)
    ensures Lower(Lower(s)) == Lower(s)
  {
  }

  /** The position of the first occurrence of `c` in `s`. */
  function IndexOf(s: string, c: char): (k: nat)
    requires c in s
    ensures k < |s| && s[k] == c && c !in s[..k]
  {
    if s[0] == c then 0 else
      assert s == [s[0]] + s[1..];
      var k := IndexOf(s[1..], c);
      assert s[..k + 1] == [s[0]] + s[1..][..k];
      k + 1
  }

  /**
   * `s.split(sep)` for a one-character separator: the text before the first
   * separator, followed by the split of the text after it; a string without
   * the separator is its own single part.
   */
  function Split(s: string, sep: char): (parts: seq<string>)
    ensures |parts| >= 1
    ensures sep !in parts[0]
    decreases |s|
  {
    if sep !in s then [s]
    else
      var k := IndexOf(s, sep);
      [s[..k]] + Split(s[k + 1..], sep)
  }

  /** `parts.join(sep)`: the partner of `Split`. */
  function Join(parts: seq<string>, sep: char): string {
    if |parts| == 0 then ""
    else if |parts| == 1 then parts[0]
    else parts[0] + [sep] + Join(parts[1..], sep)
  }

  /** Splitting loses nothing: joining the parts with the separator gives `s` back. */
  lemma {:induction false} JoinSplit(s: string, sep: char)
    decreases |s|
    ensures Join(Split(s, sep), sep) == s
  {
    if sep in s {
      var k := IndexOf(s, sep);
      var rest := Split(s[k + 1..], sep);
      JoinSplit(s[k + 1..], sep);
      var parts := [s[..k]] + rest;
      assert Split(s, sep) == parts;
      assert parts[1..] == rest;
      assert Join(parts, sep) == s[..k] + [sep] + Join(rest, sep);
      assert s == s[..k] + [sep] + s[k + 1..];
    }
  }

  /** No part of a split contains the separator, and none is longer than the whole. */
  lemma {:induction false} SplitPartsAvoidSeparator(s: string, sep: char)
    decreases |s|
    ensures forall i :: 0 <= i < |Split(s, sep)| ==> sep !in Split(s, sep)[i] && |Split(s, sep)[i]| <= |s|
  {
    if sep in s {
      var k := IndexOf(s, sep);
      SplitPartsAvoidSeparator(s[k + 1..], sep);
      var rest := Split(s[k + 1..], sep);
      assert Split(s, sep) == [s[..k]] + rest;
      forall i | 0 <= i < |Split(s, sep)|
        ensures sep !in Split(s, sep)[i] && |Split(s, sep)[i]| <= |s|
      {
        if i > 0 {
          assert Split(s, sep)[i] == rest[i - 1];
        }
      }
    }
  }

  /** A string without the separator splits into itself alone. */
  lemma SplitWithoutSeparator(s: string, sep: char)
    requires sep !in s
    ensures Split(s, sep) == [s]
  {
  }

  /** A separator with no separator before it ends the first part. */
  lemma SplitAtFirstSeparator(p: string, q: string, sep: char)
    requires sep !in p
    ensures Split(p + [sep] + q, sep) == [p] + Split(q, sep)
  {
    var s := p + [sep] + q;
    assert s[|p|] == sep;
    var k := IndexOf(s, sep);
    assert k == |p| by {
      assert s[..|p|] == p;
    }
    assert s[..k] == p && s[k + 1..] == q;
  }

  /** When `p` holds a separator, the first part of `p + sep + q` is the first part of `p`. */
  lemma SplitBeforeSeparator(p: string, q: string, sep: char)
    requires sep in p
    ensures var j := IndexOf(p, sep);
      Split(p + [sep] + q, sep) == [p[..j]] + Split(p[j + 1..] + [sep] + q, sep)
  {
    var s := p + [sep] + q;
    var j := IndexOf(p, sep);
    var k := IndexOf(s, sep);
    assert k == j by {
      assert s[..|p|] == p;
      assert s[..j] == p[..j];
    }
    assert s[..k] == p[..j];
    assert s[k + 1..] == p[j + 1..] + [sep] + q;
  }

  /** Splitting at one separator splits the two sides independently. */
  lemma {:induction false} SplitAtSeparator(p: string, q: string, sep: char)
    decreases |p|
    ensures Split(p + [sep] + q, sep) == Split(p, sep) + Split(q, sep)
  {
    if sep !in p {
      SplitAtFirstSeparator(p, q, sep);
    } else {
      var j := IndexOf(p, sep);
      SplitBeforeSeparator(p, q, sep);
      SplitAtSeparator(p[j + 1..], q, sep);
      var a, b := Split(p[j + 1..], sep), Split(q, sep);
      assert [p[..j]] + (a + b) == ([p[..j]] + a) + b;
    }
  }
}
