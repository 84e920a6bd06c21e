/** The JavaScript values that reach the handlers after JSON body parsing,
    and the two pieces of JavaScript semantics the handlers depend on:
    truthiness (`!x`, `x && y`, `x || d`) and `String.prototype.toLowerCase`
    applied to the `completed` query parameter. */
module JsValues {

  /** A field of a JSON request body. `Undefined` is a field the client left
      out; `Object` stands for any JSON array or object (all of them truthy,
      and none of them strictly equal to a string or a boolean). Numbers are
      kept as reals. A literal too large for a double parses to `Infinity`;
      that value is truthy like every other non-zero number, and the
      handlers look at a number only for its truthiness and its inequality
      to strings and booleans. */
  datatype JsValue =
    | Undefined
    | Null
    | Bool(b: bool)
    | Num(n: real)
    | Str(s: string)
    | Object

  /** JavaScript truthiness: `undefined`, `null`, `false`, `0`, `-0` and the
      empty string are falsy; every other value is truthy. */
  predicate Truthy(v: JsValue) {
    match v
    case Undefined => false
    case Null => false
    case Bool(b) => b
    case Num(n) => n != 0.0
    case Str(s) => s != ""
    case Object => true
  }

  /** Among the values a JSON body can carry, exactly these five are falsy
      (`-0` is the same real as `0`). */
  lemma FalsyValues(v: JsValue)
    ensures !Truthy(v) <==> v in {Undefined, Null, Bool(false), Num(0.0), Str("")}
  {
  }

  /** JavaScript `v || d`: `v` when it is truthy, otherwise `d`. */
  function Or(v: JsValue, d: JsValue): JsValue {
    if Truthy(v) then v else d
  }

  /** Lower-cases one character. Only the ASCII letters are folded. */
  function LowerChar(c: char): char {
    if 'A' <= c <= 'Z' then (c as int - 'A' as int + 'a' as int) as char else c
  }

  /** `s.toLowerCase()` on ASCII letters only (non-ASCII capitals, which
      JavaScript also folds, are kept here): the result has the same length and
      no capital letter left; each capital becomes the small letter 32 code
      points above it, and every other character stays as it was. */
  function ToLower(s: string): (r: string)
    ensures |r| == |s|
    ensures forall i :: 0 <= i < |r| ==> !('A' <= r[i] <= 'Z')
    ensures forall i :: 0 <= i < |s| && 'A' <= s[i] <= 'Z' ==> r[i] as int == s[i] as int + 32
    ensures forall i :: 0 <= i < |s| && !('A' <= s[i] <= 'Z') ==> r[i] == s[i]
  {
    seq(|s|, i requires 0 <= i < |s| => LowerChar(s[i]))
  }

  /** Lower-casing a lower-cased text changes nothing more. */
  lemma ToLowerIdempotent(s: string)
    ensures ToLower(ToLower(s)) == ToLower(s)
  {
    var once := ToLower(s);
    var twice := ToLower(once);
    assert forall i :: 0 <= i < |s| ==> twice[i] == once[i];
  }

  /** `q.toLowerCase() === 'true'`: how the list handler reads its
      `completed` query parameter. */
  predicate IsTrueText(q: string) {
    ToLower(q) == "true"
  }

  /** The query reads as `true` exactly when it spells "true" in any mix of
      upper and lower case; every other text reads as `false`. */
  lemma IsTrueTextIff(q: string)
    ensures IsTrueText(q) <==>
      && |q| == 4
      && q[0] in "tT" && q[1] in "rR" && q[2] in "uU" && q[3] in "eE"
  {
    var l := ToLower(q);
    if |q| == 4 && q[0] in "tT" && q[1] in "rR" && q[2] in "uU" && q[3] in "eE" {
      assert l == "true";
    }
    if IsTrueText(q) {
      assert l[0] == 't' && l[1] == 'r' && l[2] == 'u' && l[3] == 'e';
    }
  }
}
