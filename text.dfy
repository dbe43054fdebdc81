/** The parts of JavaScript string semantics the code relies on: truthiness of an optional
    string and `String.prototype.trim`. */
module JsText {
  import opened Wrappers

  /** JavaScript truthiness of a value that is either a string or `undefined`/`null`:
      only a present, non-empty string is truthy. */
  predicate Truthy(o: Option<string>) {
    o.Some? && o.value != ""
  }

  /** WhiteSpace and LineTerminator code points of ECMAScript (sections 12.2 and 12.3 of ECMA-262),
      the characters `trim` removes. */
  predicate IsWhitespace(c: char) {
    var n := c as int;
    || n == 0x09 || n == 0x0A || n == 0x0B || n == 0x0C || n == 0x0D || n == 0x20
    || n == 0xA0 || n == 0x1680 || (0x2000 <= n <= 0x200A)
    || n == 0x2028 || n == 0x2029 || n == 0x202F || n == 0x205F || n == 0x3000 || n == 0xFEFF
  }

  /** Every character of `s` is whitespace (the empty string included). */
  predicate IsBlank(s: string) {
    forall i | 0 <= i < |s| :: IsWhitespace(s[i])
  }

  /** `s` neither starts nor ends with whitespace. */
  predicate IsTrimmed(s: string) {
    s == [] || (!IsWhitespace(s[0]) && !IsWhitespace(s[|s| - 1]))
  }

  /** `s.trim()`: the substring of `s` left after removing whitespace at both ends. It starts
      and ends with a non-whitespace character, and it is empty exactly when `s` is blank. */
  function Trim(s: string): (r: string)
    ensures |r| <= |s|
    ensures IsTrimmed(r)
    ensures r == [] <==> IsBlank(s)
  {
    if s != [] && IsWhitespace(s[0]) then
      assert forall i | 1 <= i < |s| :: s[i] == s[1..][i - 1];
      Trim(s[1..])
    else if s != [] && IsWhitespace(s[|s| - 1]) then
      assert forall i | 0 <= i < |s| - 1 :: s[i] == s[..|s| - 1][i];
      Trim(s[..|s| - 1])
    else
      s
  }

  /** Trimming whitespace padding around a trimmed non-empty core gives back the core exactly. */
  lemma {:induction false} TrimOfPadded(p: string, t: string, q: string)
    requires IsBlank(p) && IsBlank(q) && IsTrimmed(t) && t != []
    ensures Trim(p + t + q) == t
    decreases |p| + |q|
  {
    var s := p + t + q;
    if p != [] {
      assert s[0] == p[0];
      assert s[1..] == p[1..] + t + q;
      TrimOfPadded(p[1..], t, q);
    } else if q != [] {
      assert s == t + q;
      assert s[0] == t[0] && s[|s| - 1] == q[|q| - 1];
      assert s[..|s| - 1] == [] + t + q[..|q| - 1];
      TrimOfPadded([], t, q[..|q| - 1]);
    } else {
      assert s == t;
    }
  }

  /** Trimming twice is the same as trimming once. */
  lemma TrimIdempotent(s: string)
    ensures Trim(Trim(s)) == Trim(s)
  {
  }
}
