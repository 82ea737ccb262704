/** The few JavaScript string operations the site relies on: the `\s` character
    class, `String.prototype.trim`, `replace(/\s/g, '')`, `substring(0, n)` and
    ASCII case folding for `/i` regular expressions. */
module JsText {

  /** A JavaScript value as the handlers observe it: a string, or some other value
      (number, boolean, object, `undefined`, ...) of which the code only ever
      inspects its truthiness and its `typeof`. */
  datatype JsValue = Str(s: string) | NonString(truthy: bool)

  /** JavaScript truthiness; the empty string is falsy. */
  predicate Truthy(v: JsValue) {
    match v
    case Str(s) => s != ""
    case NonString(t) => t
  }

  /** The characters matched by `\s` and removed by `trim()`: WhiteSpace and
      LineTerminator of ECMAScript. */
  predicate IsWhitespace(c: char) {
    || c == ' ' || c == '\t' || c == '\n' || c == '\r' || c == '\U{0B}' || c == '\U{0C}'
    || c == '\U{A0}' || c == '\U{1680}' || ('\U{2000}' <= c <= '\U{200A}')
    || c == '\U{2028}' || c == '\U{2029}' || c == '\U{202F}' || c == '\U{205F}'
    || c == '\U{3000}' || c == '\U{FEFF}'
  }

  predicate IsDigit(c: char) { '0' <= c <= '9' }

  /** `\w` outside Unicode mode. */
  predicate IsWordChar(c: char) {
    ('a' <= c <= 'z') || ('A' <= c <= 'Z') || IsDigit(c) || c == '_'
  }

  /** Case folding as a non-Unicode `/i` regular expression applies it to the
      ASCII letters of the patterns used here. */
  function Lower(c: char): (d: char)
    ensures 'A' <= c <= 'Z' ==> d as int == c as int + 32
    ensures !('A' <= c <= 'Z') ==> d == c
  {
    if 'A' <= c <= 'Z' then (c as int + 32) as char else c
  }

  predicate NoWhitespace(s: string) {
    forall i :: 0 <= i < |s| ==> !IsWhitespace(s[i])
  }

  /** `s.replace(/\s/g, '')`: the non-whitespace characters of `s`, in order. */
  function StripWhitespace(s: string): (r: string)
    ensures NoWhitespace(r)
    ensures |r| <= |s|
    ensures forall c :: c in r ==> c in s
  {
    if s == [] then []
    else if IsWhitespace(s[0]) then StripWhitespace(s[1..])
    else [s[0]] + StripWhitespace(s[1..])
  }

  /** Stripping works piecewise over a concatenation. */
  lemma {:induction false} StripConcat(a: string, b: string)
    ensures StripWhitespace(a + b) == StripWhitespace(a) + StripWhitespace(b)
  {
    if a == [] {
      assert a + b == b;
    } else {
      assert (a + b)[0] == a[0] && (a + b)[1..] == a[1..] + b;
      StripConcat(a[1..], b);
    }
  }

  /** A string without whitespace is its own stripped form, and only such a string is. */
  lemma {:induction false} StripFixpoint(s: string)
    ensures StripWhitespace(s) == s <==> NoWhitespace(s)
  {
    if s != [] && NoWhitespace(s) {
      assert NoWhitespace(s[1..]);
      StripFixpoint(s[1..]);
    }
  }

  /** Stripping twice is stripping once. */
  lemma StripIdempotent(s: string)
    ensures StripWhitespace(StripWhitespace(s)) == StripWhitespace(s)
  {
    StripFixpoint(StripWhitespace(s));
  }

  /** Inserting whitespace anywhere does not change the stripped form. */
  lemma StripIgnoresInsertedWhitespace(a: string, w: string, b: string)
    requires forall i :: 0 <= i < |w| ==> IsWhitespace(w[i])
    ensures StripWhitespace(a + w + b) == StripWhitespace(a + b)
  {
    calc {
      StripWhitespace(a + w + b);
      { StripConcat(a + w, b); }
      StripWhitespace(a + w) + StripWhitespace(b);
      { StripConcat(a, w); StripAllWhitespace(w); }
      StripWhitespace(a) + [] + StripWhitespace(b);
      { assert StripWhitespace(a) + [] == StripWhitespace(a); }
      StripWhitespace(a) + StripWhitespace(b);
      { StripConcat(a, b); }
      StripWhitespace(a + b);
    }
  }

  lemma {:induction false} StripAllWhitespace(w: string)
    requires forall i :: 0 <= i < |w| ==> IsWhitespace(w[i])
    ensures StripWhitespace(w) == []
  {
    if w != [] {
      StripAllWhitespace(w[1..]);
    }
  }

  /** `s.trimStart()`: the suffix of `s` after its leading whitespace. */
  function TrimStart(s: string): (r: string)
    ensures |r| <= |s| && r == s[|s| - |r|..]
    ensures r == [] || !IsWhitespace(r[0])
    ensures forall i :: 0 <= i < |s| - |r| ==> IsWhitespace(s[i])
  {
    if s != [] && IsWhitespace(s[0]) then TrimStart(s[1..]) else s
  }

  /** `s.trimEnd()`: the prefix of `s` before its trailing whitespace. */
  function TrimEnd(s: string): (r: string)
    ensures |r| <= |s| && r == s[..|r|]
    ensures r == [] || !IsWhitespace(r[|r| - 1])
    ensures forall i :: |r| <= i < |s| ==> IsWhitespace(s[i])
  {
    if s != [] && IsWhitespace(s[|s| - 1]) then TrimEnd(s[..|s| - 1]) else s
  }

  /** `s.trim()`. */
  function Trim(s: string): (r: string)
    ensures |r| <= |s| && forall c :: c in r ==> c in s
    ensures r == [] || (!IsWhitespace(r[0]) && !IsWhitespace(r[|r| - 1]))
  {
    TrimEnd(TrimStart(s))
  }

  /** What `trim()` guarantees: a contiguous piece of the input, with only
      whitespace cut away on either side, and no whitespace left at its ends. */
  lemma TrimShape(s: string) returns (i: nat)
    ensures i + |Trim(s)| <= |s| && Trim(s) == s[i..i + |Trim(s)|]
    ensures forall k :: 0 <= k < i ==> IsWhitespace(s[k])
    ensures forall k :: i + |Trim(s)| <= k < |s| ==> IsWhitespace(s[k])
    ensures Trim(s) == [] || (!IsWhitespace(Trim(s)[0]) && !IsWhitespace(Trim(s)[|Trim(s)| - 1]))
  {
    var t := TrimStart(s);
    i := |s| - |t|;
    TrimEndInside(s, i, t);
  }

  /** The trailing-whitespace half of `TrimShape`, for `t` the suffix of `s`
      from `i` on. */
  lemma TrimEndInside(s: string, i: nat, t: string)
    requires i <= |s| && t == s[i..] && (t == [] || !IsWhitespace(t[0]))
    ensures var r := TrimEnd(t);
      && i + |r| <= |s| && r == s[i..i + |r|]
      && (forall k :: i + |r| <= k < |s| ==> IsWhitespace(s[k]))
      && (r == [] || (!IsWhitespace(r[0]) && !IsWhitespace(r[|r| - 1])))
  {
    var r := TrimEnd(t);
    forall k | i + |r| <= k < |s| ensures IsWhitespace(s[k]) {
      assert s[k] == t[k - i];
    }
    if r != [] {
      assert r[0] == t[0];
    }
  }

  /** Trimming leaves a string without surrounding whitespace as it is. */
  lemma TrimKeepsTrimmed(s: string)
    requires s == [] || (!IsWhitespace(s[0]) && !IsWhitespace(s[|s| - 1]))
    ensures Trim(s) == s
  {
  }

  /** Text that starts with a non-whitespace character does not trim to nothing. */
  lemma TrimKeepsLeadingText(s: string)
    requires s != [] && !IsWhitespace(s[0])
    ensures Trim(s) != []
  {
    var i := TrimShape(s);
  }

  /** `s.toLowerCase()` on the ASCII letters; other characters are kept. */
  function ToLowerCase(s: string): (r: string)
    ensures |r| == |s|
    ensures forall i :: 0 <= i < |s| ==> r[i] == Lower(s[i])
  {
    seq(|s|, i requires 0 <= i < |s| => Lower(s[i]))
  }

  /** `s.substring(0, n)`. */
  function Take(s: string, n: nat): (r: string)
    ensures |r| <= n && r <= s
    ensures |r| == if |s| <= n then |s| else n
    ensures |s| <= n ==> r == s
  {
    if |s| <= n then s else s[..n]
  }
}
