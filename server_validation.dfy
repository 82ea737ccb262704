/** The security helpers of the Express server (backend/server.js): input
    sanitisation, the Moroccan phone check and the denylist scan. */
module ServerValidation {
  import opened Wrappers
  import opened JsText
  import opened PhoneGrammar

  /** The four functions of the `validator` package that the server calls. Their
      internals are not part of this model: each is an arbitrary function, and
      `Lawful` states the only facts the server's logic relies on. */
  datatype Validator = Validator(
    escape: string -> string,
    // `normalizeEmail` returns `false` (here `None`) for some inputs
    normalizeEmail: string -> Option<string>,
    isEmail: string -> bool,
    // the count that `isLength` compares with its bounds
    lengthOf: string -> nat)

  /** Escaping removes '<', and `isLength` never counts more characters than the
      string has (it counts a surrogate pair or a variation selector as one). */
  ghost predicate Lawful(v: Validator) {
    && (forall s :: '<' !in v.escape(s))
    && (forall s :: v.lengthOf(s) <= |s|)
  }

  /** `validator.isLength(s, { min, max })`. */
  predicate IsLength(v: Validator, s: string, min: nat, max: nat) {
    min <= v.lengthOf(s) <= max
  }

  const MaxFieldLength: nat := 1000

  /** `sanitizeInput`: non-strings become the empty string; strings are escaped,
      trimmed and cut to 1000 characters. */
  function SanitizeInput(v: Validator, input: JsValue): (r: string)
    ensures |r| <= MaxFieldLength
    ensures input.NonString? ==> r == ""
    ensures Lawful(v) ==> '<' !in r
    ensures Lawful(v) ==> v.lengthOf(r) <= MaxFieldLength
    ensures r == [] || !IsWhitespace(r[0])
  {
    match input
    case NonString(_) => ""
    case Str(s) =>
      Take(Trim(v.escape(s)), MaxFieldLength)
  }

  /** `isValidMoroccanPhone`. */
  predicate IsValidMoroccanPhone(phone: string) {
    MatchesMobile(StripWhitespace(phone))
  }

  /** The server's phone verdict ignores whitespace wherever it is inserted. */
  lemma MoroccanPhoneIgnoresWhitespace(a: string, w: string, b: string)
    requires forall i :: 0 <= i < |w| ==> IsWhitespace(w[i])
    ensures IsValidMoroccanPhone(a + w + b) == IsValidMoroccanPhone(a + b)
  {
    StripIgnoresInsertedWhitespace(a, w, b);
  }

  /** The phone the handler stores (`phone.replace(/\s/g, '')`) passes the check
      exactly when the raw phone does. */
  lemma StoredPhoneValid(phone: string)
    ensures IsValidMoroccanPhone(StripWhitespace(phone)) == IsValidMoroccanPhone(phone)
  {
    StripIdempotent(phone);
  }

  // ---------------------------------------------------------------------------
  // containsSuspiciousContent: six case-insensitive regular expressions

  /** `pat` (lower-case ASCII) occurs in `t` at index `i`, ignoring ASCII case. */
  predicate OccursAt(t: string, i: int, pat: string) {
    0 <= i && i + |pat| <= |t| && forall k :: 0 <= k < |pat| ==> Lower(t[i + k]) == pat[k]
  }

  /** `new RegExp(pat, 'i').test(t)` for a pattern without metacharacters. */
  predicate Occurs(t: string, pat: string) {
    exists i | 0 <= i <= |t| :: OccursAt(t, i, pat)
  }

  /** `/on\w+\s*=/i` matches `t[i..k+1]`: "on", the word characters `t[i+2..j]`
      (at least one), the whitespace `t[j..k]`, and '=' at `k`. */
  predicate HandlerAt(t: string, i: int, j: int, k: int) {
    && 0 <= i && i + 2 < j <= k < |t|
    && Lower(t[i]) == 'o' && Lower(t[i + 1]) == 'n'
    && (forall m :: i + 2 <= m < j ==> IsWordChar(t[m]))
    && (forall m :: j <= m < k ==> IsWhitespace(t[m]))
    && t[k] == '='
  }

  predicate HasEventHandler(t: string) {
    exists i, j, k | 0 <= i < j <= k < |t| :: HandlerAt(t, i, j, k)
  }

  /** `containsSuspiciousContent`: one of `/<script/i`, `/javascript:/i`,
      `/on\w+\s*=/i`, `/eval\(/i`, `/document\./i`, `/window\./i` matches. */
  predicate ContainsSuspiciousContent(text: string) {
    || Occurs(text, "<script")
    || Occurs(text, "javascript:")
    || HasEventHandler(text)
    || Occurs(text, "eval(")
    || Occurs(text, "document.")
    || Occurs(text, "window.")
  }

  lemma OccursInContext(a: string, t: string, b: string, pat: string)
    requires Occurs(t, pat)
    ensures Occurs(a + t + b, pat)
  {
    var i :| 0 <= i <= |t| && OccursAt(t, i, pat);
    var u := a + t + b;
    forall k | 0 <= k < |pat| ensures Lower(u[|a| + i + k]) == pat[k] {
      assert u[|a| + i + k] == t[i + k];
    }
    assert OccursAt(u, |a| + i, pat);
  }

  /** The scan is monotone: text that is flagged on its own is still flagged
      inside any larger text, such as `name + " " + message`. */
  lemma SuspiciousInContext(a: string, t: string, b: string)
    requires ContainsSuspiciousContent(t)
    ensures ContainsSuspiciousContent(a + t + b)
  {
    var u := a + t + b;
    if HasEventHandler(t) {
      var i, j, k :| 0 <= i < j <= k < |t| && HandlerAt(t, i, j, k);
      var d := |a|;
      forall m | 0 <= m < |t| ensures u[d + m] == t[m] { }
      assert HandlerAt(u, d + i, d + j, d + k);
    } else if Occurs(t, "<script") {
      OccursInContext(a, t, b, "<script");
    } else if Occurs(t, "javascript:") {
      OccursInContext(a, t, b, "javascript:");
    } else if Occurs(t, "eval(") {
      OccursInContext(a, t, b, "eval(");
    } else if Occurs(t, "document.") {
      OccursInContext(a, t, b, "document.");
    } else {
      OccursInContext(a, t, b, "window.");
    }
  }

  /** Without a '<' in the text, the `/<script/i` pattern cannot match. */
  lemma NoScriptWithoutAngle(t: string)
    requires '<' !in t
    ensures !Occurs(t, "<script")
  {
    forall i | 0 <= i <= |t| ensures !OccursAt(t, i, "<script") {
      if i < |t| {
        assert t[i] in t;
        assert Lower(t[i + 0]) != "<script"[0];
      }
    }
  }

  /** The scan runs on sanitised text, which a lawful `escape` has cleared of
      '<'; so the `/<script/i` pattern never fires there, and the verdict rests
      on the other five patterns alone. */
  lemma ScanOfSanitisedText(v: Validator, name: JsValue, message: JsValue)
    requires Lawful(v)
    ensures var text := SanitizeInput(v, name) + " " + SanitizeInput(v, message);
      ContainsSuspiciousContent(text) <==>
        || Occurs(text, "javascript:") || HasEventHandler(text) || Occurs(text, "eval(")
        || Occurs(text, "document.") || Occurs(text, "window.")
  {
    var text := SanitizeInput(v, name) + " " + SanitizeInput(v, message);
    assert '<' !in text;
    NoScriptWithoutAngle(text);
  }
}
