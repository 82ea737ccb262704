/** The browser-side checks of the contact form: the e-mail and phone
    patterns, the HTML-escaping `sanitizeInput`, and the order in which the
    submit handler applies its checks before any network call. */
module ClientValidation {
  import opened Wrappers
  import opened JsText
  import opened PhoneGrammar
  import ServerValidation

  // ---------------------------------------------------------------- e-mail

  /** `[^\s@]`: any character but whitespace and '@'. */
  predicate AddressChar(c: char) { !IsWhitespace(c) && c != '@' }

  predicate AddressChars(s: string) {
    forall i :: 0 <= i < |s| ==> AddressChar(s[i])
  }

  /** One way `/^[^\s@]+@[^\s@]+\.[^\s@]+$/` can match `s`: the '@' sits at
      index `at`, the chosen '.' at index `dot`, and the three runs between
      them are non-empty and free of whitespace and '@'. */
  predicate EmailSplit(s: string, at: int, dot: int) {
    && 0 < at && at + 1 < dot && dot + 1 < |s|
    && s[at] == '@' && s[dot] == '.'
    && AddressChars(s[..at]) && AddressChars(s[at + 1..dot]) && AddressChars(s[dot + 1..])
  }

  predicate MatchesEmailPattern(s: string) {
    exists at, dot :: 0 < at < dot < |s| && EmailSplit(s, at, dot)
  }

  const MaxEmailLength := 254

  /** `isValidEmail`: the pattern matches and the address has at most 254 characters. */
  predicate IsValidEmail(email: string) {
    MatchesEmailPattern(email) && |email| <= MaxEmailLength
  }

  /** The shape of an address described without the regular expression: no
      whitespace, a single '@' at index `at` with something before it, and a '.'
      after the '@' that is neither the first nor the last character of the part
      after it. */
  predicate AddressShape(s: string, at: int) {
    && 0 < at < |s| && s[at] == '@'
    && NoWhitespace(s)
    && (forall i :: 0 <= i < |s| && i != at ==> s[i] != '@')
    && (exists k :: at + 1 < k < |s| - 1 && s[k] == '.')
  }

  /** Every valid address has that shape, and its length is bounded. */
  lemma ValidEmailShape(s: string) returns (at: int)
    requires IsValidEmail(s)
    ensures |s| <= MaxEmailLength && AddressShape(s, at)
  {
    var a, dot :| 0 < a < dot < |s| && EmailSplit(s, a, dot);
    at := a;
    forall i | 0 <= i < |s|
      ensures !IsWhitespace(s[i]) && (i != at ==> s[i] != '@')
    {
      if i < at {
        assert s[i] == s[..at][i];
      } else if at < i < dot {
        assert s[i] == s[at + 1..dot][i - at - 1];
      } else if dot < i {
        assert s[i] == s[dot + 1..][i - dot - 1];
      }
    }
    assert at + 1 < dot < |s| - 1 && s[dot] == '.';
  }

  /** Conversely, every short enough string of that shape is a valid address. */
  lemma ShapedEmailValid(s: string, at: int)
    requires AddressShape(s, at) && |s| <= MaxEmailLength
    ensures IsValidEmail(s)
  {
    var k :| at + 1 < k < |s| - 1 && s[k] == '.';
    assert AddressChars(s[..at]) by {
      forall i | 0 <= i < at ensures AddressChar(s[..at][i]) {
        assert s[..at][i] == s[i];
      }
    }
    var host, tld := s[at + 1..k], s[k + 1..];
    assert AddressChars(host) by {
      forall i | 0 <= i < |host| ensures AddressChar(host[i]) {
        assert host[i] == s[at + 1 + i];
      }
    }
    assert AddressChars(tld) by {
      forall i | 0 <= i < |tld| ensures AddressChar(tld[i]) {
        assert tld[i] == s[k + 1 + i];
      }
    }
    assert EmailSplit(s, at, k);
  }

  // ----------------------------------------------------------------- phone

  /** `isValidPhone`: the Moroccan mobile grammar on the input with all
      whitespace removed. */
  predicate IsValidPhone(phone: string) {
    MatchesMobile(StripWhitespace(phone))
  }

  /** Inserting whitespace anywhere never changes the verdict. */
  lemma PhoneIgnoresWhitespace(a: string, w: string, b: string)
    requires forall i :: 0 <= i < |w| ==> IsWhitespace(w[i])
    ensures IsValidPhone(a + w + b) == IsValidPhone(a + b)
  {
    StripIgnoresInsertedWhitespace(a, w, b);
  }

  /** The browser's check and the server's `isValidMoroccanPhone` strip
      whitespace and test the same regular expression, so both rest on
      `PhoneGrammar`; they accept exactly the same phone numbers. */
  lemma PhoneAgreesWithServer(phone: string)
    ensures IsValidPhone(phone) <==> ServerValidation.IsValidMoroccanPhone(phone)
  {
  }

  // ------------------------------------------------------------ sanitising

  /** `s.replace(/c/g, rep)`: every occurrence of `c` replaced by `rep`. */
  function ReplaceAll(s: string, c: char, rep: string): (r: string)
    ensures c !in rep ==> c !in r
    ensures c !in s ==> r == s
  {
    if s == [] then []
    else (if s[0] == c then rep else [s[0]]) + ReplaceAll(s[1..], c, rep)
  }

  /** Replacing brings in no character that neither the text nor the replacement had. */
  lemma {:induction false} ReplaceAllAddsNothing(s: string, c: char, rep: string, d: char)
    requires d !in s && d !in rep
    ensures d !in ReplaceAll(s, c, rep)
  {
    if s != [] {
      assert d !in s[1..] by { assert forall x :: x in s[1..] ==> x in s; }
      ReplaceAllAddsNothing(s[1..], c, rep, d);
    }
  }

  /** `s.replace(...)` applied once per row of `table`, first row first. */
  function ReplaceEach(s: string, table: seq<(char, string)>): (r: string)
    decreases |table|
  {
    if table == [] then s else ReplaceEach(ReplaceAll(s, table[0].0, table[0].1), table[1..])
  }

  /** A character in neither the text nor any replacement stays absent. */
  lemma {:induction false} ReplaceEachAddsNothing(s: string, table: seq<(char, string)>, d: char)
    requires d !in s && forall j :: 0 <= j < |table| ==> d !in table[j].1
    ensures d !in ReplaceEach(s, table)
    decreases |table|
  {
    if table != [] {
      ReplaceAllAddsNothing(s, table[0].0, table[0].1, d);
      ReplaceEachAddsNothing(ReplaceAll(s, table[0].0, table[0].1), table[1..], d);
    }
  }

  /** The character of row `k` is gone from the result as long as neither its
      own replacement nor any later one brings it back. */
  lemma {:induction false} ReplaceEachRemoves(s: string, table: seq<(char, string)>, k: nat)
    requires k < |table| && forall j :: k <= j < |table| ==> table[k].0 !in table[j].1
    ensures table[k].0 !in ReplaceEach(s, table)
    decreases k
  {
    var r1 := ReplaceAll(s, table[0].0, table[0].1);
    if k == 0 {
      ReplaceEachAddsNothing(r1, table[1..], table[0].0);
    } else {
      ReplaceEachRemoves(r1, table[1..], k - 1);
    }
  }

  /** Text holding none of the replaced characters is left as it is. */
  lemma {:induction false} ReplaceEachKeepsUntouched(s: string, table: seq<(char, string)>)
    requires forall j :: 0 <= j < |table| ==> table[j].0 !in s
    ensures ReplaceEach(s, table) == s
    decreases |table|
  {
    if table != [] {
      ReplaceEachKeepsUntouched(s, table[1..]);
    }
  }

  /** The replace chain of `sanitizeInput`, in the order the code applies it. */
  const EscapeTable: seq<(char, string)> :=
    [('<', "&lt;"), ('>', "&gt;"), ('"', "&quot;"), ('\'', "&#x27;"), ('/', "&#x2F;")]

  /** The five characters `sanitizeInput` escapes. */
  predicate IsMarkupChar(c: char) {
    c == '<' || c == '>' || c == '"' || c == '\'' || c == '/'
  }

  predicate FreeOfMarkup(s: string) {
    forall i :: 0 <= i < |s| ==> !IsMarkupChar(s[i])
  }

  function EscapeMarkup(s: string): string {
    ReplaceEach(s, EscapeTable)
  }

  /** No entity of the table holds its own character or that of an earlier row. */
  lemma EscapeTableOrdered(k: nat)
    requires k < |EscapeTable|
    ensures forall j :: k <= j < |EscapeTable| ==> EscapeTable[k].0 !in EscapeTable[j].1
  {
  }

  /** Row `k`'s character is gone after the whole chain. */
  lemma EscapeRemovesRow(s: string, k: nat)
    requires k < |EscapeTable|
    ensures EscapeTable[k].0 !in EscapeMarkup(s)
  {
    EscapeTableOrdered(k);
    ReplaceEachRemoves(s, EscapeTable, k);
  }

  /** None of the five characters survives the chain, and text without them
      passes through it unchanged. */
  lemma EscapeMarkupSpec(s: string)
    ensures FreeOfMarkup(EscapeMarkup(s))
    ensures FreeOfMarkup(s) ==> EscapeMarkup(s) == s
  {
    var r := EscapeMarkup(s);
    EscapeRemovesRow(s, 0);
    EscapeRemovesRow(s, 1);
    EscapeRemovesRow(s, 2);
    EscapeRemovesRow(s, 3);
    EscapeRemovesRow(s, 4);
    forall i | 0 <= i < |r| ensures !IsMarkupChar(r[i]) {
      assert r[i] in r;
    }
    if FreeOfMarkup(s) {
      forall j | 0 <= j < |EscapeTable| ensures EscapeTable[j].0 !in s {
        assert IsMarkupChar(EscapeTable[j].0);
      }
      ReplaceEachKeepsUntouched(s, EscapeTable);
    }
  }

  const MaxInputLength := 1000

  /** The browser's `sanitizeInput`: escape, trim, keep the first 1000 characters. */
  function SanitizeInput(input: JsValue): (r: string)
  {
    match input
    case NonString(_) => ""
    case Str(s) => Take(Trim(EscapeMarkup(s)), MaxInputLength)
  }

  /** What the function promises: non-strings become the empty string, and
      otherwise the result is short and holds none of the five characters,
      since none of the entities put in their place contains one. */
  lemma SanitizeInputSafe(input: JsValue)
    ensures !input.Str? ==> SanitizeInput(input) == ""
    ensures |SanitizeInput(input)| <= MaxInputLength
    ensures FreeOfMarkup(SanitizeInput(input))
  {
    if input.Str? {
      var e := EscapeMarkup(input.s);
      EscapeMarkupSpec(input.s);
      var r := SanitizeInput(input);
      forall i | 0 <= i < |r| ensures !IsMarkupChar(r[i]) {
        assert r[i] in Trim(e);
        var j :| 0 <= j < |e| && e[j] == r[i];
      }
    }
  }

  /** Text that already has none of the five characters, no surrounding
      whitespace and at most 1000 characters comes back unchanged. */
  lemma SanitizeInputKeepsCleanText(s: string)
    requires FreeOfMarkup(s) && |s| <= MaxInputLength
    requires s == [] || (!IsWhitespace(s[0]) && !IsWhitespace(s[|s| - 1]))
    ensures SanitizeInput(Str(s)) == s
  {
    EscapeMarkupSpec(s);
    TrimKeepsTrimmed(s);
  }

  /** A lone character replaced by its own row becomes the replacement. */
  lemma ReplaceAllSingle(c: char, rep: string)
    ensures ReplaceAll([c], c, rep) == rep
  {
    assert [c][1..] == [];
    assert ReplaceAll([c], c, rep) == rep + ReplaceAll([], c, rep);
  }

  /** A lone character of the table's first row becomes that row's entity. */
  lemma EscapeOfFirstRow(c: char, rep: string, rest: seq<(char, string)>)
    requires forall j :: 0 <= j < |rest| ==> rest[j].0 !in rep
    ensures ReplaceEach([c], [(c, rep)] + rest) == rep
  {
    var table := [(c, rep)] + rest;
    calc {
      ReplaceEach([c], table);
      { assert table[0] == (c, rep) && table[1..] == rest; }
      ReplaceEach(ReplaceAll([c], c, rep), rest);
      { ReplaceAllSingle(c, rep); }
      ReplaceEach(rep, rest);
      { ReplaceEachKeepsUntouched(rep, rest); }
      rep;
    }
  }

  lemma EscapeOfLessThan()
    ensures EscapeMarkup("<") == "&lt;"
  {
    var rest := EscapeTable[1..];
    assert EscapeTable == [('<', "&lt;")] + rest;
    forall j | 0 <= j < |rest| ensures rest[j].0 !in "&lt;" {
      assert IsMarkupChar(rest[j].0);
    }
    EscapeOfFirstRow('<', "&lt;", rest);
  }

  /** Two texts that escape alike are sanitised alike. */
  lemma SanitizeInputFollowsEscape(a: string, b: string)
    requires EscapeMarkup(a) == EscapeMarkup(b)
    ensures SanitizeInput(Str(a)) == SanitizeInput(Str(b))
  {
  }

  /** '&' is left alone, so a typed "<" and a typed "&lt;" come out the same:
      the escaping cannot be undone. */
  lemma SanitizeInputNotInjective()
    ensures SanitizeInput(Str("<")) == SanitizeInput(Str("&lt;")) == "&lt;"
  {
    var lt := "&lt;";
    assert FreeOfMarkup(lt) && |lt| <= MaxInputLength && !IsWhitespace(lt[0]) && !IsWhitespace(lt[|lt| - 1]);
    SanitizeInputKeepsCleanText(lt);
    EscapeMarkupSpec(lt);
    EscapeOfLessThan();
    SanitizeInputFollowsEscape("<", lt);
  }

  // ------------------------------------------------------------ form check

  /** The five field values the submit handler reads from the form. */
  datatype FormValues = FormValues(name: string, email: string, phone: string, course: string, message: string)

  const MsgFillAll := "Veuillez remplir tous les champs obligatoires"
  const MsgBadEmail := "Veuillez entrer une adresse email valide"
  const MsgBadPhone := "Veuillez entrer un numéro de téléphone valide"

  predicate AllFilled(f: FormValues) {
    f.name != "" && f.email != "" && f.phone != "" && f.course != "" && f.message != ""
  }

  /** The checks of the submit handler, in order; `None` lets the submission go out. */
  function LocalCheck(f: FormValues): (r: Option<string>)
  {
    if !AllFilled(f) then Some(MsgFillAll)
    else if !IsValidEmail(f.email) then Some(MsgBadEmail)
    else if !IsValidPhone(f.phone) then Some(MsgBadPhone)
    else None
  }

  /** The first failing check decides the message, and a form passes exactly
      when all three hold. */
  lemma LocalCheckOrder(f: FormValues)
    ensures LocalCheck(f) == None <==> AllFilled(f) && IsValidEmail(f.email) && IsValidPhone(f.phone)
    ensures LocalCheck(f) == Some(MsgFillAll) <==> !AllFilled(f)
    ensures LocalCheck(f) == Some(MsgBadEmail) <==> AllFilled(f) && !IsValidEmail(f.email)
    ensures LocalCheck(f) == Some(MsgBadPhone) <==>
      AllFilled(f) && IsValidEmail(f.email) && !IsValidPhone(f.phone)
  {
  }
}
