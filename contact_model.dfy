/** The contact submission of backend/server.js: its record, the closed
    enumerations of the schema, and the validation that `POST /api/contact`
    runs before anything is stored. */
module ContactModel {
  import opened Wrappers
  import opened JsText
  import opened PhoneGrammar
  import opened ServerValidation

  type Id = nat

  /** Moderation status of a submission. */
  datatype Status = Pending | Contacted | Enrolled | Spam

  function StatusName(st: Status): string {
    match st
    case Pending => "pending"
    case Contacted => "contacted"
    case Enrolled => "enrolled"
    case Spam => "spam"
  }

  /** `['pending', 'contacted', 'enrolled', 'spam'].includes(status)`, which
      compares strictly, so no non-string value is ever included. */
  function ParseStatus(x: JsValue): Option<Status> {
    match x
    case NonString(_) => None
    case Str(s) =>
      if s == "pending" then Some(Pending)
      else if s == "contacted" then Some(Contacted)
      else if s == "enrolled" then Some(Enrolled)
      else if s == "spam" then Some(Spam)
      else None
  }

  /** `ParseStatus` accepts exactly the four status names and inverts `StatusName`. */
  lemma ParseStatusInvertsName(x: JsValue, st: Status)
    ensures ParseStatus(Str(StatusName(st))) == Some(st)
    ensures ParseStatus(x) == Some(st) ==> x == Str(StatusName(st))
  {
    match st
    case Pending =>
    case Contacted =>
    case Enrolled =>
    case Spam =>
  }

  /** The seven courses of the schema's `enum`. */
  datatype Course = English | French | German | Bureautique | Soutien | Medical | Other

  function CourseName(c: Course): string {
    match c
    case English => "english"
    case French => "french"
    case German => "german"
    case Bureautique => "bureautique"
    case Soutien => "soutien"
    case Medical => "medical"
    case Other => "other"
  }

  /** The schema's `enum` check on the `course` path. */
  function ParseCourse(s: string): Option<Course> {
    if s == "english" then Some(English)
    else if s == "french" then Some(French)
    else if s == "german" then Some(German)
    else if s == "bureautique" then Some(Bureautique)
    else if s == "soutien" then Some(Soutien)
    else if s == "medical" then Some(Medical)
    else if s == "other" then Some(Other)
    else None
  }

  /** `ParseCourse` accepts exactly the seven course names and inverts `CourseName`. */
  lemma ParseCourseInvertsName(s: string, c: Course)
    ensures ParseCourse(CourseName(c)) == Some(c)
    ensures ParseCourse(s) == Some(c) ==> s == CourseName(c)
  {
    match c
    case English =>
    case French =>
    case German =>
    case Bureautique =>
    case Soutien =>
    case Medical =>
    case Other =>
  }

  /** A stored submission (a `Contact` document). */
  datatype Contact = Contact(
    id: Id,
    name: string,
    email: string,
    phone: string,
    course: Course,
    message: string,
    ipAddress: string,
    userAgent: string,
    submittedAt: int,
    status: Status)

  /** The five fields of the request body, as whatever JSON values arrived. */
  datatype Submission = Submission(name: JsValue, email: JsValue, phone: JsValue, course: JsValue, message: JsValue)

  /** A JSON reply: the success payload, or an HTTP error status with its message. */
  datatype Response<T> = Ok(body: T) | Err(status: int, error: string)

  /** What the request contributes besides its body: `req.ip`, the User-Agent
      header and the clock reading that becomes `submittedAt`. */
  datatype RequestMeta = RequestMeta(ip: string, userAgent: string, now: int)

  /** The `sanitizedData` object. */
  datatype Sanitized = Sanitized(name: string, email: string, phone: string, course: string, message: string)

  /** The check that turned a submission away with a 400. */
  datatype Problem = MissingField | BadName | BadEmail | BadPhone | BadMessage | Suspicious

  /** How validation ends: a 400 for a problem, an exception (which the handler's
      catch block turns into a 500), or data ready to be saved. */
  datatype Verdict = Rejected(problem: Problem) | Crashed | Accepted(data: Sanitized)

  const MsgRequired := "Tous les champs sont obligatoires"
  const MsgName := "Le nom doit contenir entre 2 et 100 caractères"
  const MsgEmail := "Adresse email invalide"
  const MsgPhone := "Numéro de téléphone marocain invalide"
  const MsgMessage := "Le message doit contenir entre 10 et 2000 caractères"
  const MsgSuspicious := "Contenu suspect détecté"
  const MsgInternal := "Une erreur est survenue. Veuillez réessayer plus tard."
  const MsgSuccess := "Votre demande a été envoyée avec succès. Nous vous contacterons bientôt!"

  /** The `error` text of the 400 reply for each problem; no two are alike, so
      the visitor can tell which check failed. */
  function ErrorMessage(p: Problem): string {
    match p
    case MissingField => MsgRequired
    case BadName => MsgName
    case BadEmail => MsgEmail
    case BadPhone => MsgPhone
    case BadMessage => MsgMessage
    case Suspicious => MsgSuspicious
  }

  /** Different problems are reported with different messages. */
  lemma ErrorMessageIdentifiesProblem(p: Problem, q: Problem)
    ensures ErrorMessage(p) == ErrorMessage(q) <==> p == q
  {
    assert |MsgRequired| == 33 && |MsgName| == 46 && |MsgEmail| == 22;
    assert |MsgPhone| == 37 && |MsgMessage| == 52 && |MsgSuspicious| == 23;
  }

  predicate AllPresent(b: Submission) {
    Truthy(b.name) && Truthy(b.email) && Truthy(b.phone) && Truthy(b.course) && Truthy(b.message)
  }

  /** The validation part of `POST /api/contact`, in the handler's order: required
      fields; building `sanitizedData` (where `normalizeEmail` and `replace` throw
      on a non-string); name length; email (where `isEmail` throws on the `false`
      that `normalizeEmail` may return); phone; message length; denylist scan. */
  function CheckSubmission(v: Validator, b: Submission): Verdict {
    if !AllPresent(b) then Rejected(MissingField)
    else if b.email.NonString? || b.phone.NonString? then Crashed
    else
      var name := SanitizeInput(v, b.name);
      var email := v.normalizeEmail(b.email.s);
      var phone := StripWhitespace(b.phone.s);
      var course := SanitizeInput(v, b.course);
      var message := SanitizeInput(v, b.message);
      if !IsLength(v, name, 2, 100) then Rejected(BadName)
      else if email.None? then Crashed
      else if !v.isEmail(email.value) then Rejected(BadEmail)
      else if !IsValidMoroccanPhone(phone) then Rejected(BadPhone)
      else if !IsLength(v, message, 10, 2000) then Rejected(BadMessage)
      else if ContainsSuspiciousContent(name + " " + message) then Rejected(Suspicious)
      else Accepted(Sanitized(name, email.value, phone, course, message))
  }

  /** A missing or empty field is reported before anything else is looked at,
      and that message means a field was missing. */
  lemma MissingFieldComesFirst(v: Validator, b: Submission)
    ensures CheckSubmission(v, b) == Rejected(MissingField) <==> !AllPresent(b)
  {
  }

  /** Each 400 names the first check that fails, in the handler's order, and
      the first check that fails gives its 400 unless the handler throws before
      reaching it; the message check can only fail for a message that is too
      short, because sanitising already cut it to 1000 characters. */
  lemma RejectionExplained(v: Validator, b: Submission)
    requires Lawful(v)
    ensures CheckSubmission(v, b) == Rejected(BadName) <==>
      AllPresent(b) && b.email.Str? && b.phone.Str? && !IsLength(v, SanitizeInput(v, b.name), 2, 100)
    ensures CheckSubmission(v, b) == Rejected(BadEmail) <==>
      && AllPresent(b) && b.email.Str? && b.phone.Str? && IsLength(v, SanitizeInput(v, b.name), 2, 100)
      && v.normalizeEmail(b.email.s).Some? && !v.isEmail(v.normalizeEmail(b.email.s).value)
    ensures CheckSubmission(v, b) == Rejected(BadPhone) <==>
      && AllPresent(b) && b.email.Str? && b.phone.Str? && IsLength(v, SanitizeInput(v, b.name), 2, 100)
      && v.normalizeEmail(b.email.s).Some? && v.isEmail(v.normalizeEmail(b.email.s).value)
      && !IsValidMoroccanPhone(b.phone.s)
    ensures CheckSubmission(v, b) == Rejected(BadMessage) <==>
      && AllPresent(b) && b.email.Str? && b.phone.Str? && IsLength(v, SanitizeInput(v, b.name), 2, 100)
      && v.normalizeEmail(b.email.s).Some? && v.isEmail(v.normalizeEmail(b.email.s).value)
      && IsValidMoroccanPhone(b.phone.s) && v.lengthOf(SanitizeInput(v, b.message)) < 10
    ensures CheckSubmission(v, b) == Rejected(Suspicious) <==>
      && AllPresent(b) && b.email.Str? && b.phone.Str? && IsLength(v, SanitizeInput(v, b.name), 2, 100)
      && v.normalizeEmail(b.email.s).Some? && v.isEmail(v.normalizeEmail(b.email.s).value)
      && IsValidMoroccanPhone(b.phone.s) && IsLength(v, SanitizeInput(v, b.message), 10, 2000)
      && ContainsSuspiciousContent(SanitizeInput(v, b.name) + " " + SanitizeInput(v, b.message))
  {
    if AllPresent(b) && b.email.Str? && b.phone.Str? {
      StoredPhoneValid(b.phone.s);
    }
  }

  /** The handler throws, and so answers 500, exactly when all fields are
      present and the email or the phone is not a string (`normalizeEmail` and
      `replace` reject it), or when the name passes and `normalizeEmail`
      returned `false`, which `isEmail` rejects. */
  lemma CrashedExactly(v: Validator, b: Submission)
    ensures CheckSubmission(v, b).Crashed? <==>
      && AllPresent(b)
      && (|| b.email.NonString? || b.phone.NonString?
          || (IsLength(v, SanitizeInput(v, b.name), 2, 100) && v.normalizeEmail(b.email.s).None?))
  {
  }

  /** What an accepted submission is known to satisfy: the bounds, the email and
      phone grammar, no '<' anywhere in the escaped fields, name and message
      starting with a non-whitespace character, and no denylisted pattern. */
  lemma AcceptedSubmissionInvariants(v: Validator, b: Submission)
    requires Lawful(v) && CheckSubmission(v, b).Accepted?
    ensures var d := CheckSubmission(v, b).data;
      && 2 <= v.lengthOf(d.name) <= 100 && 2 <= |d.name| <= MaxFieldLength && !IsWhitespace(d.name[0])
      && v.isEmail(d.email)
      && MatchesMobile(d.phone) && NoWhitespace(d.phone)
      && 10 <= v.lengthOf(d.message) && 10 <= |d.message| <= MaxFieldLength && !IsWhitespace(d.message[0])
      && |d.course| <= MaxFieldLength
      && '<' !in d.name && '<' !in d.message && '<' !in d.course
      && !ContainsSuspiciousContent(d.name + " " + d.message)
  {
    var d := CheckSubmission(v, b).data;
    StripIdempotent(b.phone.s);
    MobileHasNoWhitespace(d.phone);
  }

  /** Mongoose's work when the document is saved. First the schema's setters:
      `trim` on the name and the message, `lowercase` on the email. Then its
      validators on the set values: `required` (a non-empty string), the
      `maxlength` bounds, the `isEmail` and phone validators and the course
      `enum`. */
  predicate SchemaAccepts(v: Validator, d: Sanitized) {
    && 0 < |Trim(d.name)| <= 100
    && 0 < |ToLowerCase(d.email)| <= 254 && v.isEmail(ToLowerCase(d.email))
    && d.phone != "" && IsValidMoroccanPhone(d.phone)
    && ParseCourse(d.course).Some?
    && 0 < |Trim(d.message)| <= 2000
  }

  /** `new Contact({...sanitizedData, ipAddress, userAgent})` followed by the
      schema check of `save()`: a record with status `pending` holding the set
      values, or `None` when the schema refuses them. */
  function ToRecord(v: Validator, d: Sanitized, id: Id, meta: RequestMeta): (r: Option<Contact>)
    ensures r.Some? <==> SchemaAccepts(v, d)
    ensures r.Some? ==> r.value.status == Pending && r.value.id == id && r.value.submittedAt == meta.now
    ensures r.Some? ==> CourseName(r.value.course) == d.course
    ensures r.Some? ==> && r.value.name == Trim(d.name) && r.value.email == ToLowerCase(d.email)
                        && r.value.phone == d.phone && r.value.message == Trim(d.message)
    ensures r.Some? ==> r.value.ipAddress == meta.ip && r.value.userAgent == meta.userAgent
    ensures r.Some? ==> 0 < |r.value.name| <= 100 && 0 < |r.value.message| <= 2000 && v.isEmail(r.value.email)
  {
    if SchemaAccepts(v, d) then
      var course := ParseCourse(d.course).value;
      ParseCourseInvertsName(d.course, course);
      Some(Contact(id, Trim(d.name), ToLowerCase(d.email), d.phone, course, Trim(d.message),
                   meta.ip, meta.userAgent, meta.now, Pending))
    else None
  }

  /** The schema rules that the handler's checks leave open: an unknown
      course, a name still over 100 characters once trimmed, an empty or
      over-long email, and an email that `isEmail` refuses once lowercased. */
  lemma SchemaGaps(v: Validator, d: Sanitized)
    requires 2 <= |d.name| && !IsWhitespace(d.name[0])
    requires MatchesMobile(d.phone)
    requires 10 <= |d.message| <= MaxFieldLength && !IsWhitespace(d.message[0])
    ensures !SchemaAccepts(v, d) <==>
      || ParseCourse(d.course).None? || |Trim(d.name)| > 100
      || d.email == "" || |d.email| > 254 || !v.isEmail(ToLowerCase(d.email))
  {
    MobileHasNoWhitespace(d.phone);
    StripFixpoint(d.phone);
    TrimKeepsLeadingText(d.name);
    TrimKeepsLeadingText(d.message);
  }

  /** The course is never checked by the handler itself: after validation has
      accepted a submission, the schema refuses it exactly when the sanitised
      course is not one of the seven, or in the corner cases where the
      `isLength` count and the `maxlength` count of the name part ways, or the
      email is empty, too long or refused by `isEmail` once lowercased (all
      other schema rules are implied by the handler's checks). */
  lemma SchemaGapsAfterValidation(v: Validator, b: Submission)
    requires Lawful(v) && CheckSubmission(v, b).Accepted?
    ensures var d := CheckSubmission(v, b).data;
      !SchemaAccepts(v, d) <==>
        || ParseCourse(d.course).None? || |Trim(d.name)| > 100
        || d.email == "" || |d.email| > 254 || !v.isEmail(ToLowerCase(d.email))
  {
    AcceptedSubmissionInvariants(v, b);
    SchemaGaps(v, CheckSubmission(v, b).data);
  }
}
