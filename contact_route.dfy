/** The contact endpoint: POST stores a lead and notifies by e-mail when it
    can; GET answers a fixed health message. */
module ContactRoute {
  import opened Common
  import opened Validation
  import opened Tables
  import opened Notification

  datatype ContactBody = ContactBody(
    name: Field<string>,
    phone: Field<string>,
    email: Field<string>,
    postalCode: Field<string>)

  /** `contactSchema`, member by member in its order. Every issue names one
      of the four members. */
  function ContactIssues(b: ContactBody, fmt: Formats): (r: seq<Issue>)
    ensures forall i :: 0 <= i < |r| ==> r[i].path in {"name", "phone", "email", "postalCode"}
  {
    TextIssues("name", b.name, true, [MinLength(2)], fmt)
    + TextIssues("phone", b.phone, true, [MinLength(10)], fmt)
    + TextIssues("email", b.email, true, [Email], fmt)
    + TextIssues("postalCode", b.postalCode, true, [FiveDigits], fmt)
  }

  /** The field rules of `contactSchema`, stated directly: the phone number
      is checked for length only, the postal code for exactly five digits. */
  predicate AcceptableContact(b: ContactBody, fmt: Formats) {
    && b.name.Given? && Utf16Length(b.name.value) >= 2
    && b.phone.Given? && Utf16Length(b.phone.value) >= 10
    && b.email.Given? && fmt.isEmail(b.email.value)
    && b.postalCode.Given? && MatchesFiveDigits(b.postalCode.value)
  }

  /** The schema reports no issue exactly when the field rules hold. */
  lemma ContactIssuesAgree(b: ContactBody, fmt: Formats)
    ensures ContactIssues(b, fmt) == [] <==> AcceptableContact(b, fmt)
  {
    var name := TextIssues("name", b.name, true, [MinLength(2)], fmt);
    var phone := TextIssues("phone", b.phone, true, [MinLength(10)], fmt);
    var email := TextIssues("email", b.email, true, [Email], fmt);
    var postalCode := TextIssues("postalCode", b.postalCode, true, [FiveDigits], fmt);
    assert |ContactIssues(b, fmt)| == |name| + |phone| + |email| + |postalCode|;
  }

  datatype SubmitResponse = Rejected(issues: seq<Issue>) | Received
  {
    function Status(): int {
      if Rejected? then 400 else 200
    }

    function Message(): string {
      if Rejected? then "Datos inválidos" else "Contacto recibido"
    }
  }

  /** The `contacts` table as POST changes it. */
  class ContactTable {
    var rows: seq<Contact>
    var nextId: int   // the AUTO_INCREMENT counter

    ghost predicate Valid()
      reads this
    {
      forall i :: 0 <= i < |rows| ==> rows[i].id < nextId
    }

    constructor()
      ensures Valid()
      ensures rows == [] && nextId == 1
    {
      rows, nextId := [], 1;
    }

    /** POST. An invalid body is answered 400 and writes nothing; a valid one
        adds exactly one row holding the four given values and is answered
        200, whether or not the notice goes out. */
    method Submit(b: ContactBody, fmt: Formats, env: SmtpEnv, delivered: bool, now: int)
      returns (r: SubmitResponse, mail: MailOutcome)
      requires Valid()
      modifies this
      ensures Valid()
      ensures !AcceptableContact(b, fmt) ==>
        r == Rejected(ContactIssues(b, fmt)) && mail == NotAttempted
        && rows == old(rows) && nextId == old(nextId)
      ensures AcceptableContact(b, fmt) ==>
        && rows == old(rows) + [Contact(old(nextId), b.name.value, b.phone.value, b.email.value, b.postalCode.value, now)]
        && nextId == old(nextId) + 1
        && r == Received
        && mail == Notify(env, delivered)
    {
      ContactIssuesAgree(b, fmt);
      var issues := ContactIssues(b, fmt);
      if issues != [] {
        return Rejected(issues), NotAttempted;
      }
      rows := rows + [Contact(nextId, b.name.value, b.phone.value, b.email.value, b.postalCode.value, now)];
      nextId := nextId + 1;
      r := Received;
      mail := Notify(env, delivered);
    }
  }

  datatype HealthResponse = HealthResponse(status: int, message: string)

  /** GET: always 200 with the same message. */
  function Health(): (r: HealthResponse)
    ensures r.status == 200 && r.message == "Endpoint de contacto funcionando correctamente"
  {
    HealthResponse(200, "Endpoint de contacto funcionando correctamente")
  }
}
