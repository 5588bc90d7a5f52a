/**
  Sending a report to a doctor: the request the report screen posts, and the
  server route that checks it, builds the message with the PDF attached and
  hands it to the mail transport.
 */
module ReportEmail {

  import opened Wrappers
  import opened JsValues
  import opened Base64

  /** The JSON body of the request; a field the client left out is `Undefined`. */
  datatype RequestBody = RequestBody(
    email: Nullable<string>,
    patientId: Nullable<string>,
    remarks: Nullable<string>,
    pdfBase64: Nullable<string>)

  datatype Attachment = Attachment(filename: string, content: seq<byte>, contentType: string)

  /** The message handed to the transport; the sender is the configured account, if any. */
  datatype MailOptions = MailOptions(
    from: Nullable<string>,
    to: string,
    subject: string,
    text: string,
    attachments: seq<Attachment>)

  datatype ResponseBody = Sent | Failed(error: string)

  /** A JSON response: its status and body. */
  datatype Response = Response(status: nat, body: ResponseBody)

  const MissingFields: string := "Missing required fields"
  const DefaultFailure: string := "Failed to send email"

  /** The route's guard: recipient, patient id and PDF are all present and non-empty; remarks are optional. */
  predicate HasRequiredFields(b: RequestBody) {
    TruthyStr(b.email) && TruthyStr(b.patientId) && TruthyStr(b.pdfBase64)
  }

  /** The message body: the doctor's remarks behind a label, or a stock line when there are none. */
  function MailText(remarks: Nullable<string>): (text: string)
    ensures TruthyStr(remarks) ==> text == "Doctor Remarks: " + remarks.v
    ensures !TruthyStr(remarks) ==> text == "Patient report attached."
  {
    if TruthyStr(remarks) then "Doctor Remarks: " + remarks.v else "Patient report attached."
  }

  /**
    The message for a request that passed the guard: addressed to the given
    e-mail, subject and attachment name carrying the patient id, and one PDF
    attachment holding the decoded bytes.
   */
  function BuildMail(b: RequestBody, from: Nullable<string>): (m: MailOptions)
    requires HasRequiredFields(b)
    ensures m.from == from && m.to == b.email.v
    ensures m.subject == "Patient Report for ID: " + b.patientId.v
    ensures m.text == MailText(b.remarks)
    ensures |m.attachments| == 1
    ensures m.attachments[0] == Attachment("health_report_" + b.patientId.v + ".pdf", Decode(b.pdfBase64.v), "application/pdf")
  {
    MailOptions(
      from,
      b.email.v,
      "Patient Report for ID: " + b.patientId.v,
      MailText(b.remarks),
      [Attachment("health_report_" + b.patientId.v + ".pdf", Decode(b.pdfBase64.v), "application/pdf")])
  }

  /** `error.message || 'Failed to send email'`. */
  function ErrorText(message: Nullable<string>): (text: string)
    ensures text != ""
    ensures TruthyStr(message) ==> text == message.v
    ensures !TruthyStr(message) ==> text == DefaultFailure
  {
    if TruthyStr(message) then message.v else DefaultFailure
  }

  /**
    The mail transport. Whether it fails is decided outside the program (the
    SMTP server, the credentials, the network): failure holds the message of
    the error its next send throws, or None when that send succeeds.
   */
  class Mailer {
    /** The messages accepted so far. */
    var outbox: seq<MailOptions>
    const failure: Option<Nullable<string>>

    constructor (failure: Option<Nullable<string>>)
      ensures outbox == [] && this.failure == failure
    {
      outbox := [];
      this.failure := failure;
    }

    /** `transporter.sendMail(mailOptions)`: accepts the message, or throws an error with the given message. */
    method SendMail(m: MailOptions) returns (error: Option<Nullable<string>>)
      modifies this
      ensures error == failure
      ensures failure.None? ==> outbox == old(outbox) + [m]
      ensures failure.Some? ==> outbox == old(outbox)
    {
      error := failure;
      if failure.None? {
        outbox := outbox + [m];
      }
    }
  }

  /**
    The POST handler. request is the parsed JSON body, or the message of
    the error reading it threw. A request missing a required field is
    answered 400 without sending anything; otherwise the message is sent,
    and the answer is `{ success: true }`, or 500 with the error's message
    when reading the body or sending threw.
   */
  method Post(request: Result<RequestBody, Nullable<string>>, from: Nullable<string>, mailer: Mailer) returns (r: Response)
    modifies mailer
    ensures request.Err? ==> r == Response(500, Failed(ErrorText(request.error))) && mailer.outbox == old(mailer.outbox)
    ensures request.Ok? && !HasRequiredFields(request.value) ==>
      r == Response(400, Failed(MissingFields)) && mailer.outbox == old(mailer.outbox)
    ensures request.Ok? && HasRequiredFields(request.value) && mailer.failure.None? ==>
      r == Response(200, Sent) && mailer.outbox == old(mailer.outbox) + [BuildMail(request.value, from)]
    ensures request.Ok? && HasRequiredFields(request.value) && mailer.failure.Some? ==>
      r == Response(500, Failed(ErrorText(mailer.failure.value))) && mailer.outbox == old(mailer.outbox)
  {
    if request.Err? {
      return Response(500, Failed(ErrorText(request.error)));
    }
    var body := request.value;
    if !HasRequiredFields(body) {
      return Response(400, Failed(MissingFields));
    }
    var mailOptions := BuildMail(body, from);
    var error := mailer.SendMail(mailOptions);
    if error.Some? {
      return Response(500, Failed(ErrorText(error.value)));
    }
    return Response(200, Sent);
  }

  // ---------------------------------------------------------------- client side

  /**
    The body the report screen posts: the doctor's e-mail, or a fixed
    address when the field is empty; the patient's id; the remarks; and the
    PDF bytes in base64.
   */
  function ClientRequest(doctorEmail: string, patientId: string, remarks: string, pdf: seq<byte>): (b: RequestBody)
    ensures b.email == Val(if doctorEmail != "" then doctorEmail else "doctor@example.com") && TruthyStr(b.email)
    ensures b.patientId == Val(patientId) && b.remarks == Val(remarks)
    ensures b.pdfBase64 == Val(Encode(pdf))
  {
    RequestBody(
      Val(if doctorEmail != "" then doctorEmail else "doctor@example.com"),
      Val(patientId),
      Val(remarks),
      Val(Encode(pdf)))
  }

  /**
    How the screen's request ended: the route answered with a JSON body, or
    `fetch` or `res.json()` threw an error with the given message.
   */
  datatype ClientOutcome = Answered(body: ResponseBody) | Threw(message: Nullable<string>)

  /**
    The status line the screen shows: the success line exactly for a success
    answer; otherwise "Failed to send: " with the route's error (or
    "Unknown error"), or with the thrown error's message (or nothing).
   */
  function ClientMessage(outcome: ClientOutcome): (text: string)
    ensures outcome == Answered(Sent) <==> text == "Report sent successfully!"
    ensures outcome.Answered? && outcome.body.Failed? ==>
      text == "Failed to send: " + (if outcome.body.error != "" then outcome.body.error else "Unknown error")
    ensures outcome.Threw? ==> text == "Failed to send: " + (if TruthyStr(outcome.message) then outcome.message.v else "")
  {
    match outcome
    case Answered(Sent) => "Report sent successfully!"
    case Answered(Failed(error)) =>
      var text := "Failed to send: " + (if error != "" then error else "Unknown error");
      assert text[0] != "Report sent successfully!"[0];
      text
    case Threw(message) =>
      var text := "Failed to send: " + (if TruthyStr(message) then message.v else "");
      assert text[0] != "Report sent successfully!"[0];
      text
  }

  /**
    The screen's request is refused only for an empty patient id or an
    empty PDF: the recipient always falls back to the fixed address.
   */
  lemma ClientRequestAccepted(doctorEmail: string, patientId: string, remarks: string, pdf: seq<byte>)
    ensures HasRequiredFields(ClientRequest(doctorEmail, patientId, remarks, pdf)) <==> patientId != "" && pdf != []
  {
    EncodeEmpty(pdf);
  }

  /**
    A report sent from the screen with a patient id and a non-empty PDF is
    handed to the transport as one message with one attachment named after
    the patient id, holding exactly the PDF bytes. failure decides the
    transport's outcome as in `Mailer`: when it accepts, the answer is a
    success and the message is sent; when it throws, the answer is 500 with
    its error text and nothing is sent. Without a patient id or a PDF,
    nothing is sent and the answer is the route's refusal.
   */
  method SendFromScreen(doctorEmail: string, patientId: string, remarks: string, pdf: seq<byte>,
                        from: Nullable<string>, failure: Option<Nullable<string>>)
    returns (r: Response, sent: seq<MailOptions>)
    ensures patientId != "" && pdf != [] && failure.None? ==>
      && r == Response(200, Sent)
      && |sent| == 1
      && sent[0].to == (if doctorEmail != "" then doctorEmail else "doctor@example.com")
      && sent[0].attachments == [Attachment("health_report_" + patientId + ".pdf", pdf, "application/pdf")]
    ensures patientId != "" && pdf != [] && failure.Some? ==>
      && r == Response(500, Failed(ErrorText(failure.value)))
      && sent == []
    ensures patientId == "" || pdf == [] ==>
      && r == Response(400, Failed(MissingFields))
      && sent == []
  {
    var mailer := new Mailer(failure);
    var request := ClientRequest(doctorEmail, patientId, remarks, pdf);
    ClientRequestAccepted(doctorEmail, patientId, remarks, pdf);
    r := Post(Ok(request), from, mailer);
    sent := mailer.outbox;
    if patientId != "" && pdf != [] && failure.None? {
      DecodeEncode(pdf);
      var m := BuildMail(request, from);
      assert sent == [m];
      assert m.attachments[0].content == pdf;
    }
  }
}
