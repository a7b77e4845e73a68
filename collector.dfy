/**
  The collector's request handler: for every crash report posted to it,
  it appends the raw payload to the crash log, parses it, composes an
  e-mail from the report and sends it, and answers 200 or 500.

  The crash log file ("crashes.txt") and the mailbox that receives the
  notifications are the state the handler changes; the outcome of every
  foreign step (reading the request body, opening and writing the file,
  building and sending the message) is an input.
 */
module Collector {
  import opened Wrappers
  import opened Notification

  type u16 = x: nat | x < 0x1_0000

  /** The settings read once from "config.json" at start-up. */
  datatype Config = Config(
    host: string,
    port: u16,
    emailFrom: string,
    emailTo: string,
    smtpHost: string,
    smtpPort: u16,
    smtpUser: string,
    smtpPass: string)

  datatype Message = Message(from: string, to: string, subject: string, body: string)

  datatype Status = Ok | InternalServerError

  /**
    What `handle` gives back: a response with a status, or a panic
    (the `.unwrap()` of a malformed configured address).
   */
  datatype HandleResult = Responded(status: Status) | Panicked

  /** How opening "crashes.txt" for appending and writing the line to it went. */
  datatype AppendOutcome =
    | OpenFailed
    | WriteFailed(landed: nat)   // the first min(landed, |payload + "\n"| - 1) characters reach the log
    | Written

  /** The outcomes of the foreign steps of one request. */
  datatype Outcomes = Outcomes(
    body: Option<string>,   // reading the request body as text
    append: AppendOutcome,  // opening the crash log and writing the line
    built: bool,            // building the message
    delivered: bool)        // sending it over SMTP

  /**
    What reaches the crash log of the line `payload + "\n"`: nothing when
    the file cannot be opened, all of it when the write succeeds, and a
    proper prefix of it when the write fails part-way.
   */
  function Landed(payload: string, append: AppendOutcome): (s: string)
    ensures s <= payload + "\n"
    ensures s == payload + "\n" <==> append.Written?
    ensures append.OpenFailed? ==> s == ""
  {
    var line := payload + "\n";
    match append
    case OpenFailed => ""
    case WriteFailed(n) => line[..if n < |line| then n else |line| - 1]
    case Written => line
  }

  /** A written entry is exactly one line of the crash log precisely when the payload holds no newline. */
  lemma WrittenEntryIsOneLine(payload: string)
    ensures var s := Landed(payload, Written);
      (forall i :: 0 <= i < |s| - 1 ==> s[i] != '\n') <==> '\n' !in payload
  {
    var s := Landed(payload, Written);
    if '\n' in payload {
      var i :| 0 <= i < |payload| && payload[i] == '\n';
      assert s[i] == '\n';
    }
  }

  /** The line `payload + "\n"` stands in `log` at `offset`. */
  ghost predicate InLog(log: string, offset: nat, payload: string) {
    offset + |payload| < |log| && log[offset..offset + |payload| + 1] == payload + "\n"
  }

  /** Appending to a log keeps every line already in it where it was. */
  lemma AppendKeepsEntries(before: string, after: string)
    requires before <= after
    ensures forall offset: nat, payload :: InLog(before, offset, payload) ==> InLog(after, offset, payload)
  {
    forall offset: nat, payload | InLog(before, offset, payload)
      ensures InLog(after, offset, payload)
    {
      assert after[offset..offset + |payload| + 1] == before[offset..offset + |payload| + 1];
    }
  }

  /** A notification that was sent, with the crash-log entry and the report it came from. */
  datatype Delivery = Delivery(
    offset: nat,          // where the entry's payload starts in the crash log
    payload: string,
    report: Report,
    order: seq<string>,   // the order in which the custom data was visited
    message: Message)

  class ReportHandler {
    const config: Config
    /** The JSON decoding of a payload into a report (serde_json::from_str). */
    const parse: string -> Option<Report>
    /** Whether an address parses as a mailbox. */
    const parseMailbox: string -> bool

    /** The contents of the crash log. */
    var crashLog: string
    /** Every notification sent so far, oldest first. */
    ghost var sent: seq<Delivery>

    /**
      Delivery `d` is backed by the crash log: its payload, followed by a
      newline, stands in the log at `d.offset`, it parses to `d.report`,
      and `d.message` is the notification composed from that report.
     */
    ghost predicate Backed(d: Delivery)
      reads this
    {
      && InLog(crashLog, d.offset, d.payload)
      && parse(d.payload) == Some(d.report)
      && IsEnumeration(d.order, d.report.customData.Keys)
      && d.message == Message(config.emailFrom, config.emailTo, Subject(d.report), Body(d.report, d.order))
    }

    /** Every notification ever sent describes a report whose raw payload is in the crash log. */
    ghost predicate Valid()
      reads this
    {
      forall i :: 0 <= i < |sent| ==> Backed(sent[i])
    }

    constructor(config: Config, parse: string -> Option<Report>, parseMailbox: string -> bool, crashLog: string)
      ensures this.config == config && this.parse == parse && this.parseMailbox == parseMailbox
      ensures this.crashLog == crashLog && sent == []
      ensures Valid()
    {
      this.config := config;
      this.parse := parse;
      this.parseMailbox := parseMailbox;
      this.crashLog := crashLog;
      sent := [];
    }

    /** The request body was read and its line fully written to the crash log. */
    predicate Persisted(io: Outcomes) {
      io.body.Some? && io.append.Written?
    }

    /** ... and the payload parsed as a report. */
    predicate Parsed(io: Outcomes) {
      Persisted(io) && parse(io.body.value).Some?
    }

    /** Both configured addresses parse as mailboxes. */
    predicate MailboxesValid() {
      parseMailbox(config.emailFrom) && parseMailbox(config.emailTo)
    }

    /** Every step of the pipeline succeeded. */
    predicate Succeeds(io: Outcomes) {
      Parsed(io) && MailboxesValid() && io.built && io.delivered
    }

    /**
      Handles one posted crash report: read the body, append it and a
      newline to the crash log, parse it, compose the message, send it.
      The first step that fails ends the request with status 500; nothing
      done before it is undone.
     */
    method Handle(io: Outcomes) returns (result: HandleResult)
      requires Valid()
      modifies this
      ensures Valid()
      // the crash log only grows, by what landed of this request's line
      ensures old(crashLog) <= crashLog
      ensures io.body.Some? ==> crashLog == old(crashLog) + Landed(io.body.value, io.append)
      // an unreadable body: 500, the log untouched, nothing sent
      ensures io.body.None? ==>
        result == Responded(InternalServerError) && crashLog == old(crashLog) && sent == old(sent)
      // the log cannot be opened or written: 500, nothing sent
      ensures io.body.Some? && !io.append.Written? ==>
        result == Responded(InternalServerError) && sent == old(sent)
      // a payload that does not parse is still logged: 500, nothing sent
      ensures Persisted(io) && !Parsed(io) ==>
        InLog(crashLog, |old(crashLog)|, io.body.value) && result == Responded(InternalServerError) && sent == old(sent)
      // the status
      ensures result == Responded(Ok) <==> Succeeds(io)
      ensures result == Panicked <==> Parsed(io) && !MailboxesValid()
      ensures result.Responded? && result.status == InternalServerError <==> !Succeeds(io) && !(Parsed(io) && !MailboxesValid())
      // at most one notification, and only when every step succeeded
      ensures !Succeeds(io) ==> sent == old(sent)
      ensures Succeeds(io) ==> |sent| == |old(sent)| + 1 && sent[..|old(sent)|] == old(sent)
      ensures Succeeds(io) ==>
        var d := sent[|old(sent)|];
        && d.offset == |old(crashLog)| && d.payload == io.body.value
        && Some(d.report) == parse(io.body.value)
        && d.message.from == config.emailFrom && d.message.to == config.emailTo
        && d.message.subject == Subject(d.report)
        && d.message.body == Body(d.report, d.order)
    {
      // Receive
      if io.body.None? {
        return Responded(InternalServerError);
      }
      var payload := io.body.value;

      // Persist
      ghost var offset := |crashLog|;
      ghost var line := payload + "\n";
      match io.append {
        case OpenFailed =>
          return Responded(InternalServerError);
        case WriteFailed(_) =>
          crashLog := crashLog + Landed(payload, io.append);
          AppendKeepsEntries(old(crashLog), crashLog);
          return Responded(InternalServerError);
        case Written =>
          crashLog := crashLog + Landed(payload, io.append);
          AppendKeepsEntries(old(crashLog), crashLog);
      }

      // Parse
      var parsed := parse(payload);
      if parsed.None? {
        return Responded(InternalServerError);
      }
      var report := parsed.value;

      // Compose
      var text, order := ComposeBody(report);
      if !parseMailbox(config.emailFrom) || !parseMailbox(config.emailTo) {
        return Panicked;
      }
      var subject := Subject(report);
      if !io.built {
        return Responded(InternalServerError);
      }
      var message := Message(config.emailFrom, config.emailTo, subject, text);

      // Deliver
      if !io.delivered {
        return Responded(InternalServerError);
      }
      ghost var d := Delivery(offset, payload, report, order, message);
      assert InLog(crashLog, offset, payload) by {
        assert crashLog[offset..offset + |payload| + 1] == line;
      }
      assert Backed(d);
      sent := sent + [d];
      return Responded(Ok);
    }
  }
}
