# ACRA crash-report collector, modelled in Dafny

The collector is a small HTTP service that receives crash reports posted by
Android applications (through ACRA), keeps every raw report in an append-only
file `crashes.txt`, and e-mails a human-readable notification for each report
it can decode. All of its behaviour lives in one request handler,
`ReportHandler::handle` in `src/main.rs`, which runs a short-circuiting
pipeline:

1. read the request body as text;
2. append the body and a newline to the crash log;
3. decode the body as a JSON crash report;
4. compose the e-mail (subject and body) from the report;
5. build the message and send it over SMTP;
6. answer 200, or 500 as soon as any step fails, without undoing earlier steps.

The model has four modules:

- `Wrappers` — the `Option` type used for results of foreign calls.
- `Decimal` — how a `u64` is written in decimal (the version code in the
  e-mail body), with its inverse and the round-trip between the two.
- `Notification` — the `Report` record, the subject and the body as
  specification functions (`Subject`, `Body`), and `ComposeBody`, the
  piece-by-piece construction the handler performs, proved to produce
  `Body`. The custom data is a hash map whose iteration order is
  unspecified: `PushCustomLines` visits its keys in an order of its own
  choosing and reports, as a ghost result, which order it took; `Body` is
  defined for every such order, and the lemmas show that the order changes
  nothing but the order of the custom-data lines.
- `Collector` — the configuration, the message, the response, and the class
  `ReportHandler`, whose state is the crash log (`crashLog`, the file's text)
  and the notifications sent so far (`sent`, ghost). `Handle` is the
  pipeline. The outcome of each foreign step is an input (`Outcomes`: the
  body read, the file append, the message build, the SMTP delivery); JSON
  decoding and mailbox parsing are fixed functions given to the handler at
  construction. The class invariant `Valid` says that every notification
  ever sent describes a report whose raw payload, followed by a newline, is
  in the crash log, and that the payload decodes to that report.

Behaviour of the code that the model makes explicit:

- A failed `writeln!` can leave a partial line in the log; the model lets
  any proper prefix of the line land (`Landed`), and the log still only
  grows.
- A malformed configured address panics at `.parse().unwrap()` after the
  payload is logged and before anything is sent (`Panicked`).
- The log holds one payload per line only for payloads without a newline
  character (`WrittenEntryIsOneLine`).
- Different package/version pairs can share a subject (`SubjectAmbiguous`);
  given one of the two, the subject determines the other.

## Model

| member | source | states |
|---|---|---|
| `Decimal.DecimalString` | src/main.rs:107 | the version code is written as a non-empty string of decimal digits, with no leading zero except for the value 0 itself, which is written "0" |
| `Decimal.DecimalRoundTrip` | src/main.rs:107 | reading the written digits back as a decimal number gives the version code that was written |
| `Decimal.DecimalInjective` | src/main.rs:107 | two different version codes are never written as the same text |
| `Notification.SubjectFields` | src/main.rs:119 | the subject is "New crash of ", then the package name, then " (", then the version name, then ")", with nothing else and its length is the sum of the parts |
| `Notification.SubjectDeterminesVersionName` | src/main.rs:119 | of two reports of the same package, equal subjects imply equal version names |
| `Notification.SubjectDeterminesPackageName` | src/main.rs:119 | of two reports with the same version name, equal subjects imply equal package names |
| `Notification.SubjectAmbiguous` | src/main.rs:119 | package "a (b" with version "c" and package "a" with version "b (c" get the same subject, so the subject alone does not identify the pair |
| `Notification.ComposeBody` | src/main.rs:104-115 | the body built by successive appends equals `Body` for the order in which the custom data was visited, and that order lists every custom-data key exactly once; without custom data the body is the header followed directly by the stack-trace section |
| `Notification.PushCustomLines` | src/main.rs:111-113 | the loop over the custom data appends exactly the lines "  key = value\r\n", one per key in the visiting order, after the text already built, and visits every key exactly once; with no custom data it appends nothing |
| `Notification.BodyBeginsWithHeader` | src/main.rs:105-108 | the body begins with "A new crash happened:\r\n\r\n", then the report-ID line, the "- Version: name (code)" line and the Android-version line, in that order |
| `Notification.BodyEndsWithStackTrace` | src/main.rs:115 | the body ends with "\r\nStack trace:\r\n\r\n" followed by the stack trace, unmodified |
| `Notification.CustomSectionPresentIff` | src/main.rs:109-110 | right after the header the body continues with "\r\nCustom data:\r\n\r\n" if and only if the custom data is non-empty |
| `Notification.OneLinePerKey` | src/main.rs:109-114 | there are exactly as many custom-data lines as keys, each key is visited exactly once, and line i is "  key = value\r\n" for the i-th visited key |
| `Notification.KeyLineInBody` | src/main.rs:109-114 | for every custom-data key, its line "  key = value\r\n" occurs in the body |
| `Notification.CustomLinesOrderIrrelevant` | src/main.rs:111 | any two visiting orders of the same custom data produce the same lines, each the same number of times |
| `Collector.Landed` | src/main.rs:77-89 | what reaches the crash log is a prefix of payload + "\n": empty when the file cannot be opened, the whole line exactly when the write succeeds |
| `Collector.WrittenEntryIsOneLine` | src/main.rs:81 | a fully written entry contains a newline only at its end if and only if the payload contains no newline |
| `Collector.AppendKeepsEntries` | src/main.rs:77-81 | appending to the crash log keeps every line already in it at the same position |
| `Collector.ReportHandler.constructor` | src/main.rs:58-60 | a handler starts with its configuration, the given crash log and nothing sent, and satisfies its invariant |
| `Collector.ReportHandler.Handle` | src/main.rs:63-150 | the crash log only grows, and by exactly what landed of payload + "\n"; an unreadable body leaves the log untouched; a logged payload that does not decode stays in the log; status 200 exactly when read, append, decode, build and send all succeed, a panic exactly when the report decoded but a configured address is malformed, 500 otherwise; at most one message per request, sent only when every step succeeded, addressed from and to the configured addresses, with the subject and body composed from the decoded report; every message ever sent stays backed by its logged payload |

## Left out

- Server start-up (src/main.rs:153-166): reading `config.json` with `unwrap`, the router, the listener and the thread count. The handler is given its configuration.
- Concurrency: the four worker threads and any interleaving of appends from concurrent requests. The code takes no lock, so the model treats one request at a time.
- JSON decoding (`serde_json::from_str`) is a fixed function `parse` supplied to the handler; which payloads decode, and to what, is not modelled.
- Custom-data values are kept as the text the JSON value renders to; how `serde_json::Value` renders is not modelled.
- Mailbox parsing of `email_from` and `email_to` is a fixed predicate `parseMailbox`; what happens to the connection after the resulting panic is not modelled.
- Message construction (`Message::builder`, headers, MIME encoding) and its failure are a boolean outcome; the SMTP transport, credentials and TLS setup (src/main.rs:123-133) and delivery are a boolean outcome.
- Reading the request body and the file system are outcomes given per request; which characters a failed write leaves behind is only bounded (a proper prefix of the line), not determined.
- The `println!` diagnostics have no effect on the outcome and are not modelled.
- Rust's `String` is UTF-8; the model's strings are sequences of characters, so byte-level effects (a write cut inside a multi-byte character) are not modelled.
