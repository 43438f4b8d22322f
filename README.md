# smtp-logger: the per-connection protocol, modelled in Dafny

smtp-logger is a tiny SMTP-like server that never delivers mail. It greets
each client, answers the usual commands with fixed replies, accumulates the
message sent after `DATA`, and logs that body once the client sends the `.`
line. This project models what one connection does, as written in
`smtp_logger/__init__.py`:

- `Transport`: `_write_flush`, which sends a reply followed by CRLF. The
  connection's output is the sequence of those writes.
- `Commands`: `_process_command_line`, which turns one stripped command line
  into its fixed reply lines and says whether data mode starts. The result
  is a `CommandReply` value. The verbs are tried first-match-wins. `EHLO`
  is matched on the upper-cased line but `HELO` on the line as received,
  and the model keeps that quirk.
- `DataMode`: `_process_data_line`, which is a pure transition on
  `(line, data, cte)`. It also covers the transfer decoding applied at the
  terminator. Quoted-printable plus UTF-8 decoding is given to the model as
  a function `Decoder = string -> Option<string>`, where `None` means the
  decoder raised.
- `Connection`: the read-and-dispatch loop of `_handle_connection`. Its
  specification is a left fold: `Step` is one pass of the loop body,
  `Feed` applies it to lines in order, and `Serve` starts from the state
  after the greeting. The method `HandleConnection` is the loop itself,
  with the local variables `data_mode`, `data` and `cte`. It is proved to
  produce exactly what `Serve` describes. Further lemmas state the session
  invariants and what one mail transaction does.
- `Text`: the Python `str` operations the code relies on. `str.strip()`
  removes exactly the characters `str.isspace()` accepts. Also modelled:
  `upper()`, `lower()`, `startswith` (written `p <= s`) and
  `split(":", 1)[1]`.
- `Wrappers`: `Option`.

A client's input is the sequence of lines the file object yields, each with
its line ending. The server's output is the sequence of writes it makes.
`logged` is the sequence of bodies passed to `logging.info`.

## Model

| member | source | states |
|---|---|---|
| Transport.Framed | smtp_logger/__init__.py:24-27 | what one `_write_flush` call writes: the reply, then CRLF, two characters longer than the reply |
| Transport.WriteAll | smtp_logger/__init__.py:58-74 | the run of `_write_flush` calls a command makes: exactly one write per reply line is added to the output |
| Transport.FramedRoundTrip | smtp_logger/__init__.py:24-27 | a write is the reply followed by CRLF, and removing the last two characters gives back exactly the reply |
| Transport.FramedInjective | smtp_logger/__init__.py:24-27 | two writes are equal if and only if the replies are equal |
| Transport.WriteAllSpec | smtp_logger/__init__.py:24-27 | writing a list of replies leaves earlier writes unchanged; then each reply follows with CRLF, in order, and nothing else is written |
| Transport.WriteAllAppend | smtp_logger/__init__.py:24-27 | writing two batches one after the other is the same as writing their concatenation |
| Text.IsSpace | smtp_logger/__init__.py:38 | the characters `str.strip()` removes, which are the code points `str.isspace()` accepts (no contract: a definition) |
| Text.ToUpper | smtp_logger/__init__.py:55 | `line.upper()`: same length as the line; each lower-case ASCII letter becomes its capital and every other character is kept |
| Text.ToLower | smtp_logger/__init__.py:46 | `.lower()`: same length as the input; each capital ASCII letter becomes its lower-case form and every other character is kept |
| Text.AfterFirst | smtp_logger/__init__.py:46 | `split(":", 1)[1]`: the input is a part without the separator, then the separator, then the result |
| Text.Strip | smtp_logger/__init__.py:38 | the stripped line is no longer than the input and neither starts nor ends with white space |
| Text.StripSplit | smtp_logger/__init__.py:38 | the input is white space, then the stripped line, then white space |
| Text.StripFramed | smtp_logger/__init__.py:95 | stripping text that has white space only around it gives back exactly that text |
| DataMode.ProcessDataLine | smtp_logger/__init__.py:30-51 | data mode ends exactly at a terminator. Any other line is appended verbatim and the encoding is tracked. At the terminator the line is not appended, the body is decoded only for quoted-printable, and `cte` is returned unchanged. A decoding failure happens only at the terminator of a quoted-printable body whose decoding fails |
| DataMode.IsTerminator | smtp_logger/__init__.py:38 | the end-of-data test `line.strip() == "."` (no contract: a definition, characterised by the two lemmas below) |
| DataMode.TerminatorSplit | smtp_logger/__init__.py:38 | every terminator is a single `.` with only white space around it |
| DataMode.TerminatorFromSplit | smtp_logger/__init__.py:38 | every `.` with only white space around it is a terminator |
| DataMode.DotStuffedIsNotTerminator | smtp_logger/__init__.py:38 | a line starting with `..` is never the terminator |
| DataMode.NoDotUnstuffing | smtp_logger/__init__.py:43-51 | the dot-stuffed line `..foo` is appended to the body unchanged, and data mode continues |
| DataMode.HeaderValue | smtp_logger/__init__.py:46 | the value of an encoding header, taken after the first `:`, is the text after the header name, stripped and lower-cased, because the header name contains no earlier `:` |
| DataMode.TrackEncoding | smtp_logger/__init__.py:45-46 | a line starting with `Content-Transfer-Encoding:` (case-sensitive) sets the encoding to its stripped, lower-cased value; any other line leaves it unchanged |
| DataMode.TransferDecode | smtp_logger/__init__.py:40-41 | the body is decoded if and only if the encoding is `quoted-printable`; otherwise it is returned unchanged, including when there is no encoding |
| DataMode.ConcatGrows | smtp_logger/__init__.py:50 | within one message the accumulated body only grows: each earlier value is a prefix of every later one |
| DataMode.LastHeaderWins | smtp_logger/__init__.py:45-46 | after a run of body lines, the encoding is the one named by the last header line |
| DataMode.NoHeaderKeepsEncoding | smtp_logger/__init__.py:45-46 | body lines without a header leave the encoding as it was |
| Commands.ProcessCommandLine | smtp_logger/__init__.py:54-75 | data mode starts if and only if the upper-cased line starts with `DATA`, and then the only reply is the `354` line. Every reply is an SMTP reply in the layout of section 4.2.1 of RFC 5321 |
| Commands.FirstMatchWins | smtp_logger/__init__.py:61-74 | the reply is chosen by the first verb that matches, in the order `DATA`, `EHLO`/`HELO`, `MAIL FROM:`, `RCPT TO:`, `QUIT`: EHLO/HELO get three lines, then `250 2.1.0 Ok`, `250 2.1.5 Ok`, `221 2.0.0 Bye`, and the `500` reply if and only if no verb matches |
| Commands.ResponsesAreKnown | smtp_logger/__init__.py:57-74 | every reply line is one of the fixed reply strings: client text is never echoed |
| Commands.RecognizedPrefixDecides | smtp_logger/__init__.py:57-74 | once a line matches a verb, appending anything to it does not change the reply |
| Commands.CaseInsensitive | smtp_logger/__init__.py:55-71 | two lines with the same upper-case form get the same reply, as long as they agree on starting with `HELO` exactly |
| Commands.HelloCaseQuirk | smtp_logger/__init__.py:61 | `ehlo x` and `HELO x` get the three-line greeting reply, while `helo x` gets the `500` reply |
| Commands.ExampleHello | smtp_logger/__init__.py:61-64 | `EHLO test` gets the lines `250-Hello`, `250-8BITMIME`, `250 OK` and stays in command mode |
| Commands.ExampleSender | smtp_logger/__init__.py:65-67 | `MAIL FROM:<a@b.com>` gets `250 2.1.0 Ok` |
| Commands.ExampleRecipient | smtp_logger/__init__.py:68-70 | `RCPT TO:<c@d.com>` gets `250 2.1.5 Ok` |
| Commands.ExampleOthers | smtp_logger/__init__.py:57-74 | `DATA` gets the `354` reply and starts data mode; `QUIT` gets `221 2.0.0 Bye`; `FOO BAR` gets the `500` reply |
| Connection.Start | smtp_logger/__init__.py:81-87 | the state after the greeting: command mode, not aborted, and the session invariant already holds |
| Connection.Step | smtp_logger/__init__.py:89-99 | one pass of the loop body: an aborted session stays put, writes are only appended, a body is logged exactly when data mode ends (and it is the new data), and data mode starts exactly at a `DATA` command |
| Connection.Feed | smtp_logger/__init__.py:88 | `for line in f`: the loop body applied to each line in order; an aborted session stays put, and writes and log entries are only appended |
| Connection.Serve | smtp_logger/__init__.py:87-99 | a whole session from the greeting: the first write is always the greeting |
| Connection.HandleConnection | smtp_logger/__init__.py:81-99 | the loop's output, log and abort flag are those of the fold `Serve` over the input lines. The first write is the greeting, every write is a known reply with CRLF, and the number of `250 2.0.0 OK: Queued` writes equals the number of logged bodies |
| Connection.ServeInvariant | smtp_logger/__init__.py:87-99 | whatever the client sends and whatever the decoder does, the greeting comes first, every write is a framed known reply, and each queued acknowledgement stands for exactly one logged body |
| Connection.StepKeepsInvariant | smtp_logger/__init__.py:88-99 | one pass of the loop body preserves that invariant |
| Connection.FeedStopsAtFailure | smtp_logger/__init__.py:41 | once decoding has raised, the session is over: later lines change nothing |
| Connection.FeedAppend | smtp_logger/__init__.py:88 | feeding two batches of lines one after the other is the same as feeding their concatenation |
| Connection.CommandLineStep | smtp_logger/__init__.py:94-96 | a command line is stripped before it is interpreted: a command that does not start data mode, with any white space around it, gets the reply of the bare command, and nothing but the output changes (`DATA` is covered by `DataCommandResets`) |
| Connection.CommandLinesReply | smtp_logger/__init__.py:94-96 | command lines that do not start data mode are answered in order, and nothing but the output changes |
| Connection.DataCommandResets | smtp_logger/__init__.py:96-99 | `DATA` in command mode writes the `354` reply and starts an empty body with no encoding, whatever the previous message left |
| Connection.DataLineStep | smtp_logger/__init__.py:89-90 | in data mode, a body line is appended verbatim and may set the encoding |
| Connection.BodyGrows | smtp_logger/__init__.py:89-90 | within one message the session's accumulated body only grows: after fewer body lines it is a prefix of what it is after more |
| Connection.DataLinesAccumulate | smtp_logger/__init__.py:89-90 | in data mode, a run of body lines appends their concatenation, and the encoding follows their header lines |
| Connection.MessageTransaction | smtp_logger/__init__.py:89-99 | a whole `DATA`, body, `.` exchange: the body, decoded when the last header says quoted-printable, is logged once and acknowledged once, and nothing of an earlier message reaches it. If decoding fails, the session ends without an acknowledgement |
| Connection.PlainMessageLoggedVerbatim | smtp_logger/__init__.py:89-93 | unless the last encoding header says `quoted-printable` (in particular with no header, or with any other declared encoding), the logged body is exactly the body lines, line endings included, and the output gains the `354` and Queued writes |
| Connection.QuotedPrintableMessageDecoded | smtp_logger/__init__.py:40-46 | when the last encoding header says `quoted-printable` and decoding succeeds, the logged body is the decoded body lines |

## Left out

- `configure_logging`, `smtp_logger`, `_parse_args` and `cli` are not modelled. They cover logging setup, socket bind/listen/accept, one thread per connection, and argument and environment handling: I/O and concurrency with no protocol logic.
- The socket file object is not modelled. Input is the sequence of lines it yields, already decoded from UTF-8 and with line endings already translated by `newline=None`. A UTF-8 error while reading is not modelled.
- Output is modelled as the exact strings passed to `write`, `reply + "\r\n"`. Text-mode newline translation on output is taken to be the POSIX one, which changes nothing. On Windows each `\n` would be written as the platform separator.
- `logging.debug` and `logging.warning` calls, including the warning for an unsupported encoding, are left out. Only `logging.info(data)` is modelled, as an append to `logged`.
- The `except`/`else`/`finally` around the loop (log, re-raise, `conn.close()`) is not modelled. A decoding failure is the only exception the model has. It ends the session with the `failed` flag set and no further lines read.
- Quoted-printable decoding and UTF-8 decoding are not defined here. The model is given them as one function from the body to an optional result.
- Text.ToUpper: models `str.upper()` for ASCII letters only. Python also maps some non-ASCII characters to ASCII ones. For example, the dotless `ı` becomes `I`, `ſ` becomes `S`, and the ligature `ﬀ` becomes `FF`. So Python reads `quıt` as `QUIT`, and the model does not.
- Text.ToLower: models `str.lower()` for ASCII letters only. The result is used only to compare with `quoted-printable`. The non-ASCII letters that Python lower-cases to ASCII, such as the Kelvin sign to `k`, do not produce that value, so the comparison comes out the same.
- The end-to-end test in the repository starts a subprocess and uses `smtplib`. It has no logic to model.
