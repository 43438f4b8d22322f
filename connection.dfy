/** The connection handler (`_handle_connection`): greet, then read lines
    until the input ends, feeding each to the command interpreter or, after
    `DATA`, to the data accumulator; log each finished message and
    acknowledge it. Input is the sequence of lines the client sent; output is
    the sequence of writes the server made; `logged` is what reached
    `logging.info`. */
module Connection {
  import opened Wrappers
  import opened Text
  import opened Transport
  import opened Commands
  import opened DataMode

  const Greeting := "220 smtp-logger ready"
  const Queued := "250 2.0.0 OK: Queued"

  /** The handler's local variables after some lines, with everything it has
      written and logged, and whether the session was aborted by a decoding
      failure. */
  datatype Conn = Conn(
    dataMode: bool, data: string, cte: Option<string>,
    output: seq<string>, logged: seq<string>, failed: bool)

  /** The state after the greeting, before the first line is read: the
      session invariant already holds. */
  function Start(): (c: Conn)
    ensures Invariant(c) && !c.dataMode && !c.failed
  {
    FramedRoundTrip(Greeting);
    Conn(false, "", None, [Framed(Greeting)], [], false)
  }

  /** One pass of the loop body. A decoding failure raises out of the loop,
      so an aborted session consumes no further lines. */
  function Step(qp: Decoder, c: Conn, line: string): (r: Conn)
    // an aborted session stays as it is
    ensures c.failed ==> r == c
    // writes are only ever appended
    ensures |c.output| <= |r.output| && r.output[..|c.output|] == c.output
    // a body is logged exactly when data mode ends, and it is the new data
    ensures r.logged == if !c.failed && c.dataMode && !r.dataMode then c.logged + [r.data] else c.logged
    // data mode starts exactly at a `DATA` command
    ensures !c.failed && !c.dataMode ==> (r.dataMode <==> "DATA" <= ToUpper(Strip(line)))
  {
    if c.failed then c
    else if c.dataMode then
      match ProcessDataLine(qp, line, c.data, c.cte)
      case DecodeError => c.(failed := true)
      case Next(mode, data, cte) =>
        if mode then c.(data := data, cte := cte)
        else c.(dataMode := false, data := data, cte := cte,
                logged := c.logged + [data], output := c.output + [Framed(Queued)])
    else
      var reply := ProcessCommandLine(Strip(line));
      if reply.enterData then
        c.(dataMode := true, data := "", cte := None, output := WriteAll(c.output, reply.responses))
      else
        c.(output := WriteAll(c.output, reply.responses))
  }

  /** The state after feeding `lines`, in order, to `c`. */
  function Feed(qp: Decoder, c: Conn, lines: seq<string>): (r: Conn)
    // an aborted session stays as it is
    ensures c.failed ==> r == c
    // writes and log entries are only ever appended
    ensures |c.output| <= |r.output| && r.output[..|c.output|] == c.output
    ensures |c.logged| <= |r.logged| && r.logged[..|c.logged|] == c.logged
    decreases |lines|
  {
    if lines == [] then c
    else
      var p := Feed(qp, c, lines[..|lines| - 1]);
      var r := Step(qp, p, lines[|lines| - 1]);
      assert r.output[..|c.output|] == r.output[..|p.output|][..|c.output|];
      assert r.logged[..|c.logged|] == r.logged[..|p.logged|][..|c.logged|];
      r
  }

  /** A whole session over the client's lines. */
  function Serve(qp: Decoder, lines: seq<string>): (r: Conn)
    ensures |r.output| > 0 && r.output[0] == Framed(Greeting)
  {
    var r := Feed(qp, Start(), lines);
    assert r.output[0] == r.output[..1][0];
    r
  }

  /** `_handle_connection` with the socket replaced by the input lines, the
      output writes and the log. */
  method HandleConnection(qp: Decoder, lines: seq<string>)
    returns (output: seq<string>, logged: seq<string>, failed: bool)
    ensures output == Serve(qp, lines).output
    ensures logged == Serve(qp, lines).logged
    ensures failed == Serve(qp, lines).failed
    ensures |output| > 0 && output[0] == Framed(Greeting)
    ensures forall i :: 0 <= i < |output| ==> IsWrittenReply(output[i])
    ensures Count(output, Framed(Queued)) == |logged|
  {
    var dataMode := false;
    var cte: Option<string> := None;
    var data := "";
    output, logged, failed := [Framed(Greeting)], [], false;
    var i := 0;
    while i < |lines|
      invariant i <= |lines|
      invariant Feed(qp, Start(), lines[..i]) == Conn(dataMode, data, cte, output, logged, false)
    {
      var line := lines[i];
      assert lines[..i + 1][..i] == lines[..i];
      if dataMode {
        var r := ProcessDataLine(qp, line, data, cte);
        if r.DecodeError? {
          failed := true;
          FeedStopsAtFailure(qp, Start(), lines, i + 1);
          break;
        }
        dataMode, data, cte := r.dataMode, r.data, r.cte;
        if !dataMode {
          logged := logged + [data];
          output := output + [Framed(Queued)];
        }
      } else {
        line := Strip(line);
        var reply := ProcessCommandLine(line);
        output := WriteAll(output, reply.responses);
        dataMode := reply.enterData;
        if dataMode {
          data := "";
          cte := None;
        }
      }
      i := i + 1;
    }
    assert !failed ==> lines[..i] == lines;
    ServeInvariant(qp, lines);
  }

  /** Once aborted, a session stays as it was. */
  lemma {:induction false} FeedStopsAtFailure(qp: Decoder, c: Conn, lines: seq<string>, k: nat)
    requires k <= |lines| && Feed(qp, c, lines[..k]).failed
    ensures Feed(qp, c, lines) == Feed(qp, c, lines[..k])
    decreases |lines|
  {
    if k < |lines| {
      var p := lines[..|lines| - 1];
      assert p[..k] == lines[..k];
      FeedStopsAtFailure(qp, c, p, k);
    } else {
      assert lines[..k] == lines;
    }
  }

  /** Feeding two batches of lines is feeding their concatenation. */
  lemma {:induction false} FeedAppend(qp: Decoder, c: Conn, a: seq<string>, b: seq<string>)
    ensures Feed(qp, c, a + b) == Feed(qp, Feed(qp, c, a), b)
    decreases |b|
  {
    if b == [] {
      assert a + b == a;
    } else {
      assert (a + b)[..|a + b| - 1] == a + b[..|b| - 1];
      FeedAppend(qp, c, a, b[..|b| - 1]);
    }
  }

  // ----- Invariants of every session -----

  /** The number of times `x` occurs in `s`. */
  function Count(s: seq<string>, x: string): (n: nat)
    decreases |s|
  {
    if s == [] then 0
    else Count(s[..|s| - 1], x) + (if s[|s| - 1] == x then 1 else 0)
  }

  /** Every line the server can send. */
  predicate IsReply(s: string) {
    s == Greeting || s == Queued || IsCommandResponse(s)
  }

  /** One write: a line the server can send, with the CRLF ending. */
  predicate IsWrittenReply(w: string) {
    |w| >= 2 && w[|w| - 2..] == CRLF && IsReply(Unframed(w))
  }

  /** What holds after every line: the greeting came first, every write
      is a known reply with its ending (the client's text is never echoed),
      and every `250 2.0.0 OK: Queued` stands for exactly one logged body. */
  ghost predicate Invariant(c: Conn) {
    && |c.output| > 0 && c.output[0] == Framed(Greeting)
    && (forall i :: 0 <= i < |c.output| ==> IsWrittenReply(c.output[i]))
    && Count(c.output, Framed(Queued)) == |c.logged|
  }

  lemma {:induction false} CountAppend(a: seq<string>, b: seq<string>, x: string)
    ensures Count(a + b, x) == Count(a, x) + Count(b, x)
    decreases |b|
  {
    if b == [] {
      assert a + b == a;
    } else {
      assert (a + b)[..|a + b| - 1] == a + b[..|b| - 1];
      CountAppend(a, b[..|b| - 1], x);
    }
  }

  lemma {:induction false} CountAbsent(s: seq<string>, x: string)
    requires forall i :: 0 <= i < |s| ==> s[i] != x
    ensures Count(s, x) == 0
    decreases |s|
  {
    if s != [] {
      CountAbsent(s[..|s| - 1], x);
    }
  }

  lemma WriteAllKeepsInvariant(out: seq<string>, replies: seq<string>)
    requires forall i :: 0 <= i < |replies| ==> IsCommandResponse(replies[i])
    requires forall i :: 0 <= i < |out| ==> IsWrittenReply(out[i])
    ensures forall i :: 0 <= i < |WriteAll(out, replies)| ==> IsWrittenReply(WriteAll(out, replies)[i])
    ensures Count(WriteAll(out, replies), Framed(Queued)) == Count(out, Framed(Queued))
  {
    var w := seq(|replies|, i requires 0 <= i < |replies| => Framed(replies[i]));
    assert WriteAll(out, replies) == out + w;
    forall i | 0 <= i < |w| ensures IsWrittenReply(w[i]) && w[i] != Framed(Queued) {
      FramedRoundTrip(replies[i]);
      FramedInjective(replies[i], Queued);
    }
    CountAppend(out, w, Framed(Queued));
    CountAbsent(w, Framed(Queued));
  }

  lemma StepKeepsInvariant(qp: Decoder, c: Conn, line: string)
    requires Invariant(c)
    ensures Invariant(Step(qp, c, line))
  {
    var c' := Step(qp, c, line);
    if !c.failed {
      if c.dataMode {
        if c'.output != c.output {
          assert c'.output == c.output + [Framed(Queued)];
          assert c'.output[..|c'.output| - 1] == c.output;
          FramedRoundTrip(Queued);
        }
      } else {
        var reply := ProcessCommandLine(Strip(line));
        ResponsesAreKnown(Strip(line));
        WriteAllKeepsInvariant(c.output, reply.responses);
        assert WriteAll(c.output, reply.responses)[..|c.output|] == c.output;
      }
    }
  }

  /** The invariant holds for every session, whatever the client sends and
      whatever the decoder does. */
  lemma {:induction false} ServeInvariant(qp: Decoder, lines: seq<string>)
    ensures Invariant(Serve(qp, lines))
    decreases |lines|
  {
    if lines != [] {
      ServeInvariant(qp, lines[..|lines| - 1]);
      StepKeepsInvariant(qp, Serve(qp, lines[..|lines| - 1]), lines[|lines| - 1]);
    }
  }

  // ----- One mail transaction -----

  /** `DATA` in command mode answers `354` and starts an empty body with no
      encoding, whatever the previous message left behind. */
  lemma DataCommandResets(qp: Decoder, c: Conn, line: string)
    requires !c.failed && !c.dataMode
    requires "DATA" <= ToUpper(Strip(line))
    ensures Step(qp, c, line) ==
              c.(dataMode := true, data := "", cte := None, output := c.output + [Framed(StartMailInput)])
  {
    assert WriteAll(c.output, [StartMailInput]) == c.output + [Framed(StartMailInput)];
  }

  /** In data mode, a body line is appended verbatim and may set the encoding. */
  lemma DataLineStep(qp: Decoder, c: Conn, line: string)
    requires !c.failed && c.dataMode && !IsTerminator(line)
    ensures Step(qp, c, line) == c.(data := c.data + line, cte := TrackEncoding(line, c.cte))
  {
  }

  /** In data mode, body lines are appended verbatim and the tracked encoding
      follows the header lines. */
  lemma {:induction false} DataLinesAccumulate(qp: Decoder, c: Conn, body: seq<string>)
    requires !c.failed && c.dataMode && NoTerminator(body)
    ensures Feed(qp, c, body) == c.(data := c.data + Concat(body), cte := EncodingAfter(body, c.cte))
    decreases |body|
  {
    if body == [] {
      assert c.data + "" == c.data;
    } else {
      var p, last := body[..|body| - 1], body[|body| - 1];
      NoTerminatorPrefix(body, |body| - 1);
      assert !IsTerminator(last);
      DataLinesAccumulate(qp, c, p);
      DataLineStep(qp, Feed(qp, c, p), last);
      AppendAssoc(c.data, Concat(p), last);
    }
  }

  /** Within one message the accumulated body only grows: the body after
      the first `i` lines is a prefix of the body after the first `j`. */
  lemma BodyGrows(qp: Decoder, c: Conn, body: seq<string>, i: nat, j: nat)
    requires !c.failed && c.dataMode && NoTerminator(body) && i <= j <= |body|
    ensures Feed(qp, c, body[..i]).data <= Feed(qp, c, body[..j]).data
  {
    NoTerminatorPrefix(body, i);
    NoTerminatorPrefix(body, j);
    DataLinesAccumulate(qp, c, body[..i]);
    DataLinesAccumulate(qp, c, body[..j]);
    ConcatGrows(body, i, j);
    var x, y := Concat(body[..i]), Concat(body[..j]);
    assert (c.data + y)[..|c.data + x|] == c.data + y[..|x|];
  }

  /** In data mode the terminator ends the message: the decoded body is
      logged and acknowledged, or, if decoding fails, the session aborts. */
  lemma TerminatorStep(qp: Decoder, c: Conn, dot: string)
    requires !c.failed && c.dataMode && IsTerminator(dot)
    ensures var d := TransferDecode(qp, c.data, c.cte);
      && (d.Some? ==> Step(qp, c, dot) == c.(dataMode := false, data := d.value,
                                             logged := c.logged + [d.value],
                                             output := c.output + [Framed(Queued)]))
      && (d.None? ==> Step(qp, c, dot) == c.(failed := true))
  {
  }

  /** A whole message: `DATA`, body lines, then the terminator. The body is
      the body lines joined verbatim, decoded when the last encoding header
      says quoted-printable; it is logged once and acknowledged once. Nothing
      of an earlier message (its body, its encoding) reaches this one. If
      decoding fails the session is aborted without an acknowledgement. */
  lemma MessageTransaction(qp: Decoder, c: Conn, cmd: string, body: seq<string>, dot: string)
    requires !c.failed && !c.dataMode
    requires "DATA" <= ToUpper(Strip(cmd))
    requires NoTerminator(body) && IsTerminator(dot)
    ensures
      var r := Feed(qp, c, [cmd] + body + [dot]);
      var cte := EncodingAfter(body, None);
      var decoded := TransferDecode(qp, Concat(body), cte);
      && (decoded.Some? ==>
            r == c.(data := decoded.value, cte := cte,
                    output := c.output + [Framed(StartMailInput), Framed(Queued)],
                    logged := c.logged + [decoded.value]))
      && (decoded.None? ==>
            r == c.(dataMode := true, data := Concat(body), cte := cte,
                    output := c.output + [Framed(StartMailInput)], failed := true))
  {
    var c2 := c.(dataMode := true, data := Concat(body), cte := EncodingAfter(body, None),
                 output := c.output + [Framed(StartMailInput)]);
    OpenMessage(qp, c, cmd, body);
    assert Feed(qp, c2, [dot]) == Step(qp, c2, dot) by {
      assert [dot][..0] == [];
    }
    TerminatorStep(qp, c2, dot);
    FeedAppend(qp, c, [cmd] + body, [dot]);
  }

  /** `DATA` and the body lines: data mode with exactly the body lines joined
      and the encoding their headers name. */
  lemma OpenMessage(qp: Decoder, c: Conn, cmd: string, body: seq<string>)
    requires !c.failed && !c.dataMode
    requires "DATA" <= ToUpper(Strip(cmd))
    requires NoTerminator(body)
    ensures Feed(qp, c, [cmd] + body) ==
              c.(dataMode := true, data := Concat(body), cte := EncodingAfter(body, None),
                 output := c.output + [Framed(StartMailInput)])
  {
    var c1 := c.(dataMode := true, data := "", cte := None, output := c.output + [Framed(StartMailInput)]);
    assert Feed(qp, c, [cmd]) == c1 by {
      assert [cmd][..0] == [];
      DataCommandResets(qp, c, cmd);
    }
    DataLinesAccumulate(qp, c1, body);
    assert "" + Concat(body) == Concat(body);
    FeedAppend(qp, c, [cmd], body);
  }

  /** Unless the last encoding header says quoted-printable (in particular
      when there is no header at all, by `NoHeaderKeepsEncoding`), the logged
      body is exactly the body lines, line endings included. */
  lemma PlainMessageLoggedVerbatim(qp: Decoder, c: Conn, cmd: string, body: seq<string>, dot: string)
    requires !c.failed && !c.dataMode
    requires "DATA" <= ToUpper(Strip(cmd))
    requires NoTerminator(body) && IsTerminator(dot)
    requires EncodingAfter(body, None) != Some(QuotedPrintable)
    ensures Feed(qp, c, [cmd] + body + [dot]).logged == c.logged + [Concat(body)]
    ensures Feed(qp, c, [cmd] + body + [dot]).output == c.output + [Framed(StartMailInput), Framed(Queued)]
  {
    MessageTransaction(qp, c, cmd, body, dot);
  }

  /** With `Content-Transfer-Encoding: quoted-printable` as the last encoding
      header, the logged body is the decoded body lines. */
  lemma QuotedPrintableMessageDecoded(qp: Decoder, c: Conn, cmd: string, body: seq<string>, dot: string, k: nat)
    requires !c.failed && !c.dataMode
    requires "DATA" <= ToUpper(Strip(cmd))
    requires NoTerminator(body) && IsTerminator(dot)
    requires k < |body| && HeaderName <= body[k]
    requires ToLower(Strip(body[k][|HeaderName|..])) == QuotedPrintable
    requires forall j :: k < j < |body| ==> !(HeaderName <= body[j])
    requires qp(Concat(body)).Some?
    ensures Feed(qp, c, [cmd] + body + [dot]).logged == c.logged + [qp(Concat(body)).value]
  {
    MessageTransaction(qp, c, cmd, body, dot);
    LastHeaderWins(body, None, k);
  }

  // ----- A complete session -----

  /** A command line is stripped before it is interpreted: a command with
      white space around it gets the reply of the bare command. */
  lemma CommandLineStep(qp: Decoder, c: Conn, a: string, cmd: string, b: string)
    requires !c.failed && !c.dataMode
    requires AllSpace(a) && AllSpace(b)
    requires |cmd| > 0 && !IsSpace(cmd[0]) && !IsSpace(cmd[|cmd| - 1])
    requires !ProcessCommandLine(cmd).enterData
    ensures Step(qp, c, a + cmd + b) == c.(output := WriteAll(c.output, ProcessCommandLine(cmd).responses))
  {
    StripFramed(a, cmd, b);
  }

  /** The replies to a run of command lines, in order. */
  function Replies(cmds: seq<string>): (replies: seq<string>)
    decreases |cmds|
  {
    if cmds == [] then []
    else Replies(cmds[..|cmds| - 1]) + ProcessCommandLine(Strip(cmds[|cmds| - 1])).responses
  }

  /** Command lines that do not enter data mode are answered in order, each
      reply written in full and nothing else of the state touched. */
  lemma {:induction false} CommandLinesReply(qp: Decoder, c: Conn, cmds: seq<string>)
    requires !c.failed && !c.dataMode
    requires forall j :: 0 <= j < |cmds| ==> !ProcessCommandLine(Strip(cmds[j])).enterData
    ensures Feed(qp, c, cmds) == c.(output := WriteAll(c.output, Replies(cmds)))
    decreases |cmds|
  {
    if cmds == [] {
      assert WriteAll(c.output, []) == c.output;
    } else {
      var p, last := cmds[..|cmds| - 1], cmds[|cmds| - 1];
      assert forall j :: 0 <= j < |p| ==> p[j] == cmds[j];
      CommandLinesReply(qp, c, p);
      assert !ProcessCommandLine(Strip(last)).enterData;
      WriteAllAppend(c.output, Replies(p), ProcessCommandLine(Strip(last)).responses);
    }
  }
}
