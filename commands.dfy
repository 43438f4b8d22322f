/** The command interpreter (`_process_command_line`): one stripped line in
    command mode becomes a fixed list of reply lines and a flag saying
    whether the connection switches to data mode. */
module Commands {
  import opened Text

  const StartMailInput := "354 End data with <CR><LF>.<CR><LF>"
  const HelloReply := ["250-Hello", "250-8BITMIME", "250 OK"]
  const SenderOk := "250 2.1.0 Ok"
  const RecipientOk := "250 2.1.5 Ok"
  const Bye := "221 2.0.0 Bye"
  const NotRecognized := "500 5.5.1 Command not recognized"

  /** The lines `_process_command_line` writes, and its return value. */
  datatype CommandReply = CommandReply(responses: seq<string>, enterData: bool)

  predicate IsDigit(c: char) {
    '0' <= c <= '9'
  }

  /** An SMTP reply in the layout of section 4.2.1 of RFC 5321: every line
      starts with the same three-digit code, followed by `-` on every line
      but the last and by a space on the last one. */
  predicate WellFormedReply(lines: seq<string>) {
    && |lines| > 0
    && |lines[0]| >= 4
    && (forall i :: 0 <= i < |lines| ==>
          && |lines[i]| >= 4
          && IsDigit(lines[i][0]) && IsDigit(lines[i][1]) && IsDigit(lines[i][2])
          && lines[i][..3] == lines[0][..3]
          && lines[i][3] == (if i == |lines| - 1 then ' ' else '-'))
  }

  /** A one-line reply is well formed when it starts with a code and a space. */
  lemma OneLineReply(s: string)
    requires |s| >= 4 && IsDigit(s[0]) && IsDigit(s[1]) && IsDigit(s[2]) && s[3] == ' '
    ensures WellFormedReply([s])
  {
  }

  /** The multi-line `EHLO` reply keeps one code across its lines. */
  lemma HelloReplyWellFormed()
    ensures WellFormedReply(HelloReply)
  {
    assert HelloReply[1][..3] == HelloReply[0][..3];
    assert HelloReply[2][..3] == HelloReply[0][..3];
  }

  /** The first-match-wins prefix test. `EHLO` is tested on the upper-cased
      line but `HELO` on the line as received, so `helo` is not recognised. */
  function ProcessCommandLine(line: string): (r: CommandReply)
    ensures r.enterData <==> "DATA" <= ToUpper(line)
    ensures r.enterData ==> r.responses == [StartMailInput]
    ensures WellFormedReply(r.responses)
  {
    OneLineReply(StartMailInput);
    OneLineReply(SenderOk);
    OneLineReply(RecipientOk);
    OneLineReply(Bye);
    OneLineReply(NotRecognized);
    HelloReplyWellFormed();
    var uline := ToUpper(line);
    if "DATA" <= uline then CommandReply([StartMailInput], true)
    else if "EHLO" <= uline || "HELO" <= line then CommandReply(HelloReply, false)
    else if "MAIL FROM:" <= uline then CommandReply([SenderOk], false)
    else if "RCPT TO:" <= uline then CommandReply([RecipientOk], false)
    else if "QUIT" <= uline then CommandReply([Bye], false)
    else CommandReply([NotRecognized], false)
  }

  /** The verbs are tried in a fixed order and the first one the line
      starts with decides the reply. */
  lemma FirstMatchWins(line: string)
    ensures var u := ToUpper(line);
      ProcessCommandLine(line).responses == [StartMailInput] <==> "DATA" <= u
    ensures var u := ToUpper(line);
      ProcessCommandLine(line).responses == HelloReply <==>
        !("DATA" <= u) && ("EHLO" <= u || "HELO" <= line)
    ensures var u := ToUpper(line);
      ProcessCommandLine(line).responses == [SenderOk] <==>
        !("DATA" <= u || "EHLO" <= u || "HELO" <= line) && "MAIL FROM:" <= u
    ensures var u := ToUpper(line);
      ProcessCommandLine(line).responses == [RecipientOk] <==>
        !("DATA" <= u || "EHLO" <= u || "HELO" <= line || "MAIL FROM:" <= u) && "RCPT TO:" <= u
    ensures var u := ToUpper(line);
      ProcessCommandLine(line).responses == [Bye] <==>
        !("DATA" <= u || "EHLO" <= u || "HELO" <= line || "MAIL FROM:" <= u || "RCPT TO:" <= u) && "QUIT" <= u
    ensures var u := ToUpper(line);
      ProcessCommandLine(line).responses == [NotRecognized] <==>
        !("DATA" <= u || "EHLO" <= u || "HELO" <= line || "MAIL FROM:" <= u || "RCPT TO:" <= u || "QUIT" <= u)
  {
  }

  /** Verbs are compared without regard to case, except `HELO`: two lines
      that differ only in the case of their letters get the same reply as
      long as they agree on starting with `HELO` exactly. */
  lemma CaseInsensitive(a: string, b: string)
    requires ToUpper(a) == ToUpper(b)
    requires "HELO" <= a <==> "HELO" <= b
    ensures ProcessCommandLine(a) == ProcessCommandLine(b)
  {
  }

  /** Every reply line the interpreter can write. */
  predicate IsCommandResponse(s: string) {
    s == StartMailInput || s in HelloReply || s == SenderOk || s == RecipientOk
    || s == Bye || s == NotRecognized
  }

  lemma ResponsesAreKnown(line: string)
    ensures forall i :: 0 <= i < |ProcessCommandLine(line).responses| ==>
              IsCommandResponse(ProcessCommandLine(line).responses[i])
  {
  }

  predicate Recognized(line: string) {
    ProcessCommandLine(line).responses != [NotRecognized]
  }

  /** Only the command verb decides: once a line matches one of the prefixes,
      whatever follows it on the line changes nothing. */
  lemma {:induction false} RecognizedPrefixDecides(line: string, rest: string)
    requires Recognized(line)
    ensures ProcessCommandLine(line + rest) == ProcessCommandLine(line)
  {
    var u, u' := ToUpper(line), ToUpper(line + rest);
    ToUpperAppend(line, rest);
    assert u' == u + ToUpper(rest);
    assert |line| > 0;
    assert u'[0] == u[0] && (line + rest)[0] == line[0];
    PrefixExtends(u, ToUpper(rest), "DATA");
    PrefixExtends(u, ToUpper(rest), "EHLO");
    PrefixExtends(line, rest, "HELO");
    PrefixExtends(u, ToUpper(rest), "MAIL FROM:");
    PrefixExtends(u, ToUpper(rest), "RCPT TO:");
    PrefixExtends(u, ToUpper(rest), "QUIT");
  }

  lemma PrefixExtends(s: string, t: string, p: string)
    ensures |p| <= |s| ==> (p <= s + t <==> p <= s)
    ensures p <= s ==> p <= s + t
  {
    assert (s + t)[..|s|] == s;
    if |p| <= |s| {
      assert (s + t)[..|p|] == s[..|p|];
    }
  }

  /** `EHLO` is case-insensitive, `HELO` is not: the lower-case `helo` falls
      through to the `500` reply even though its upper-case form would match. */
  lemma HelloCaseQuirk()
    ensures ProcessCommandLine("ehlo x").responses == HelloReply
    ensures ProcessCommandLine("HELO x").responses == HelloReply
    ensures ProcessCommandLine("helo x").responses == [NotRecognized]
  {
    assert ToUpper("ehlo x") == "EHLO X" && "EHLO X"[..4] == "EHLO";
    assert ToUpper("helo x") == "HELO X";
    var h, u := "helo x", "HELO X";
    assert h[0] == 'h' && u[0] == 'H' && u[1] == 'E';
    assert !("DATA" <= u) && !("EHLO" <= u) && !("HELO" <= h);
    assert !("MAIL FROM:" <= u) && !("RCPT TO:" <= u) && !("QUIT" <= u);
  }

  /** A prefix without lower-case letters survives upper-casing. */
  lemma UpperKeepsPrefix(s: string, p: string)
    requires p <= s
    requires forall i :: 0 <= i < |p| ==> !('a' <= p[i] <= 'z')
    ensures p <= ToUpper(s)
  {
    assert ToUpper(s)[..|p|] == p;
  }

  /** The replies to the commands of a typical client session. */
  lemma ExampleHello()
    ensures ProcessCommandLine("EHLO test") == CommandReply(HelloReply, false)
  {
    UpperKeepsPrefix("EHLO test", "EHLO");
    assert ToUpper("EHLO test")[0] == 'E';
  }

  lemma ExampleSender()
    ensures ProcessCommandLine("MAIL FROM:<a@b.com>") == CommandReply([SenderOk], false)
  {
    var m := "MAIL FROM:<a@b.com>";
    UpperKeepsPrefix(m, "MAIL FROM:");
    assert ToUpper(m)[0] == 'M' && m[0] == 'M';
  }

  lemma ExampleRecipient()
    ensures ProcessCommandLine("RCPT TO:<c@d.com>") == CommandReply([RecipientOk], false)
  {
    var r := "RCPT TO:<c@d.com>";
    UpperKeepsPrefix(r, "RCPT TO:");
    assert ToUpper(r)[0] == 'R' && r[0] == 'R';
  }

  lemma ExampleOthers()
    ensures ProcessCommandLine("DATA") == CommandReply([StartMailInput], true)
    ensures ProcessCommandLine("QUIT") == CommandReply([Bye], false)
    ensures ProcessCommandLine("FOO BAR") == CommandReply([NotRecognized], false)
  {
    assert ToUpper("DATA") == "DATA";
    assert ToUpper("QUIT") == "QUIT";
    assert "QUIT"[0] == 'Q';
    var f := "FOO BAR";
    assert ToUpper(f) == f;
    assert f[0] == 'F';
  }
}
