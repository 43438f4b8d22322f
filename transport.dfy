/** The write half of the line transport: `_write_flush` appends the CRLF
    ending to a reply and writes it in one flushed call. The connection's
    output is the sequence of those writes, one element per call. */
module Transport {

  const CRLF := "\r\n"

  /** What one `_write_flush(f, line)` call puts on the wire. */
  function Framed(line: string): (w: string)
    ensures |w| == |line| + 2
    ensures w[..|line|] == line && w[|line|..] == CRLF
  {
    line + CRLF
  }

  /** The reply carried by one write: the write without its ending. */
  function Unframed(w: string): (line: string)
    requires |w| >= 2
  {
    w[..|w| - 2]
  }

  /** A write ends in CRLF and carries back exactly the reply written, so no
      two different replies can produce the same bytes. */
  lemma FramedRoundTrip(line: string)
    ensures Framed(line)[|line|..] == CRLF
    ensures Unframed(Framed(line)) == line
  {
  }

  lemma FramedInjective(a: string, b: string)
    ensures Framed(a) == Framed(b) <==> a == b
  {
    if Framed(a) == Framed(b) {
      FramedRoundTrip(a);
      FramedRoundTrip(b);
    }
  }

  /** Issuing `_write_flush` once per reply, in order. */
  function WriteAll(out: seq<string>, replies: seq<string>): (r: seq<string>)
    ensures |r| == |out| + |replies|
  {
    out + seq(|replies|, i requires 0 <= i < |replies| => Framed(replies[i]))
  }

  /** The earlier writes stay as they were, and after them comes each reply
      with its ending, in the order given, and nothing else. */
  lemma WriteAllSpec(out: seq<string>, replies: seq<string>)
    ensures WriteAll(out, replies)[..|out|] == out
    ensures forall i :: 0 <= i < |replies| ==>
              WriteAll(out, replies)[|out| + i] == replies[i] + CRLF
  {
  }

  /** Writing replies one batch after another is writing them all at once. */
  lemma WriteAllAppend(out: seq<string>, a: seq<string>, b: seq<string>)
    ensures WriteAll(WriteAll(out, a), b) == WriteAll(out, a + b)
  {
  }
}
