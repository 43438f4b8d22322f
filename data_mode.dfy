/** The data accumulator and transfer decoder (`_process_data_line`): one
    raw line in data mode, with the body read so far and the tracked
    Content-Transfer-Encoding, becomes the new data-mode flag, body and
    encoding. */
module DataMode {
  import opened Wrappers
  import opened Text

  const HeaderName := "Content-Transfer-Encoding:"
  const QuotedPrintable := "quoted-printable"

  /** `quopri.decodestring(body).decode("utf-8")`. The model does not define
      quoted-printable or UTF-8 decoding; it is given the decoder, and `None`
      stands for the decoder raising. */
  type Decoder = string -> Option<string>

  /** The end-of-data marker: a line that is a single `.` once white space is
      stripped. There is no dot-unstuffing. */
  predicate IsTerminator(line: string) {
    Strip(line) == "."
  }

  /** A terminator is a `.` with only white space around it ... */
  lemma TerminatorSplit(line: string) returns (a: string, b: string)
    requires IsTerminator(line)
    ensures AllSpace(a) && AllSpace(b) && line == a + "." + b
  {
    var i := StripSplit(line);
    a, b := line[..i], line[i + 1..];
    assert line == a + line[i..i + 1] + b;
  }

  /** ... and every such line is a terminator. */
  lemma TerminatorFromSplit(a: string, b: string)
    requires AllSpace(a) && AllSpace(b)
    ensures IsTerminator(a + "." + b)
  {
    StripFramed(a, ".", b);
  }

  /** A line starting with `..` is never the terminator, whatever follows:
      dot-stuffed lines are plain body text. */
  lemma DotStuffedIsNotTerminator(line: string)
    requires ".." <= line
    ensures !IsTerminator(line)
  {
    StripKeeps(line, 0);
    StripKeeps(line, 1);
  }

  /** The encoding named by a header line: the text after the first `:`,
      stripped and lower-cased. The header name holds no `:` of its own, so
      that first `:` is the one that ends it and the value is taken from the
      rest of the line. */
  function HeaderValue(line: string): (v: string)
    requires HeaderName <= line
    ensures v == ToLower(Strip(line[|HeaderName|..]))
  {
    HeaderColon(line);
    FirstIndexAt(line, ':', |HeaderName| - 1);
    ToLower(Strip(AfterFirst(line, ':')))
  }

  lemma HeaderColon(line: string)
    requires HeaderName <= line
    ensures line[|HeaderName| - 1] == ':' && ':' !in line[..|HeaderName| - 1]
  {
    assert line[..|HeaderName| - 1] == HeaderName[..|HeaderName| - 1];
  }

  /** The encoding tracked after a non-terminator line: a header line sets it
      to its stripped, lower-cased value; any other line leaves it as it was. */
  function TrackEncoding(line: string, cte: Option<string>): (r: Option<string>)
    ensures !(HeaderName <= line) ==> r == cte
    ensures HeaderName <= line ==> r == Some(ToLower(Strip(line[|HeaderName|..])))
  {
    if HeaderName <= line then Some(HeaderValue(line)) else cte
  }

  /** The transfer decoder: quoted-printable decoding when that is the tracked
      encoding, the identity for any other encoding and for none. */
  function TransferDecode(qp: Decoder, body: string, cte: Option<string>): (r: Option<string>)
    ensures cte != Some(QuotedPrintable) ==> r == Some(body)
    ensures cte == Some(QuotedPrintable) ==> r == qp(body)
  {
    if cte == Some(QuotedPrintable) then qp(body) else Some(body)
  }

  /** The triple `_process_data_line` returns, or the decoder's failure. */
  datatype DataLineResult = Next(dataMode: bool, data: string, cte: Option<string>) | DecodeError

  function ProcessDataLine(qp: Decoder, line: string, data: string, cte: Option<string>): (r: DataLineResult)
    // data mode ends exactly at the terminator
    ensures r.Next? && r.dataMode <==> !IsTerminator(line)
    // any other line is appended verbatim, its ending included
    ensures !IsTerminator(line) ==> r == Next(true, data + line, TrackEncoding(line, cte))
    // the terminator itself is not appended; the body is decoded and the encoding kept
    ensures IsTerminator(line) && r.Next? ==> Some(r.data) == TransferDecode(qp, data, cte) && r.cte == cte
    // decoding can fail only at the terminator of a quoted-printable body
    ensures r.DecodeError? <==> IsTerminator(line) && cte == Some(QuotedPrintable) && qp(data).None?
  {
    if IsTerminator(line) then
      match TransferDecode(qp, data, cte)
      case Some(decoded) => Next(false, decoded, cte)
      case None => DecodeError
    else
      Next(true, data + line, TrackEncoding(line, cte))
  }

  /** A dot-stuffed line such as `..foo` reaches the body unchanged. */
  lemma NoDotUnstuffing(qp: Decoder, data: string, cte: Option<string>)
    ensures ProcessDataLine(qp, "..foo\n", data, cte) == Next(true, data + "..foo\n", cte)
  {
    DotStuffedIsNotTerminator("..foo\n");
  }

  /** The body lines sent so far, joined as received. */
  function Concat(lines: seq<string>): (body: string)
    decreases |lines|
  {
    if lines == [] then "" else Concat(lines[..|lines| - 1]) + lines[|lines| - 1]
  }

  /** The tracked encoding after the non-terminator `lines`, starting from `cte`. */
  function EncodingAfter(lines: seq<string>, cte: Option<string>): (r: Option<string>)
    decreases |lines|
  {
    if lines == [] then cte
    else TrackEncoding(lines[|lines| - 1], EncodingAfter(lines[..|lines| - 1], cte))
  }

  predicate NoTerminator(lines: seq<string>) {
    forall i {:trigger IsTerminator(lines[i])} :: 0 <= i < |lines| ==> !IsTerminator(lines[i])
  }

  lemma NoTerminatorPrefix(lines: seq<string>, k: nat)
    requires NoTerminator(lines) && k <= |lines|
    ensures NoTerminator(lines[..k])
  {
    forall i | 0 <= i < k ensures !IsTerminator(lines[..k][i]) {
      assert lines[..k][i] == lines[i] && !IsTerminator(lines[i]);
    }
  }

  /** The body of a message only grows: what was accumulated after the first
      `i` lines is a prefix of what is accumulated after the first `j`. */
  lemma {:induction false} ConcatGrows(lines: seq<string>, i: nat, j: nat)
    requires i <= j <= |lines|
    ensures Concat(lines[..i]) <= Concat(lines[..j])
    decreases j
  {
    if i < j {
      ConcatGrows(lines, i, j - 1);
      assert lines[..j][..j - 1] == lines[..j - 1];
    }
  }

  /** The last header line decides the encoding: later declarations override
      earlier ones. */
  lemma {:induction false} LastHeaderWins(lines: seq<string>, cte: Option<string>, k: nat)
    requires k < |lines| && HeaderName <= lines[k]
    requires forall j :: k < j < |lines| ==> !(HeaderName <= lines[j])
    ensures EncodingAfter(lines, cte) == Some(ToLower(Strip(lines[k][|HeaderName|..])))
    decreases |lines|
  {
    var p := lines[..|lines| - 1];
    if k < |lines| - 1 {
      assert p[k] == lines[k];
      LastHeaderWins(p, cte, k);
    }
  }

  /** Without a header line the encoding is whatever it was before. */
  lemma {:induction false} NoHeaderKeepsEncoding(lines: seq<string>, cte: Option<string>)
    requires forall j :: 0 <= j < |lines| ==> !(HeaderName <= lines[j])
    ensures EncodingAfter(lines, cte) == cte
    decreases |lines|
  {
    if lines != [] {
      NoHeaderKeepsEncoding(lines[..|lines| - 1], cte);
    }
  }
}
