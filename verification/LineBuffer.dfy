/** The AT channel's line buffer: readline() of huawei_tgm/atchannel.c.

ReadLine is the specification on values: the unread text of the buffer and the
batches that the modem side will deliver.  ATBuffer is the code's own shape, a
fixed array that is filled, scanned and compacted in place. */
module LineBuffer {
  import opened CText

  /** MAX_AT_RESPONSE: the buffer holds this many bytes and a NUL. */
  const MAX_AT_RESPONSE: nat := 8192

  predicate IsEol(c: char) {
    c == '\r' || c == '\n'
  }

  predicate EolFree(s: string) {
    forall i | 0 <= i < |s| :: !IsEol(s[i])
  }

  predicate AllEols(s: string) {
    forall i | 0 <= i < |s| :: IsEol(s[i])
  }

  /** How many line ends the text starts with. */
  function LeadingEols(s: string): (k: nat)
    ensures k <= |s| && AllEols(s[..k])
    ensures k < |s| ==> !IsEol(s[k])
  {
    if s == "" || !IsEol(s[0]) then 0 else 1 + LeadingEols(s[1..])
  }

  /** Index of the first line end, or the length of the text. */
  function FirstEol(s: string): (e: nat)
    ensures e <= |s| && EolFree(s[..e])
    ensures e < |s| ==> IsEol(s[e])
  {
    if s == "" || IsEol(s[0]) then 0 else 1 + FirstEol(s[1..])
  }

  lemma {:induction false} LeadingEolsIs(s: string, k: nat)
    requires k <= |s| && AllEols(s[..k])
    requires k < |s| ==> !IsEol(s[k])
    ensures LeadingEols(s) == k
  {
    if k > 0 {
      assert s[..k][0] == s[0];
      assert s[1..][..k - 1] == s[..k][1..];
      LeadingEolsIs(s[1..], k - 1);
    }
  }

  lemma {:induction false} FirstEolIs(s: string, e: nat)
    requires e <= |s| && EolFree(s[..e])
    requires e < |s| ==> IsEol(s[e])
    ensures FirstEol(s) == e
  {
    if e > 0 {
      assert s[..e][0] == s[0];
      assert s[1..][..e - 1] == s[..e][1..];
      FirstEolIs(s[1..], e - 1);
    }
  }

  /** What findNextEOL() answers for the text that starts at index `at`. */
  function NextEol(at: nat, text: string): Option<nat> {
    if text == PROMPT then Some(at + 2)
    else if FirstEol(text) < |text| then Some(at + FirstEol(text))
    else None
  }

  /** The batches that read() will deliver, in order.  An empty batch, like the end
  of the sequence, is a read() that reports end of file or an error. */
  type Batches = seq<string>

  function Bytes(chunks: Batches): string {
    if chunks == [] then "" else chunks[0] + Bytes(chunks[1..])
  }

  ghost predicate Deliverable(chunks: Batches) {
    forall i | 0 <= i < |chunks| :: NulFree(chunks[i])
  }

  /** What one readline() comes back with.  `rest` is the unread text afterwards. */
  datatype Outcome =
    | Line(line: string, rest: string, chunks: Batches)
    | Prompted(chunks: Batches)
    | Eof(rest: string, chunks: Batches)

  function Min(a: nat, b: nat): nat {
    if a < b then a else b
  }

  /** What stays to be delivered after one read() took `count` bytes of the first batch. */
  function Remaining(chunks: Batches, count: nat): (left: Batches)
    requires chunks != [] && 0 < count <= |chunks[0]|
    ensures Bytes(chunks) == chunks[0][..count] + Bytes(left)
    ensures Deliverable(chunks) ==> Deliverable(left) && NulFree(chunks[0][..count])
  {
    if count == |chunks[0]| then chunks[1..] else [chunks[0][count..]] + chunks[1..]
  }

  /** A look for the end of the line that `text` starts with; without one the reading loop goes on. */
  function Scan(dead: nat, text: string, chunks: Batches): Outcome
    requires dead + |text| <= MAX_AT_RESPONSE
    decreases |Bytes(chunks)|, |chunks|, 2
  {
    var e := FirstEol(text);
    if text == PROMPT then Prompted(chunks)
    else if e < |text| then Line(text[..e], text[e + 1..], chunks)
    else Fill(dead, text, chunks)
  }

  /** The reading loop.  `dead` bytes in front of `text` are consumed but still
  occupy the buffer; a full buffer without a line end is thrown away. */
  function Fill(dead: nat, text: string, chunks: Batches): Outcome
    requires dead + |text| <= MAX_AT_RESPONSE
    decreases |Bytes(chunks)|, |chunks|, 1
  {
    if dead + |text| == MAX_AT_RESPONSE then FillMore(0, "", chunks) else FillMore(dead, text, chunks)
  }

  function FillMore(dead: nat, text: string, chunks: Batches): Outcome
    requires dead + |text| < MAX_AT_RESPONSE
    decreases |Bytes(chunks)|, |chunks|, 0
  {
    if chunks == [] then
      Eof(text, [])
    else if chunks[0] == "" then
      Eof(text, chunks[1..])
    else
      var count := Min(|chunks[0]|, MAX_AT_RESPONSE - dead - |text|);
      var got := text + chunks[0][..count];
      var k := LeadingEols(got);
      Scan(dead + k, got[k..], Remaining(chunks, count))
  }

  /** One turn of the reading loop that brought bytes. */
  lemma FillMoreScans(dead: nat, text: string, chunks: Batches, count: nat)
    requires dead + |text| < MAX_AT_RESPONSE && chunks != [] && chunks[0] != ""
    requires count == Min(|chunks[0]|, MAX_AT_RESPONSE - dead - |text|)
    ensures var got := text + chunks[0][..count];
      var k := LeadingEols(got);
      && FillMore(dead, text, chunks) == Scan(dead + k, got[k..], Remaining(chunks, count))
      && (NextEol(dead + k, got[k..]) != None ==> FillMore(dead, text, chunks) == Scan(0, got[k..], Remaining(chunks, count)))
  {
  }

  /** One readline(), on values. */
  function ReadLine(text: string, chunks: Batches): Outcome
    requires |text| <= MAX_AT_RESPONSE
  {
    if text == "" then Fill(0, "", chunks) else Scan(0, text[LeadingEols(text)..], chunks)
  }
}
