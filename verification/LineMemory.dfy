/** The whole array of the AT channel's line buffer, on values: what one readline() of
huawei_tgm/atchannel.c leaves in it and where the cursor is, the bytes that it does not mean to keep included. */
module LineMemory {
  import opened CText
  import opened LineBuffer

  datatype Memory = Memory(bytes: seq<char>, cur: nat)

  /** The last byte of the array is always a NUL, so every C string in it ends. */
  predicate Closed(bytes: seq<char>) {
    |bytes| == MAX_AT_RESPONSE + 1 && bytes[MAX_AT_RESPONSE] == '\0'
  }

  /** Some bytes and a NUL, written at an index. */
  function Put(bytes: seq<char>, at: nat, data: string): (r: seq<char>)
    requires Closed(bytes) && at + |data| <= MAX_AT_RESPONSE
    ensures Closed(r)
  {
    bytes[..at] + data + ['\0'] + bytes[at + |data| + 1..]
  }

  /** LineBuffer.Scan, with the bytes. */
  function ScanMemory(bytes: seq<char>, cur: nat, text: string, chunks: Batches): (m: Memory)
    requires Closed(bytes) && cur + |text| <= MAX_AT_RESPONSE
    ensures Closed(m.bytes) && m.cur <= MAX_AT_RESPONSE + 1
    decreases |Bytes(chunks)|, |chunks|, 2
  {
    var e := FirstEol(text);
    if text == PROMPT then Memory(bytes[cur + 2 := '\0'], cur + 3)
    else if e < |text| then Memory(bytes[cur + e := '\0'], cur + e + 1)
    else FillMemory(bytes, cur, text, chunks)
  }

  function FillMemory(bytes: seq<char>, cur: nat, text: string, chunks: Batches): (m: Memory)
    requires Closed(bytes) && cur + |text| <= MAX_AT_RESPONSE
    ensures Closed(m.bytes) && m.cur <= MAX_AT_RESPONSE + 1
    decreases |Bytes(chunks)|, |chunks|, 1
  {
    if cur + |text| == MAX_AT_RESPONSE then FillMoreMemory(bytes[0 := '\0'], 0, "", chunks)
    else FillMoreMemory(bytes, cur, text, chunks)
  }

  function FillMoreMemory(bytes: seq<char>, cur: nat, text: string, chunks: Batches): (m: Memory)
    requires Closed(bytes) && cur + |text| < MAX_AT_RESPONSE
    ensures Closed(m.bytes) && m.cur <= MAX_AT_RESPONSE + 1
    decreases |Bytes(chunks)|, |chunks|, 0
  {
    if chunks == [] || chunks[0] == "" then
      Memory(bytes, cur)
    else
      var count := Min(|chunks[0]|, MAX_AT_RESPONSE - cur - |text|);
      var got := text + chunks[0][..count];
      var k := LeadingEols(got);
      ScanMemory(Put(bytes, cur + |text|, chunks[0][..count]), cur + k, got[k..], Remaining(chunks, count))
  }

  /** One readline(): the unread text is at the cursor. */
  function ReadLineMemory(bytes: seq<char>, cur: nat, text: string, chunks: Batches): (m: Memory)
    requires Closed(bytes) && cur + |text| <= MAX_AT_RESPONSE
    ensures Closed(m.bytes) && m.cur <= MAX_AT_RESPONSE + 1
  {
    if text == "" then
      FillMemory(bytes[0 := '\0'], 0, "", chunks)
    else
      var k := LeadingEols(text);
      if NextEol(0, text[k..]) == None then FillMemory(Put(bytes, 0, text[k..]), 0, text[k..], chunks)
      else ScanMemory(bytes, cur + k, text[k..], chunks)
  }

  /** The C string at an index. */
  function CStr(bytes: seq<char>, i: nat): (s: string)
    requires Closed(bytes) && i <= MAX_AT_RESPONSE
    ensures i + |s| <= MAX_AT_RESPONSE && bytes[i + |s|] == '\0' && NulFree(s)
    ensures forall j | 0 <= j < |s| :: s[j] == bytes[i + j]
    decreases MAX_AT_RESPONSE - i
  {
    if bytes[i] == '\0' then "" else [bytes[i]] + CStr(bytes, i + 1)
  }
}
