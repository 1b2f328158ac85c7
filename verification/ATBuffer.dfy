/** s_ATBuffer and s_ATBufferCur of huawei_tgm/atchannel.c, updated in place. */
module ATBuffers {
  import opened CText
  import opened LineBuffer
  import opened LineMemory

  class ATBuffer {
    const buf: array<char>
    var cur: nat
    var chunks: Batches
    ghost var unread: string  // the C string that starts at the cursor

    ghost predicate Valid()
      reads this, buf
    {
      && buf.Length == MAX_AT_RESPONSE + 1 && buf[MAX_AT_RESPONSE] == '\0'
      && Deliverable(chunks)
      && TextAt(cur, unread)
    }

    /** `text`, NUL-free, lies at index `at`, and a NUL ends it inside the buffer. */
    ghost predicate TextAt(at: nat, text: string)
      reads buf
    {
      && at + |text| < buf.Length
      && NulFree(text)
      && buf[at + |text|] == '\0'
      && forall i | at <= i < at + |text| :: buf[i] == text[i - at]
    }

    constructor (chunks: Batches)
      requires Deliverable(chunks)
      ensures Valid() && fresh(buf) && unread == "" && this.chunks == chunks
      ensures cur == 0 && forall i | 0 <= i < buf.Length :: buf[i] == '\0'
    {
      buf := new char[MAX_AT_RESPONSE + 1](_ => '\0');
      cur := 0;
      this.chunks := chunks;
      unread := "";
    }

    /** Skips over leading newlines. */
    method SkipEols()
      requires Valid()
      modifies this`cur, this`unread
      ensures Valid() && cur + |unread| == old(cur + |unread|)
      ensures unread == old(unread)[LeadingEols(old(unread))..]
    {
      ghost var text, start := unread, cur;
      while buf[cur] == '\r' || buf[cur] == '\n'
        invariant start <= cur <= start + |text|
        invariant forall j | 0 <= j < cur - start :: IsEol(text[j])
        decreases start + |text| - cur
      {
        cur := cur + 1;
      }
      LeadingEolsIs(text, cur - start);
      unread := text[cur - start..];
    }

    /** Is the unread text exactly the SMS prompt? */
    method AtPrompt() returns (b: bool)
      requires Valid()
      ensures b == (unread == PROMPT)
    {
      b := buf[cur] == '>' && buf[cur + 1] == ' ' && buf[cur + 2] == '\0';
    }

    /** The first line end of the unread text, if it has one. */
    method FindEol() returns (eol: Option<nat>)
      requires Valid()
      ensures eol == if FirstEol(unread) < |unread| then Some(cur + FirstEol(unread)) else None
    {
      var i := cur;
      while buf[i] != '\0' && buf[i] != '\r' && buf[i] != '\n'
        invariant cur <= i <= cur + |unread|
        invariant forall j | 0 <= j < i - cur :: !IsEol(unread[j])
        decreases cur + |unread| - i
      {
        i := i + 1;
      }
      FirstEolIs(unread, i - cur);
      eol := if buf[i] == '\0' then None else Some(i);
    }

    /** The end of the next line, special-casing the SMS prompt, which has none:
    for it the index of the terminating NUL comes back. */
    method FindNextEol() returns (eol: Option<nat>)
      requires Valid()
      ensures eol == NextEol(cur, unread)
    {
      var prompt := AtPrompt();
      if prompt {
        return Some(cur + 2);
      }
      eol := FindEol();
    }

    /** Moves a partial line to the front; returns where to read on. */
    method Compact() returns (len: nat)
      requires Valid()
      modifies this`cur, buf
      ensures Valid() && cur == 0 && len == |unread| && buf[..] == Put(old(buf[..]), 0, unread)
    {
      len := 0;
      while buf[cur + len] != '\0'
        invariant len <= |unread|
        decreases |unread| - len
      {
        len := len + 1;
      }
      forall i | 0 <= i <= len {
        buf[i] := buf[cur + i];
      }
      cur := 0;
    }

    /** Throws the whole buffer away. */
    method Ditch()
      requires Valid()
      modifies this`cur, this`unread, buf
      ensures Valid() && cur == 0 && unread == "" && buf[..] == old(buf[..])[0 := '\0']
    {
      cur := 0;
      buf[0] := '\0';
      unread := "";
    }

    /** read() at index `at`, the NUL behind the new bytes included; 0 is end of file or an error. */
    method Read(at: nat) returns (count: nat)
      requires Valid() && at == cur + |unread| < MAX_AT_RESPONSE
      modifies this`chunks, this`unread, buf
      ensures Valid() && cur + |unread| == at + count
      ensures if old(chunks) == [] || old(chunks)[0] == "" then
                && count == 0 && unread == old(unread) && buf[..] == old(buf[..])
                && chunks == if old(chunks) == [] then [] else old(chunks)[1..]
              else
                && count == Min(|old(chunks)[0]|, MAX_AT_RESPONSE - at)
                && unread == old(unread) + old(chunks)[0][..count]
                && buf[..] == Put(old(buf[..]), at, old(chunks)[0][..count])
                && chunks == Remaining(old(chunks), count)
    {
      if chunks == [] || chunks[0] == "" {
        chunks := if chunks == [] then [] else chunks[1..];
        return 0;
      }
      var batch := chunks[0];
      count := Min(|batch|, MAX_AT_RESPONSE - at);
      forall i | 0 <= i < count {
        buf[at + i] := batch[i];
      }
      buf[at + count] := '\0';
      assert buf[..] == Put(old(buf[..]), at, batch[..count]);
      unread := unread + batch[..count];
      chunks := Remaining(chunks, count);
    }

    /** Where readline() stands when it has looked for a line end: the whole unread text ends
    at `at`, and what is left of readline() is the specification's scan of that text. */
    ghost predicate Scanned(eol: Option<nat>, at: nat, spec: Outcome, mem: Memory)
      reads this, buf
    {
      && Valid()
      && at == cur + |unread|
      && eol == NextEol(cur, unread)
      && spec == Scan(if eol == None then cur else 0, unread, chunks)
      && mem == ScanMemory(buf[..], cur, unread, chunks)
    }

    /** One turn of the reading loop: more bytes at index `at`, then another look for the line end. */
    method Fetch(at: nat) returns (count: nat, eol: Option<nat>)
      requires Valid() && at == cur + |unread| < MAX_AT_RESPONSE && NextEol(cur, unread) == None
      modifies this`cur, this`chunks, this`unread, buf
      ensures Valid() && cur + |unread| == at + count && eol == NextEol(cur, unread)
      ensures if old(chunks) == [] || old(chunks)[0] == "" then
                && count == 0 && unread == old(unread) && eol == None && cur == old(cur) && buf[..] == old(buf[..])
                && chunks == if old(chunks) == [] then [] else old(chunks)[1..]
              else
                count == Min(|old(chunks)[0]|, MAX_AT_RESPONSE - at) &&
                var got := old(unread) + old(chunks)[0][..count];
                && cur == old(cur) + LeadingEols(got)
                && unread == got[LeadingEols(got)..]
                && chunks == Remaining(old(chunks), count)
                && buf[..] == Put(old(buf[..]), at, old(chunks)[0][..count])
    {
      eol := None;
      count := Read(at);
      if count > 0 {
        SkipEols();
        eol := FindNextEol();
      }
    }

    /** The line handed back and the state left behind are the specification's.  After a prompt the
    cursor lies one past the NUL that ends it: on whatever C string is there, or past the array. */
    ghost predicate Returned(line: Option<string>, spec: Outcome)
      reads this, buf
    {
      match spec
      case Line(text, rest, left) =>
        line == Some(text) && Valid() && unread == rest && chunks == left
      case Eof(rest, left) =>
        line == None && Valid() && unread == rest && chunks == left
      case Prompted(left) =>
        && line == Some(PROMPT) && chunks == left && 3 <= cur <= buf.Length
        && (Valid() <==> cur < buf.Length)
        && (cur < buf.Length ==> Closed(buf[..]) && unread == CStr(buf[..], cur))
    }

    /** Puts a NUL at index `end`, moves the cursor past it and returns the text in front of it. */
    method Cut(end: nat) returns (line: string)
      requires Valid() && cur <= end <= cur + |unread|
      modifies this`cur, this`unread, buf
      ensures line == old(unread)[..end - old(cur)] && cur == end + 1
      ensures end < old(cur + |unread|) ==> Valid() && unread == old(unread)[end - old(cur) + 1..]
      ensures buf[old(cur)..cur] == line + "\0"
      ensures buf[..] == old(buf[..])[end := '\0']
    {
      line := buf[cur..end];
      ghost var before, text, k := buf[..], unread, end - cur;
      assert line == text[..k];
      buf[end] := '\0';
      assert buf[..] == before[end := '\0'];
      cur := end + 1;
      unread := if k < |text| then text[k + 1..] else "";
    }

    /** Takes the line that ends at index `end` off the buffer. */
    method TakeLine(end: nat, ghost spec: Outcome, ghost mem: Memory) returns (line: Option<string>)
      requires Valid() && Scanned(Some(end), cur + |unread|, spec, mem)
      modifies this`cur, this`unread, buf
      ensures Returned(line, spec) && Memory(buf[..], cur) == mem
    {
      ghost var before := unread;
      var text := Cut(end);
      if before == PROMPT {
        assert text == before;
        if cur < buf.Length {
          unread := CStr(buf[..], cur);
        }
      }
      line := Some(text);
    }

    /** Before the reading loop: starts an empty buffer again, or looks for a line in what is
    there and moves a partial one to the front.  Also says where to read on. */
    method Resume() returns (pRead: nat, eol: Option<nat>)
      requires Valid()
      modifies this`cur, this`unread, buf
      ensures eol == None ==> pRead == cur + |unread|
      ensures Scanned(eol, cur + |unread|, LineBuffer.ReadLine(old(unread), chunks),
                      ReadLineMemory(old(buf[..]), old(cur), old(unread), chunks))
    {
      pRead, eol := 0, None;
      if buf[cur] == '\0' {
        Ditch();
      } else {
        SkipEols();
        eol := FindNextEol();
        if eol == None {
          pRead := Compact();
        }
      }
    }

    /** Throws a full buffer away. */
    method MakeRoom(at: nat, ghost spec: Outcome, ghost mem: Memory) returns (pRead: nat)
      requires Scanned(None, at, spec, mem)
      modifies this`cur, this`unread, buf
      ensures Valid() && pRead == cur + |unread| < MAX_AT_RESPONSE && NextEol(cur, unread) == None
      ensures spec == FillMore(cur, unread, chunks) && mem == FillMoreMemory(buf[..], cur, unread, chunks)
    {
      assert spec == Fill(cur, unread, chunks) && mem == FillMemory(buf[..], cur, unread, chunks);
      pRead := at;
      if MAX_AT_RESPONSE - pRead == 0 {
        Ditch();
        pRead := 0;
      }
    }

    /** One turn of the reading loop with room in the buffer: reads and looks for the line end. */
    method Turn(at: nat, ghost spec: Outcome, ghost mem: Memory) returns (pRead: nat, eol: Option<nat>, eof: bool)
      requires Valid() && at == cur + |unread| < MAX_AT_RESPONSE && NextEol(cur, unread) == None
      requires spec == FillMore(cur, unread, chunks) && mem == FillMoreMemory(buf[..], cur, unread, chunks)
      modifies this`cur, this`chunks, this`unread, buf
      ensures eof ==> Valid() && spec == Eof(unread, chunks) && mem == Memory(buf[..], cur)
      ensures !eof ==> Scanned(eol, pRead, spec, mem) && |Bytes(chunks)| < |old(Bytes(chunks))|
    {
      ghost var dead, text, left := cur, unread, chunks;
      var count;
      count, eol := Fetch(at);
      if count > 0 {
        FillMoreScans(dead, text, left, count);
      }
      pRead := at + count;
      eof := count == 0;
    }

    /** Reads a line, or None at end of file. */
    method ReadLine() returns (line: Option<string>)
      requires Valid()
      modifies this`cur, this`chunks, this`unread, buf
      ensures Returned(line, LineBuffer.ReadLine(old(unread), old(chunks)))
      ensures Memory(buf[..], cur) == ReadLineMemory(old(buf[..]), old(cur), old(unread), old(chunks))
    {
      ghost var spec, mem := LineBuffer.ReadLine(unread, chunks), ReadLineMemory(buf[..], cur, unread, chunks);
      var pRead, eol := Resume();
      ghost var at: nat := cur + |unread|;
      while eol == None
        invariant Scanned(eol, at, spec, mem)
        invariant eol == None ==> pRead == at
        decreases |Bytes(chunks)|, eol == None
      {
        var eof;
        pRead := MakeRoom(pRead, spec, mem);
        pRead, eol, eof := Turn(pRead, spec, mem);
        if eof {
          return None;
        }
        at := pRead;
      }
      line := TakeLine(eol.value, spec, mem);
    }
  }
}
