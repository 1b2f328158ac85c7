/** sp_response and the state around it, updated in place as huawei_tgm/atchannel.c does. */
module AtChannels {
  import opened CText
  import opened AtLines

  /** A node of the intermediate responses. */
  class ATLine {
    const line: string
    var next: ATLine?

    constructor (line: string, next: ATLine?)
      ensures this.line == line && this.next == next
    {
      this.line := line;
      this.next := next;
    }
  }

  /** `nodes` are the nodes of the list that starts at `head`, each once. */
  ghost predicate Chained(head: ATLine?, nodes: seq<ATLine>)
    reads nodes
  {
    && head == (if nodes == [] then null else nodes[0])
    && (forall i {:trigger nodes[i].next} | 0 <= i < |nodes| - 1 :: nodes[i].next == nodes[i + 1])
    && (nodes != [] ==> nodes[|nodes| - 1].next == null)
    && (forall i, j | 0 <= i < j < |nodes| :: nodes[i] != nodes[j])
  }

  function Texts(nodes: seq<ATLine>): (r: seq<string>)
    ensures |r| == |nodes|
    ensures forall i | 0 <= i < |r| :: r[i] == nodes[i].line
  {
    if nodes == [] then [] else [nodes[0].line] + Texts(nodes[1..])
  }

  lemma TextsCons(node: ATLine, nodes: seq<ATLine>)
    ensures Texts([node] + nodes) == [node.line] + Texts(nodes)
  {
    assert ([node] + nodes)[1..] == nodes;
  }

  lemma ChainedCons(node: ATLine, head: ATLine?, nodes: seq<ATLine>)
    requires Chained(head, nodes) && node.next == head && node !in nodes
    ensures Chained(node, [node] + nodes)
  {
  }

  /** A new first node. */
  method Cons(line: string, head: ATLine?, ghost nodes: seq<ATLine>) returns (node: ATLine)
    requires Chained(head, nodes)
    ensures node.line == line && Chained(node, [node] + nodes)
  {
    node := new ATLine(line, head);
    assert node !in nodes;
    ChainedCons(node, head, nodes);
  }

  class ATResponse {
    var success: bool
    var finalResponse: Option<string>
    var intermediates: ATLine?
    ghost var nodes: seq<ATLine>

    ghost predicate Valid()
      reads this, nodes
    {
      Chained(intermediates, nodes)
    }

    ghost function Value(): Response
      reads this
    {
      Response(success, finalResponse, Texts(nodes))
    }

    constructor ()
      ensures Valid() && nodes == [] && Value() == EMPTY
    {
      success := false;
      finalResponse := None;
      intermediates := null;
      nodes := [];
    }

    /** Adds to the head of the list, so the list is in reverse order of arrival. */
    method AddIntermediate(line: string)
      requires Valid()
      modifies this
      ensures Valid()
      ensures Value() == old(Value()).(intermediates := [line] + old(Value()).intermediates)
    {
      var node := Cons(line, intermediates, nodes);
      ghost var more := [node] + nodes;
      assert Texts(more) == [line] + Texts(nodes) by {
        TextsCons(node, nodes);
      }
      nodes := more;
      intermediates := node;
    }

    /** Flips the links. */
    method FlipNodes()
      requires Valid()
      modifies this`intermediates, this`nodes, nodes
      ensures Valid() && nodes == Backwards(old(nodes))
    {
      ghost var back := Backwards(nodes);
      intermediates := Flip(intermediates, nodes);
      nodes := back;
    }

    /** Flips the list in place. */
    method ReverseIntermediates()
      requires Valid()
      modifies this`intermediates, this`nodes, nodes
      ensures Valid() && Value() == old(Value()).(intermediates := Reversed(old(Value()).intermediates))
      ensures |nodes| == |old(nodes)| && forall n | n in nodes :: n in old(nodes)
    {
      ghost var texts := Texts(Backwards(nodes));
      assert texts == Reversed(Texts(nodes)) by {
        TextsBackwards(nodes);
      }
      FlipNodes();
    }
  }

  ghost function Backwards(nodes: seq<ATLine>): (r: seq<ATLine>)
    ensures |r| == |nodes|
    ensures forall i | 0 <= i < |r| :: r[i] == nodes[|nodes| - 1 - i]
    ensures forall n | n in r :: n in nodes
  {
    seq(|nodes|, i requires 0 <= i < |nodes| => nodes[|nodes| - 1 - i])
  }

  /** Turns every link of a list around; returns the new head. */
  method Flip(head: ATLine?, ghost nodes: seq<ATLine>) returns (flipped: ATLine?)
    requires Chained(head, nodes)
    modifies nodes
    ensures Chained(flipped, Backwards(nodes))
  {
    flipped := null;
    var cur := head;
    ghost var k := 0;
    while cur != null
      invariant k <= |nodes|
      invariant cur == if k < |nodes| then nodes[k] else null
      invariant flipped == if k > 0 then nodes[k - 1] else null
      invariant forall i {:trigger nodes[i].next} | k <= i < |nodes| - 1 :: nodes[i].next == nodes[i + 1]
      invariant k < |nodes| ==> nodes[|nodes| - 1].next == null
      invariant forall i {:trigger nodes[i].next} | 0 < i < k :: nodes[i].next == nodes[i - 1]
      invariant k > 0 ==> nodes[0].next == null
      decreases |nodes| - k
    {
      var next := cur.next;
      cur.next := flipped;
      flipped := cur;
      cur := next;
      k := k + 1;
    }
  }

  lemma {:induction false} TextsBackwards(nodes: seq<ATLine>)
    ensures Texts(Backwards(nodes)) == Reversed(Texts(nodes))
  {
    if nodes != [] {
      TextsBackwards(nodes[1..]);
      assert Backwards(nodes) == Backwards(nodes[1..]) + [nodes[0]];
      assert Texts(Backwards(nodes)) == Texts(Backwards(nodes[1..])) + [nodes[0].line];
    }
  }

  class ATChannel {
    var kind: CommandType
    var prefix: Option<string>
    var pdu: Option<string>
    var response: ATResponse?
    var signalled: bool  // pthread_cond_signal() since the issuer last looked
    var closed: bool     // s_readerClosed
    ghost var unsolicited: seq<string>  // lines handed to the unsolicited handler
    ghost var written: seq<string>  // PDUs written behind a prompt

    ghost predicate Valid()
      reads this, response, if response != null then response.nodes else []
    {
      response != null ==> response.Valid()
    }

    ghost function Value(): Slot
      reads this, response
    {
      Slot(kind, prefix, pdu, if response == null then None else Some(response.Value()))
    }

    constructor ()
      ensures Valid() && Cleared(Value()) && !closed && unsolicited == [] && written == []
    {
      kind := NoResult;
      prefix, pdu, response := None, None, null;
      signalled, closed := false, false;
      unsolicited, written := [], [];
    }

    method HandleFinalResponse(line: string)
      requires response != null && Valid()
      modifies this`signalled, response`finalResponse
      ensures Valid() && signalled
      ensures response.Value() == old(response.Value()).(final := Some(line))
    {
      response.finalResponse := Some(line);
      signalled := true;
    }

    method HandleUnsolicited(line: string)
      modifies this`unsolicited
      ensures unsolicited == old(unsolicited) + [line]
    {
      unsolicited := unsolicited + [line];
    }

    /** The last resort of a line: an intermediate response of the pending command, or unsolicited. */
    method OfferIntermediate(line: string)
      requires Valid() && response != null
      modifies this`unsolicited, response
      ensures Valid()
      ensures var none := old(Value()).response.value.intermediates == [];
        if Matches(kind, prefix, line) && (TakesOne(kind) ==> none) then
          Value() == AddIntermediate(old(Value()), line) && unsolicited == old(unsolicited)
        else
          Value() == old(Value()) && unsolicited == old(unsolicited) + [line]
    {
      var none := response.intermediates == null;
      assert none == (response.Value().intermediates == []);
      match kind
      case NoResult =>
        HandleUnsolicited(line);
      case Numeric =>
        if none && StartsWithDigit(line) {
          response.AddIntermediate(line);
        } else {
          HandleUnsolicited(line);
        }
      case SingleLine =>
        if none && HasPrefix(line, prefix) {
          response.AddIntermediate(line);
        } else {
          HandleUnsolicited(line);
        }
      case MultiLine =>
        if HasPrefix(line, prefix) {
          response.AddIntermediate(line);
        } else {
          HandleUnsolicited(line);
        }
    }

    /** A final line: the last one counts. */
    method Conclude(line: string, success: bool)
      requires response != null && Valid()
      modifies this`signalled, response`success, response`finalResponse
      ensures Valid() && signalled
      ensures Value() == old(Value()).(response := Some(old(response.Value()).(success := success, final := Some(line))))
    {
      response.success := success;
      HandleFinalResponse(line);
    }

    /** The prompt that the PDU answers. */
    method AnswerPrompt()
      requires Valid() && pdu.Some?
      modifies this`pdu, this`written
      ensures Valid() && Value() == old(Value()).(pdu := None) && written == old(written) + [old(pdu).value]
    {
      written := written + [pdu.value];
      pdu := None;
    }

    /** Routes one line; the lock is held throughout. */
    method ProcessLine(line: string)
      requires Valid()
      modifies this`pdu, this`signalled, this`unsolicited, this`written, response
      ensures Valid() && (response == old(response))
      ensures Value() == Route(old(Value()), line).0
      ensures var d := Route(old(Value()), line).1;
        && unsolicited == old(unsolicited) + (if d == Unsolicited then [line] else [])
        && written == old(written) + (if d.PromptReply? then [d.pdu] else [])
        && signalled == (old(signalled) || d == Final)
    {
      if response == null {
        HandleUnsolicited(line);
      } else if IsFinalSuccess(line) {
        Conclude(line, true);
      } else if IsFinalError(line) {
        Conclude(line, false);
      } else if pdu != None && line == PROMPT {
        AnswerPrompt();
      } else {
        OfferIntermediate(line);
      }
    }

    /** clearPendingCommand(). */
    method ClearPendingCommand()
      modifies this`response, this`prefix, this`pdu
      ensures Valid() && Cleared(Value()) && kind == old(kind)
    {
      response, prefix, pdu := null, None, None;
    }

    /** at_close(), under the lock: marks the channel and wakes the issuer. */
    method Close()
      modifies this`closed, this`signalled
      ensures closed && signalled
    {
      closed := true;
      signalled := true;
    }

    /** at_open(), which takes no lock and forgets the response without freeing it. */
    method Open()
      modifies this`closed, this`response, this`prefix, this`pdu
      ensures Valid() && !closed && Cleared(Value()) && kind == old(kind)
    {
      closed := false;
      response, prefix, pdu := null, None, None;
    }

    /** at_send_command_full_nolock() behind the write: the slot the reader fills. */
    method Install(kind: CommandType, prefix: Option<string>, pdu: Option<string>)
      modifies this`kind, this`prefix, this`pdu, this`response, this`signalled
      ensures Valid() && Value() == Fresh(kind, prefix, pdu)
    {
      this.kind, this.prefix, this.pdu := kind, prefix, pdu;
      response := new ATResponse();
      signalled := false;
    }

    /** at_send_command_full_nolock() behind the wait: hands the response over in order of
    arrival, if the caller wants it, and clears the slot. */
    method HandOver(want: bool) returns (out: ATResponse?)
      requires Valid() && response != null
      modifies this`response, this`prefix, this`pdu, response, response.nodes
      ensures Valid() && Cleared(Value())
      ensures out == if want then old(response) else null
      ensures want ==> out.Valid()
      ensures want ==> out.Value() == old(response.Value()).(intermediates := Reversed(old(response.Value()).intermediates))
    {
      out := null;
      if want {
        response.ReverseIntermediates();
        out := response;
      }
      response := null;
      ClearPendingCommand();
    }
  }
}
