/** huawei_tgm/at_tok.c on the line itself: the cursor moves through it and strsep() writes NULs
into it. */
module Tokenizers {
  import opened CText
  import opened TokenText
  import opened TokenRoundTrip

  /** The C string at index i of s is `text`. */
  ghost predicate At(s: seq<char>, i: nat, text: string) {
    && i + |text| < |s| && s[i + |text|] == '\0' && NulFree(text)
    && forall j | 0 <= j < |text| :: s[i + j] == text[j]
  }

  lemma AtTail(s: seq<char>, i: nat, text: string, k: nat)
    requires At(s, i, text) && k <= |text|
    ensures At(s, i + k, text[k..])
  {
    forall j | 0 <= j < |text| - k
      ensures s[i + k + j] == text[k..][j]
    {
      assert s[i + (k + j)] == text[k + j];
    }
  }

  /** A NUL written into a string cuts it in two. */
  lemma Cut(s: seq<char>, i: nat, text: string, k: nat)
    requires At(s, i, text) && k < |text|
    ensures At(s[i + k := '\0'], i, text[..k]) && At(s[i + k := '\0'], i + k + 1, text[k + 1..])
  {
    AtTail(s, i, text, k + 1);
  }

  /** A string stays what it is while nothing is written between its first character and its NUL. */
  lemma StaysAt(s: seq<char>, s': seq<char>, i: nat, text: string, end: nat)
    requires At(s, i, text) && i + |text| < end <= |s| == |s'|
    requires forall j | 0 <= j < end :: s'[j] == s[j]
    ensures At(s', i, text)
  {
  }

  class Tokenizer {
    const buf: array<char>
    var cur: Option<nat>            // *p_cur; None is NULL
    ghost var rest: Option<string>  // the C string there

    ghost predicate Valid()
      reads this, buf
    {
      && (cur == None <==> rest == None)
      && (cur.Some? ==> At(buf[..], cur.value, rest.value))
    }

    /** A line of its own. */
    constructor (line: string)
      requires NulFree(line)
      ensures Valid() && rest == Some(line) && fresh(buf)
    {
      var all := line + "\0";
      buf := new char[|all|](i requires 0 <= i < |all| => all[i]);
      cur, rest := Some(0), Some(line);
    }

    /** The first place from the cursor on where c is, or the terminating NUL. */
    method Find(c: char) returns (i: nat)
      requires Valid() && cur.Some? && c != '\0'
      ensures i == cur.value + IndexOf(rest.value, c) && i < buf.Length
    {
      i := cur.value;
      ghost var text, k := rest.value, 0;
      while buf[i] != '\0' && buf[i] != c
        invariant k <= |text| && i == cur.value + k && c !in text[..k]
        decreases |text| - k
      {
        assert buf[..][cur.value + k] == text[k];
        assert text[..k + 1] == text[..k] + [text[k]];
        i, k := i + 1, k + 1;
      }
      assert k < |text| ==> buf[..][cur.value + k] == text[k];
      IndexOfIs(text, c, k);
    }

    /** Moves the cursor on by k characters. */
    method Advance(k: nat)
      requires Valid() && cur.Some? && k <= |rest.value|
      modifies this
      ensures Valid() && cur == Some(old(cur.value) + k) && rest == Some(old(rest.value)[k..])
    {
      AtTail(buf[..], cur.value, rest.value, k);
      cur, rest := Some(cur.value + k), Some(rest.value[k..]);
    }

    /** at_tok_start() */
    method Start() returns (ok: bool)
      requires Valid()
      modifies this
      ensures Valid() && rest == Started(old(rest)) && ok == rest.Some?
    {
      if cur == None {
        return false;
      }
      var i := Find(':');
      if buf[i] == '\0' {
        assert buf[..][cur.value + |rest.value|] == '\0';
        cur, rest := None, None;
        return false;
      }
      Advance(i + 1 - cur.value);
      ok := true;
    }

    /** skipWhiteSpace() */
    method SkipWhiteSpace()
      requires Valid()
      modifies this
      ensures Valid() && (old(cur) == None ==> cur == None)
      ensures old(cur).Some? ==> cur == Some(old(cur.value) + Spaces(old(rest.value)))
      ensures old(cur).Some? ==> rest == Some(old(rest.value)[Spaces(old(rest.value))..])
    {
      if cur == None {
        return;
      }
      while buf[cur.value] != '\0' && IsSpace(buf[cur.value])
        invariant Valid() && cur.Some? && |rest.value| <= |old(rest.value)|
        invariant cur.value == old(cur.value) + |old(rest.value)| - |rest.value|
        invariant rest.value == old(rest.value)[|old(rest.value)| - |rest.value|..]
        invariant Spaces(old(rest.value)) == |old(rest.value)| - |rest.value| + Spaces(rest.value)
        decreases |rest.value|
      {
        assert buf[..][cur.value + 0] == rest.value[0];
        Advance(1);
      }
      assert rest.value != "" ==> buf[..][cur.value + 0] == rest.value[0];
    }

    /** skipNextComma() */
    method SkipNextComma()
      requires Valid()
      modifies this
      ensures Valid() && (old(cur) == None ==> cur == None)
      ensures old(cur).Some? ==> cur.Some? && cur.value >= old(cur.value) && rest == Some(AfterComma(old(rest.value)))
    {
      if cur == None {
        return;
      }
      var i := Find(',');
      AtTail(buf[..], cur.value, rest.value, i - cur.value);
      Advance(i - cur.value);
      if buf[cur.value] == ',' {
        Advance(1);
      }
    }

    /** The cursor has moved on, and nothing in front of the old one has been written to. */
    twostate predicate Moved()
      reads this, buf
    {
      && Valid() && old(cur).Some?
      && (cur.Some? ==> old(cur.value) <= cur.value)
      && forall j | 0 <= j < old(cur.value) && j < buf.Length :: buf[j] == old(buf[j])
    }

    /** A token: where it is, between the old cursor and the new one, and what it says. */
    twostate predicate Took(tok: nat, token: string)
      reads this, buf
    {
      && Moved() && At(buf[..], tok, token)
      && old(cur.value) <= tok && (cur.Some? ==> tok + |token| < cur.value)
    }

    /** strsep() with one delimiter. */
    method StrSep(c: char) returns (tok: nat)
      requires Valid() && cur.Some? && c != '\0'
      modifies this, buf
      ensures tok == old(cur.value)
      ensures Took(tok, Separated(old(rest.value), c).0) && rest == Separated(old(rest.value), c).1
    {
      tok := cur.value;
      var i := Find(c);
      ghost var k := i - tok;
      assert buf[..][tok + k] == if k < |rest.value| then rest.value[k] else '\0';
      if buf[i] == '\0' {
        cur, rest := None, None;
      } else {
        Cut(buf[..], tok, rest.value, k);
        ghost var after := buf[..][i := '\0'];
        buf[i] := '\0';
        assert buf[..] == after;
        cur, rest := Some(i + 1), Some(rest.value[k + 1..]);
      }
    }

    /** nextTok() */
    method NextTok() returns (tok: Option<nat>)
      requires Valid()
      modifies this, buf
      ensures old(cur) == None ==> tok == None && Valid() && cur == None && buf[..] == old(buf[..])
      ensures old(cur).Some? ==> tok.Some? && Took(tok.value, NextToken(old(rest.value)).0) && rest == NextToken(old(rest.value)).1
    {
      SkipWhiteSpace();
      if cur == None {
        return None;
      }
      assert buf[..][cur.value + 0] == if rest.value == "" then '\0' else rest.value[0];
      if buf[cur.value] == '"' {
        Advance(1);
        var at := StrSep('"');
        SkipNextComma();
        tok := Some(at);
      } else {
        var at := StrSep(',');
        tok := Some(at);
      }
    }

    /** The C string at a place. */
    method Text(place: nat, ghost text: string) returns (s: string)
      requires At(buf[..], place, text)
      ensures s == text
    {
      assert forall j | 0 <= j < |text| :: text[j] != '\0';
      s := "";
      while buf[place + |s|] != '\0'
        invariant |s| <= |text| && s == text[..|s|]
        invariant buf[..][place + |s|] == if |s| < |text| then text[|s|] else '\0'
        decreases |text| - |s|
      {
        s := s + [buf[place + |s|]];
      }
    }

    /** at_tok_nextint_base(), for a long whose largest value is longMax.  It fails on NULL and on a
    token without digits. */
    method NextIntBase(base: int, uns: bool, longMax: int) returns (ok: bool, out: int)
      requires Valid()
      modifies this, buf
      ensures Valid() && (old(cur) == None ==> !ok && cur == None && buf[..] == old(buf[..]))
      ensures old(cur).Some? ==>
        var (token, cursor) := NextToken(old(rest.value));
        var n := IntOf(token, base, uns, longMax);
        Moved() && rest == cursor && ok == n.Some? && out == (if ok then n.value else 0)
    {
      if cur == None {
        return false, 0;
      }
      ghost var token := NextToken(rest.value).0;
      var tok := NextTok();
      var text := Text(tok.value, token);
      var l := StrTo(text, base, uns, longMax);
      ok := l.Some?;
      out := if ok then ToInt(l.value) else 0;
    }

    /** at_tok_nextint() */
    method NextInt(longMax: int) returns (ok: bool, out: int)
      requires Valid()
      modifies this, buf
      ensures Valid() && (old(cur) == None ==> !ok && cur == None && buf[..] == old(buf[..]))
      ensures old(cur).Some? ==>
        var (token, cursor) := NextToken(old(rest.value));
        var n := IntOf(token, 10, false, longMax);
        Moved() && rest == cursor && ok == n.Some? && out == (if ok then n.value else 0)
    {
      ok, out := NextIntBase(10, false, longMax);
    }

    /** at_tok_nexthexint() */
    method NextHexInt(longMax: int) returns (ok: bool, out: int)
      requires Valid()
      modifies this, buf
      ensures Valid() && (old(cur) == None ==> !ok && cur == None && buf[..] == old(buf[..]))
      ensures old(cur).Some? ==>
        var (token, cursor) := NextToken(old(rest.value));
        var n := IntOf(token, 16, true, longMax);
        Moved() && rest == cursor && ok == n.Some? && out == (if ok then n.value else 0)
    {
      ok, out := NextIntBase(16, true, longMax);
    }

    /** at_tok_nextbool() */
    method NextBool(longMax: int) returns (ok: bool, out: bool)
      requires Valid()
      modifies this, buf
      ensures Valid() && (old(cur) == None ==> !ok && cur == None)
      ensures old(cur).Some? ==>
        var (token, cursor) := NextToken(old(rest.value));
        var b := AsBool(IntOf(token, 10, false, longMax));
        Moved() && rest == cursor && (ok <==> b.Some?) && (ok ==> out == b.value)
    {
      var result;
      ok, result := NextInt(longMax);
      ok := ok && (result == 0 || result == 1);
      out := result == 1;
    }

    /** at_tok_nextstr() */
    method NextStr() returns (ok: bool, tok: Option<nat>)
      requires Valid()
      modifies this, buf
      ensures ok == old(cur).Some?
      ensures !ok ==> tok == None && Valid() && cur == None && buf[..] == old(buf[..])
      ensures ok ==> tok.Some? && Took(tok.value, NextToken(old(rest.value)).0) && rest == NextToken(old(rest.value)).1
    {
      if cur == None {
        return false, None;
      }
      tok := NextTok();
      ok := true;
    }

    /** at_tok_hasmore() */
    method HasMore() returns (more: bool)
      requires Valid()
      ensures more <==> rest.Some? && rest.value != ""
    {
      if cur == None {
        return false;
      }
      assert rest.value != "" ==> buf[..][cur.value + 0] == rest.value[0];
      more := buf[cur.value] != '\0';
    }
  }

  /** What the caller holds after taking a field: a number, a bool, or a pointer into the line. */
  datatype Held = HeldInt(n: int) | HeldBool(b: bool) | HeldString(place: nat)

  /** The field is held as what it is, or by a pointer that still points at its token, in front of
  the cursor. */
  ghost predicate Keeps(line: seq<char>, cur: Option<nat>, f: Field, h: Held) {
    match h
    case HeldInt(n) => (f.Number? && f.n == n) || (f.Hex? && f.h == n)
    case HeldBool(b) => f == Flag(b)
    case HeldString(place) =>
      Textual(f) && At(line, place, Token(f)) && (cur.Some? ==> place + |Token(f)| < cur.value)
  }

  ghost predicate Holds(line: seq<char>, cur: Option<nat>, fields: seq<Field>, held: seq<Held>) {
    |held| <= |fields| && forall i | 0 <= i < |held| :: Keeps(line, cur, fields[i], held[i])
  }

  /** The cursor has moved on, and nothing in front of the old one has been written to. */
  ghost predicate After(line: seq<char>, cur: nat, line': seq<char>, cur': Option<nat>) {
    && cur <= |line| == |line'| && (cur'.Some? ==> cur <= cur'.value)
    && forall j | 0 <= j < cur :: line'[j] == line[j]
  }

  /** Held strings survive whatever is written behind the old cursor. */
  lemma HoldsOn(line: seq<char>, cur: nat, line': seq<char>, cur': Option<nat>, fields: seq<Field>, held: seq<Held>)
    requires Holds(line, Some(cur), fields, held) && After(line, cur, line', cur')
    ensures Holds(line', cur', fields, held)
  {
    forall i | 0 <= i < |held|
      ensures Keeps(line', cur', fields[i], held[i])
    {
      assert Keeps(line, Some(cur), fields[i], held[i]);
      if held[i].HeldString? {
        StaysAt(line, line', held[i].place, Token(fields[i]), cur);
      }
    }
  }

  lemma HoldsMore(line: seq<char>, cur: Option<nat>, fields: seq<Field>, held: seq<Held>, h: Held)
    requires Holds(line, cur, fields, held) && |held| < |fields| && Keeps(line, cur, fields[|held|], h)
    ensures Holds(line, cur, fields, held + [h])
  {
  }

  /** at_tok_nextstr() on a printed string. */
  method ReadString(t: Tokenizer, ghost text: string) returns (place: nat)
    requires t.Valid() && t.cur.Some? && NextToken(t.rest.value).0 == text
    modifies t, t.buf
    ensures t.Moved() && At(t.buf[..], place, text) && (t.cur.Some? ==> place + |text| < t.cur.value)
    ensures t.rest == NextToken(old(t.rest.value)).1
  {
    var _, tok := t.NextStr();
    place := tok.value;
  }

  /** Takes a string off the line. */
  method TakeString(t: Tokenizer, ghost fields: seq<Field>, ghost held: seq<Held>, f: Field) returns (h: Held)
    requires t.Valid() && t.cur.Some? && Holds(t.buf[..], t.cur, fields, held)
    requires |held| < |fields| && f == fields[|held|] && Textual(f) && NextToken(t.rest.value).0 == Token(f)
    modifies t, t.buf
    ensures t.Valid() && Holds(t.buf[..], t.cur, fields, held + [h]) && t.rest == NextToken(old(t.rest.value)).1
  {
    ghost var line, cur := t.buf[..], t.cur.value;
    var place := ReadString(t, Token(f));
    h := HeldString(place);
    HoldsOn(line, cur, t.buf[..], t.cur, fields, held);
    HoldsMore(t.buf[..], t.cur, fields, held, h);
  }

  /** at_tok_nextint(), at_tok_nexthexint() or at_tok_nextbool() on a printed number. */
  method ReadNumber(t: Tokenizer, f: Field, longMax: int) returns (h: Held)
    requires t.Valid() && t.cur.Some? && Printable(f) && !Textual(f) && INT_MAX <= longMax
    requires NextToken(t.rest.value).0 == Token(f)
    modifies t, t.buf
    ensures t.Moved() && t.rest == NextToken(old(t.rest.value)).1
    ensures h == if f.Flag? then HeldBool(f.b) else HeldInt(if f.Number? then f.n else f.h)
  {
    TakenBack(f, longMax);
    match f
    case Number(_) =>
      var _, n := t.NextInt(longMax);
      h := HeldInt(n);
    case Hex(_, _, _) =>
      var _, n := t.NextHexInt(longMax);
      h := HeldInt(n);
    case Flag(_) =>
      var _, b := t.NextBool(longMax);
      h := HeldBool(b);
  }

  /** Takes a number off the line. */
  method TakeNumber(t: Tokenizer, ghost fields: seq<Field>, ghost held: seq<Held>, f: Field, longMax: int) returns (h: Held)
    requires t.Valid() && t.cur.Some? && Holds(t.buf[..], t.cur, fields, held)
    requires |held| < |fields| && f == fields[|held|] && Printable(f) && !Textual(f) && INT_MAX <= longMax
    requires NextToken(t.rest.value).0 == Token(f)
    modifies t, t.buf
    ensures t.Valid() && Holds(t.buf[..], t.cur, fields, held + [h]) && t.rest == NextToken(old(t.rest.value)).1
  {
    ghost var line, cur := t.buf[..], t.cur.value;
    h := ReadNumber(t, f, longMax);
    HoldsOn(line, cur, t.buf[..], t.cur, fields, held);
    HoldsMore(t.buf[..], t.cur, fields, held, h);
  }

  /** The cursor is at a field of the printed list, or there is no more. */
  predicate AtField(rest: Option<string>, gaps: seq<string>, fields: seq<Field>, k: nat)
    requires k <= |fields| == |gaps|
  {
    if k < |fields| then rest == Some(Joined(gaps[k..], fields[k..])) else rest == None || rest == Some("")
  }

  /** These fields have been taken off the line, and the cursor is at the next one. */
  ghost predicate Taken(line: seq<char>, cur: Option<nat>, rest: Option<string>, gaps: seq<string>, fields: seq<Field>,
                        held: seq<Held>) {
    |held| <= |fields| == |gaps| && Holds(line, cur, fields, held) && AtField(rest, gaps, fields, |held|)
  }

  /** Takes the next field off the line. */
  method TakeField(t: Tokenizer, ghost gaps: seq<string>, ghost fields: seq<Field>, ghost held: seq<Held>, f: Field,
                   longMax: int)
    returns (h: Held)
    requires t.Valid() && Taken(t.buf[..], t.cur, t.rest, gaps, fields, held) && longMax >= INT_MAX
    requires |held| < |fields| && f == fields[|held|] && Printable(f) && Gap(gaps[|held|])
    modifies t, t.buf
    ensures t.Valid() && Taken(t.buf[..], t.cur, t.rest, gaps, fields, held + [h])
  {
    assert fields[|held|..][1..] == fields[|held| + 1..] && gaps[|held|..][1..] == gaps[|held| + 1..];
    FirstToken(gaps[|held|..], fields[|held|..]);
    if Textual(f) {
      h := TakeString(t, fields, held, f);
    } else {
      h := TakeNumber(t, fields, held, f, longMax);
    }
  }

  /** Looks at what is held. */
  method LookAt(t: Tokenizer, fields: seq<Field>, held: seq<Held>) returns (got: seq<Field>)
    requires Holds(t.buf[..], t.cur, fields, held) && |held| == |fields|
    ensures got == fields
  {
    got := [];
    while |got| < |fields|
      invariant |got| <= |fields| && got == fields[..|got|]
    {
      var f := fields[|got|];
      var g := f;
      assert Keeps(t.buf[..], t.cur, f, held[|got|]);
      match held[|got|] {
        case HeldInt(n) => g := if f.Hex? then Hex(n, f.upper, f.prefixed) else Number(n);
        case HeldBool(b) => g := Flag(b);
        case HeldString(place) =>
          var text := t.Text(place, f.text);
          g := if f.Quoted? then Quoted(text) else Plain(text);
      }
      got := got + [g];
    }
  }

  /** A printed line, with the cursor at its first field. */
  method OpenLine(prefix: string, gaps: seq<string>, fields: seq<Field>) returns (t: Tokenizer)
    requires ':' !in prefix && NulFree(prefix) && Fit(gaps, fields)
    ensures fresh(t) && fresh(t.buf) && t.Valid() && AtField(t.rest, gaps, fields, 0)
  {
    JoinedIsNulFree(gaps, fields);
    StartsBehindColon(prefix, gaps, fields);
    t := new Tokenizer(Print(prefix, gaps, fields));
    var _ := t.Start();
    assert gaps[0..] == gaps && fields[0..] == fields;
  }

  /** Takes all fields off the line, one after the other. */
  method TakeFields(t: Tokenizer, ghost gaps: seq<string>, fields: seq<Field>, longMax: int) returns (held: seq<Held>)
    requires t.Valid() && longMax >= INT_MAX && Fit(gaps, fields) && AtField(t.rest, gaps, fields, 0)
    modifies t, t.buf
    ensures t.Valid() && Taken(t.buf[..], t.cur, t.rest, gaps, fields, held) && |held| == |fields|
  {
    held := [];
    while |held| < |fields|
      invariant t.Valid() && Taken(t.buf[..], t.cur, t.rest, gaps, fields, held)
    {
      FitAt(gaps, fields, |held|);
      var h := TakeField(t, gaps, fields, held, fields[|held|], longMax);
      held := held + [h];
    }
  }

  /** The round trip: the printed fields, with any gaps in front of them, taken one after the other and looked at when
  all have been taken; then at_tok_hasmore() says that there is no more. */
  method ReadBack(prefix: string, gaps: seq<string>, fields: seq<Field>, longMax: int) returns (got: seq<Field>, more: bool)
    requires ':' !in prefix && NulFree(prefix) && longMax >= INT_MAX && Fit(gaps, fields)
    ensures got == fields && !more
  {
    var t := OpenLine(prefix, gaps, fields);
    var held := TakeFields(t, gaps, fields, longMax);
    more := t.HasMore();
    got := LookAt(t, fields, held);
  }
}
