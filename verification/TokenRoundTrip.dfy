/** Printing a list of fields and reading it with huawei_tgm/at_tok.c gives the same fields. */
module TokenRoundTrip {
  import opened Sequences
  import opened CText
  import opened TokenText

  lemma {:induction false} IndexOfIs(s: string, c: char, i: nat)
    requires i <= |s| && c !in s[..i] && (i < |s| ==> s[i] == c)
    ensures IndexOf(s, c) == i
  {
    if i > 0 {
      assert s[..i][0] == s[0];
      assert s[1..][..i - 1] == s[..i][1..];
      IndexOfIs(s[1..], c, i - 1);
    }
  }

  lemma IndexBehind(a: string, c: char, b: string)
    requires c !in a
    ensures IndexOf(a + [c] + b, c) == |a| && IndexOf(a, c) == |a|
  {
    assert (a + [c] + b)[..|a|] == a;
    assert a[..|a|] == a;
    IndexOfIs(a + [c] + b, c, |a|);
    IndexOfIs(a, c, |a|);
  }

  lemma SeparatedAt(a: string, c: char, b: string)
    requires c !in a
    ensures Separated(a + [c] + b, c) == (a, Some(b)) && Separated(a, c) == (a, None)
  {
    IndexBehind(a, c, b);
    var s := a + [c] + b;
    assert s[..|a|] == a && s[|a| + 1..] == b;
  }

  lemma NoSpaces(s: string)
    requires s != "" ==> !IsSpace(s[0])
    ensures Spaces(s) == 0 && s[Spaces(s)..] == s
  {
  }

  // ---------------------------------------------------------------- numbers

  lemma {:induction false} DecimalValue(n: nat)
    ensures Value(Decimal(n), 10) == n
  {
    var s := Decimal(n);
    if n >= 10 {
      DecimalValue(n / 10);
      assert s[..|s| - 1] == Decimal(n / 10);
    } else {
      assert s[..|s| - 1] == "";
    }
  }

  lemma {:induction false} AllDigits(s: string)
    requires forall i | 0 <= i < |s| :: '0' <= s[i] <= '9'
    ensures Digits(s, 10) == |s|
  {
    if s != "" {
      AllDigits(s[1..]);
    }
  }

  lemma DigitsRead(n: nat)
    ensures Magnitude(Decimal(n), 10) == Some(n as int)
  {
    var digits := Decimal(n);
    AllDigits(digits);
    DecimalValue(n);
    assert digits[..|digits|] == digits;
  }

  lemma BlankIsSpace(c: char)
    ensures IsSpace(c) <==> Blank(c)
  {
  }

  /** A gap in front of something is passed. */
  lemma {:induction false} GapIsSpaces(gap: string, s: string)
    requires Gap(gap)
    ensures Spaces(gap + s) == |gap| + Spaces(s)
    ensures (gap + s)[Spaces(gap + s)..] == s[Spaces(s)..]
  {
    if gap == "" {
      assert gap + s == s;
    } else {
      BlankIsSpace(gap[0]);
      assert (gap + s)[1..] == gap[1..] + s;
      GapIsSpaces(gap[1..], s);
    }
  }

  /** strtol() does not mind a gap, nor does nextTok(). */
  lemma StrToSkips(gap: string, s: string, base: int, uns: bool, longMax: int)
    requires Gap(gap)
    ensures StrTo(gap + s, base, uns, longMax) == StrTo(s, base, uns, longMax)
  {
    GapIsSpaces(gap, s);
  }

  lemma GapSkipped(gap: string, s: string)
    requires Gap(gap)
    ensures NextToken(gap + s) == NextToken(s)
  {
    GapIsSpaces(gap, s);
  }

  /** strtol() of a printed number: what does not fit a long is the nearest long. */
  lemma NumberReads(n: int, longMax: int)
    requires longMax >= 0
    ensures StrTo(ShowInt(n), 10, false, longMax) ==
            Some(if n > longMax then longMax else if n < -longMax - 1 then -longMax - 1 else n)
  {
    var m: nat := if n < 0 then -n else n;
    var digits, s := Decimal(m), ShowInt(n);
    assert '0' <= digits[0] <= '9';
    NoSpaces(s);
    var t := if Signed(s) then s[1..] else s;
    assert t == digits && (Signed(s) && s[0] == '-' <==> n < 0);
    assert Magnitude(t, 10) == Some(m as int) by {
      DigitsRead(m);
    }
  }

  lemma PlusReads(n: nat, longMax: int)
    requires n <= longMax
    ensures StrTo("+" + Decimal(n), 10, false, longMax) == Some(n)
  {
    var s := "+" + Decimal(n);
    NoSpaces(s);
    assert s[1..] == Decimal(n);
    DigitsRead(n);
  }

  lemma NoDigits(t: string)
    ensures Magnitude(t, 10) == None <==> t == "" || t[0] !in "0123456789"
  {
    if t != "" {
      assert DigitValue(t[0]) < 10 <==> t[0] in "0123456789";
    }
  }

  /** strtol() finds no number exactly if there is no digit behind the gap and the sign. */
  lemma NoNumberIff(gap: string, s: string, longMax: int)
    requires Gap(gap) && (s != "" ==> !Blank(s[0]))
    ensures StrTo(gap + s, 10, false, longMax) == None <==>
            var t := if s != "" && s[0] in "+-" then s[1..] else s; t == "" || t[0] !in "0123456789"
  {
    StrToSkips(gap, s, 10, false, longMax);
    if s != "" {
      BlankIsSpace(s[0]);
    }
    NoSpaces(s);
    NoDigits(if Signed(s) then s[1..] else s);
    assert Signed(s) <==> s != "" && s[0] in "+-";
  }

  lemma HexDigitIs(d: nat, upper: bool)
    requires d < 16
    ensures var c := HexDigit(d, upper);
      DigitValue(c) == d && !Blank(c) && !IsSpace(c) && c != ',' && c != '"' && c != '\0' && c != '-' && c != '+'
  {
  }

  /** A string of hexadecimal digits. */
  predicate HexOnly(s: string) {
    forall i | 0 <= i < |s| ::
      DigitValue(s[i]) < 16 && !IsSpace(s[i]) && s[i] != ',' && s[i] != '"' && s[i] != '\0' && s[i] != '-' && s[i] != '+'
  }

  lemma {:induction false} HexDigitsOnly(n: nat, upper: bool)
    ensures HexOnly(Hexadecimal(n, upper)) && Value(Hexadecimal(n, upper), 16) == n
  {
    var s := Hexadecimal(n, upper);
    HexDigitIs(n % 16, upper);
    if n >= 16 {
      HexDigitsOnly(n / 16, upper);
      assert s[..|s| - 1] == Hexadecimal(n / 16, upper);
    } else {
      assert s[..|s| - 1] == "";
    }
  }

  lemma {:induction false} AllHexDigits(s: string)
    requires HexOnly(s)
    ensures Digits(s, 16) == |s|
  {
    if s != "" {
      AllHexDigits(s[1..]);
    }
  }

  lemma HexMagnitude(s: string)
    requires HexOnly(s) && s != ""
    ensures Magnitude(s, 16) == Some(Value(s, 16))
  {
    AllHexDigits(s);
    assert s[..|s|] == s;
    assert !Prefixed(s, 16) by {
      assert DigitValue('x') >= 16 && DigitValue('X') >= 16;
    }
  }

  lemma PrefixedMagnitude(s: string, x: char)
    requires HexOnly(s) && s != "" && (x == 'x' || x == 'X')
    ensures Magnitude(['0', x] + s, 16) == Some(Value(s, 16))
  {
    var t := ['0', x] + s;
    AllHexDigits(s);
    assert s[..|s|] == s && t[2..] == s && t[2] == s[0];
    assert Prefixed(t, 16);
  }

  lemma UnsignedReads(s: string, n: nat, longMax: int)
    requires s != "" && !IsSpace(s[0]) && s[0] != '-' && s[0] != '+' && Magnitude(s, 16) == Some(n as int) && longMax >= 0
    ensures StrTo(s, 16, true, longMax) == Some(if n > 2 * longMax + 1 then 2 * longMax + 1 else n)
  {
    NoSpaces(s);
  }

  /** strtoul() of a printed hexadecimal number, in either case, with or without its prefix. */
  lemma HexReads(n: nat, upper: bool, prefixed: bool, longMax: int)
    requires longMax >= 0
    ensures StrTo(Show(Hex(n, upper, prefixed)), 16, true, longMax) ==
            Some(if n > 2 * longMax + 1 then 2 * longMax + 1 else n)
  {
    var digits := Hexadecimal(n, upper);
    HexDigitsOnly(n, upper);
    if prefixed {
      var x := if upper then 'X' else 'x';
      PrefixedMagnitude(digits, x);
      assert Show(Hex(n, upper, true)) == ['0', x] + digits;
      UnsignedReads(['0', x] + digits, n, longMax);
    } else {
      HexMagnitude(digits);
      assert Show(Hex(n, upper, false)) == digits;
      UnsignedReads(digits, n, longMax);
    }
  }

  lemma HexCharIff(c: char)
    ensures DigitValue(c) < 16 <==> c in "0123456789abcdefABCDEF"
  {
  }

  /** A prefix without a digit behind it is a zero and something else. */
  lemma PrefixAlone(x: char, s: string, longMax: int)
    requires (x == 'x' || x == 'X') && longMax >= 0
    requires s != "" ==> s[0] !in "0123456789abcdefABCDEF"
    ensures StrTo(['0', x] + s, 16, true, longMax) == Some(0)
  {
    var t := ['0', x] + s;
    NoSpaces(t);
    if s != "" {
      assert t[2] == s[0];
      HexCharIff(s[0]);
    }
    assert t[0] == '0' && t[1] == x && DigitValue(x) >= 16;
    assert t[1..][0] == x;
    assert Digits(t, 16) == 1 && t[..1] == "0" && "0"[..0] == "";
    assert Value("0", 16) == 0;
  }

  /** A sign in front of an unsigned number counts. */
  lemma MinusReads(n: nat, upper: bool, longMax: int)
    requires n <= 2 * longMax + 1
    ensures StrTo("-" + Hexadecimal(n, upper), 16, true, longMax) == Some(-(n as int))
  {
    var digits := Hexadecimal(n, upper);
    HexDigitsOnly(n, upper);
    HexMagnitude(digits);
    NoSpaces("-" + digits);
    assert ("-" + digits)[1..] == digits;
  }

  lemma CastKeeps(n: int)
    requires INT_MIN <= n <= INT_MAX
    ensures ToInt(n) == n
  {
  }

  lemma CastOnce(l: int)
    ensures ToInt(l + 0x1_0000_0000) == ToInt(l)
  {
  }

  /** The cast forgets all but the last 32 bits. */
  lemma {:induction false} CastWraps(l: int, k: nat)
    ensures ToInt(l + 0x1_0000_0000 * k) == ToInt(l)
  {
    if k > 0 {
      CastWraps(l, k - 1);
      CastOnce(l + 0x1_0000_0000 * (k - 1));
      assert l + 0x1_0000_0000 * k == l + 0x1_0000_0000 * (k - 1) + 0x1_0000_0000;
    }
  }

  /** at_tok_nextint() of a number that fits a long and not an int: the last 32 bits count. */
  lemma IntWraps(n: int, k: nat, longMax: int)
    requires INT_MIN <= n <= INT_MAX && 0 <= n + 0x1_0000_0000 * k <= longMax
    ensures IntOf(ShowInt(n + 0x1_0000_0000 * k), 10, false, longMax) == Some(n)
  {
    NumberReads(n + 0x1_0000_0000 * k, longMax);
    CastWraps(n, k);
    CastKeeps(n);
  }

  /** at_tok_nextbool() of a printed number: only 0 and 1 are bools. */
  lemma BoolIff(n: int, longMax: int)
    requires INT_MIN <= n <= INT_MAX <= longMax
    ensures AsBool(IntOf(ShowInt(n), 10, false, longMax)) ==
            if n == 0 then Some(false) else if n == 1 then Some(true) else None
  {
    NumberReads(n, longMax);
    CastKeeps(n);
  }

  // ---------------------------------------------------------------- one token

  lemma CommaNext(junk: string, more: string)
    requires ',' !in junk
    ensures AfterComma(junk + "," + more) == more && AfterComma(junk) == ""
  {
    IndexBehind(junk, ',', more);
    var s := junk + [','] + more;
    assert s == junk + "," + more && s[|junk| + 1..] == more;
  }

  /** What is in quotes is the token; whatever comes between the closing quote and the next comma is passed.  Without a
  closing quote the rest of the line is the token. */
  lemma QuotedReads(text: string, junk: string, more: string)
    requires '"' !in text && ',' !in junk
    ensures NextToken("\"" + text + "\"" + (junk + "," + more)) == (text, Some(more))
    ensures NextToken("\"" + text + "\"" + junk) == (text, Some(""))
    ensures NextToken("\"" + text) == (text, None)
  {
    BehindQuote(text, junk + "," + more);
    BehindQuote(text, junk);
    CommaNext(junk, more);
    var open := "\"" + text;
    NoSpaces(open);
    assert open[1..] == text;
    SeparatedAt(text, '"', "");
  }

  lemma BehindQuote(text: string, behind: string)
    requires '"' !in text
    ensures NextToken("\"" + text + "\"" + behind) == (text, Some(AfterComma(behind)))
  {
    var s := "\"" + text + "\"" + behind;
    NoSpaces(s);
    assert s[1..] == text + ['"'] + behind;
    SeparatedAt(text, '"', behind);
  }

  lemma PlainReads(text: string, more: string)
    requires Bare(text)
    ensures NextToken(text + "," + more) == (text, Some(more))
    ensures NextToken(text) == (text, None)
  {
    var s := text + [','] + more;
    assert s == text + "," + more && s[0] == if text == "" then ',' else text[0];
    BlankIsSpace(s[0]);
    NoSpaces(s);
    NoSpaces(text);
    SeparatedAt(text, ',', more);
  }

  /** An unquoted last field comes back as it is exactly under these conditions. */
  lemma PlainReadsIff(text: string)
    ensures NextToken(text) == (text, None) <==>
            ',' !in text && (text != "" ==> text[0] !in " \t\n\U{B}\U{C}\r" && text[0] != '"')
  {
    var s := text[Spaces(text)..];
    if text != "" {
      BlankIsSpace(text[0]);
    }
    if Bare(text) {
      PlainReads(text, "");
    } else if Spaces(text) == 0 && s[0] != '"' {
      assert s == text[..|text|] == text;
      assert IndexOf(text, ',') < |text|;
    } else {
      assert |NextToken(text).0| < |text|;
    }
  }

  lemma NumberIsBare(n: int)
    ensures Bare(ShowInt(n)) && NulFree(ShowInt(n)) && ShowInt(n) != ""
  {
    var digits := Decimal(if n < 0 then -n else n);
    assert '0' <= digits[0] <= '9';
  }

  lemma HexIsBare(f: Field)
    requires f.Hex?
    ensures Bare(Show(f)) && NulFree(Show(f)) && Show(f) != ""
  {
    var digits := Hexadecimal(f.h, f.upper);
    HexDigitsOnly(f.h, f.upper);
    BlankIsSpace(digits[0]);
    assert forall c | c in digits :: c != ',' && c != '\0';
  }

  lemma FieldIsBare(f: Field)
    requires Printable(f) && !f.Quoted?
    ensures Bare(Show(f)) && NulFree(Show(f))
  {
    match f
    case Plain(_) =>
    case Number(n) => NumberIsBare(n);
    case Hex(_, _, _) => HexIsBare(f);
    case Flag(_) =>
  }

  lemma QuotedFieldReads(f: Field, more: string)
    requires f.Quoted? && '"' !in f.text
    ensures NextToken(Show(f) + "," + more) == (f.text, Some(more))
    ensures NextToken(Show(f)) == (f.text, Some(""))
  {
    var s := "\"" + f.text + "\"";
    QuotedReads(f.text, "", more);
    assert "" + "," + more == "," + more;
    Assoc(s, ",", more);
    assert s + "" == s;
  }

  /** The token of one field, with another one behind it and without. */
  lemma FieldReads(f: Field, more: string)
    requires Printable(f)
    ensures NextToken(Show(f) + "," + more) == (Token(f), Some(more))
    ensures var (token, cur) := NextToken(Show(f)); token == Token(f) && (cur == None || cur == Some(""))
  {
    if f.Quoted? {
      QuotedFieldReads(f, more);
    } else {
      FieldIsBare(f);
      PlainReads(Show(f), more);
    }
  }

  lemma JoinedIs(gaps: seq<string>, fields: seq<Field>)
    requires |gaps| == |fields| && fields != []
    ensures Joined(gaps, fields) ==
            gaps[0] + if |fields| == 1 then Show(fields[0]) else Show(fields[0]) + "," + Joined(gaps[1..], fields[1..])
  {
    var text := Show(fields[0]);
    assert text + "" == text;
    if |fields| > 1 {
      Assoc(text, ",", Joined(gaps[1..], fields[1..]));
    }
  }

  /** The first token of a printed list, and what is left, whatever the gaps are. */
  lemma FirstToken(gaps: seq<string>, fields: seq<Field>)
    requires |gaps| == |fields| && fields != [] && Gap(gaps[0]) && Printable(fields[0])
    ensures var (token, cur) := NextToken(Joined(gaps, fields));
      && token == Token(fields[0])
      && (if |fields| > 1 then cur == Some(Joined(gaps[1..], fields[1..])) else cur == None || cur == Some(""))
  {
    var more := if |fields| > 1 then Joined(gaps[1..], fields[1..]) else "";
    JoinedIs(gaps, fields);
    FieldReads(fields[0], more);
    GapSkipped(gaps[0], if |fields| == 1 then Show(fields[0]) else Show(fields[0]) + "," + more);
  }

  lemma NumberBack(n: int, longMax: int)
    requires INT_MIN <= n <= INT_MAX <= longMax
    ensures IntOf(ShowInt(n), 10, false, longMax) == Some(n)
  {
    NumberReads(n, longMax);
    CastKeeps(n);
  }

  lemma HexBack(f: Field, longMax: int)
    requires f.Hex? && f.h <= INT_MAX <= longMax
    ensures IntOf(Show(f), 16, true, longMax) == Some(f.h)
  {
    HexReads(f.h, f.upper, f.prefixed, longMax);
    CastKeeps(f.h);
  }

  lemma FlagShows(b: bool)
    ensures Show(Flag(b)) == ShowInt(if b then 1 else 0)
  {
  }

  /** A number is what its caller makes of its token. */
  lemma TakenBack(f: Field, longMax: int)
    requires Printable(f) && longMax >= INT_MAX
    ensures f.Number? ==> IntOf(Token(f), 10, false, longMax) == Some(f.n)
    ensures f.Hex? ==> IntOf(Token(f), 16, true, longMax) == Some(f.h)
    ensures f.Flag? ==> AsBool(IntOf(Token(f), 10, false, longMax)) == Some(f.b)
  {
    match f
    case Number(n) => NumberBack(n, longMax);
    case Hex(_, _, _) => HexBack(f, longMax);
    case Flag(b) =>
      FlagShows(b);
      BoolIff(if b then 1 else 0, longMax);
    case _ =>
  }

  lemma StartsBehindColon(prefix: string, gaps: seq<string>, fields: seq<Field>)
    requires ':' !in prefix && |gaps| == |fields|
    ensures Started(Some(Print(prefix, gaps, fields))) == Some(Joined(gaps, fields))
  {
    var line, rest := Print(prefix, gaps, fields), Joined(gaps, fields);
    IndexBehind(prefix, ':', rest);
    assert line == prefix + [':'] + rest;
    assert line[|prefix| + 1..] == rest;
  }

  lemma FitAt(gaps: seq<string>, fields: seq<Field>, i: nat)
    requires Fit(gaps, fields) && i < |fields|
    ensures Gap(gaps[i]) && Printable(fields[i])
  {
  }

  lemma {:induction false} JoinedIsNulFree(gaps: seq<string>, fields: seq<Field>)
    requires Fit(gaps, fields)
    ensures NulFree(Joined(gaps, fields))
    decreases |fields|
  {
    if fields != [] {
      if !fields[0].Quoted? {
        FieldIsBare(fields[0]);
      }
      assert NulFree(Show(fields[0])) && NulFree(gaps[0]);
      JoinedIsNulFree(gaps[1..], fields[1..]);
    }
  }
}
