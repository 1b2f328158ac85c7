/** What huawei_tgm/at_tok.c reads off a line, on strings.  The cursor is the rest of the line, or
None for NULL. */
module TokenText {
  import opened CText

  const INT_MIN := -0x8000_0000
  const INT_MAX := 0x7FFF_FFFF

  /** isspace() in the C locale. */
  predicate IsSpace(c: char) {
    c == ' ' || '\t' <= c <= '\r'
  }

  /** Where c is first, or the length of s. */
  function IndexOf(s: string, c: char): (i: nat)
    ensures i <= |s| && c !in s[..i] && (i < |s| ==> s[i] == c)
  {
    if s == "" || s[0] == c then 0 else 1 + IndexOf(s[1..], c)
  }

  function Spaces(s: string): (i: nat)
    ensures i <= |s| && (forall j | 0 <= j < i :: IsSpace(s[j])) && (i < |s| ==> !IsSpace(s[i]))
  {
    if s == "" || !IsSpace(s[0]) then 0 else 1 + Spaces(s[1..])
  }

  /** at_tok_start() */
  function Started(cur: Option<string>): Option<string> {
    match cur
    case None => None
    case Some(s) => var i := IndexOf(s, ':'); if i == |s| then None else Some(s[i + 1..])
  }

  /** What skipNextComma() leaves. */
  function AfterComma(s: string): string {
    var i := IndexOf(s, ','); if i == |s| then "" else s[i + 1..]
  }

  /** strsep() with one delimiter: the token and the new cursor. */
  function Separated(s: string, c: char): (string, Option<string>) {
    var i := IndexOf(s, c); if i == |s| then (s, None) else (s[..i], Some(s[i + 1..]))
  }

  /** nextTok() */
  function NextToken(line: string): (string, Option<string>) {
    var s := line[Spaces(line)..];
    if s != "" && s[0] == '"' then
      var (token, cur) := Separated(s[1..], '"');
      (token, if cur.Some? then Some(AfterComma(cur.value)) else None)
    else
      Separated(s, ',')
  }

  /** Every token step shortens the rest of the line or sets the cursor to NULL. */
  lemma TokenShortens(line: string)
    ensures var cur := NextToken(line).1; cur.Some? ==> |cur.value| < |line|
  {
  }

  // ---------------------------------------------------------------- strtol() and strtoul()

  function DigitValue(c: char): int {
    if '0' <= c <= '9' then c as int - '0' as int
    else if 'a' <= c <= 'z' then c as int - 'a' as int + 10
    else if 'A' <= c <= 'Z' then c as int - 'A' as int + 10
    else 99
  }

  function Digits(s: string, base: int): (i: nat)
    ensures i <= |s| && forall j | 0 <= j < i :: DigitValue(s[j]) < base
  {
    if s == "" || DigitValue(s[0]) >= base then 0 else 1 + Digits(s[1..], base)
  }

  /** The value of a string of digits. */
  function Value(s: string, base: int): int {
    if s == "" then 0 else Value(s[..|s| - 1], base) * base + DigitValue(s[|s| - 1])
  }

  predicate Signed(s: string) {
    s != "" && (s[0] == '-' || s[0] == '+')
  }

  /** The optional 0x of base 16 counts only with a digit behind it. */
  predicate Prefixed(s: string, base: int) {
    base == 16 && |s| >= 3 && s[0] == '0' && (s[1] == 'x' || s[1] == 'X') && DigitValue(s[2]) < 16
  }

  /** The number behind the sign; None if there are no digits. */
  function Magnitude(s: string, base: int): Option<int> {
    var digits := if Prefixed(s, base) then s[2..] else s;
    var n := Digits(digits, base);
    if n == 0 then None else Some(Value(digits[..n], base))
  }

  /** What fits: strtol() stays within a long whose largest value is longMax, strtoul() within
  an unsigned one. */
  function Saturated(v: int, negative: bool, uns: bool, longMax: int): int {
    if uns then (if v > 2 * longMax + 1 then 2 * longMax + 1 else if negative then -v else v)
    else if negative then (if v > longMax + 1 then -longMax - 1 else -v)
    else if v > longMax then longMax
    else v
  }

  /** strtol(), or strtoul() if uns; None if end == ret. */
  function StrTo(text: string, base: int, uns: bool, longMax: int): Option<int> {
    var s := text[Spaces(text)..];
    var v := Magnitude(if Signed(s) then s[1..] else s, base);
    if v == None then None else Some(Saturated(v.value, Signed(s) && s[0] == '-', uns, longMax))
  }

  /** The cast to a 32-bit int. */
  function ToInt(l: int): (i: int)
    ensures INT_MIN <= i <= INT_MAX
  {
    (l + 0x8000_0000) % 0x1_0000_0000 - 0x8000_0000
  }

  /** What at_tok_nextint_base() makes of a token; None is failure. */
  function IntOf(token: string, base: int, uns: bool, longMax: int): Option<int> {
    var l := StrTo(token, base, uns, longMax);
    if l == None then None else Some(ToInt(l.value))
  }

  // ---------------------------------------------------------------- printing

  /** What a modem may put in front of a field: blank, tab, line feed, vertical tab, form feed, carriage return. */
  predicate Blank(c: char) {
    c in " \t\n\U{B}\U{C}\r"
  }

  predicate Gap(s: string) {
    forall i | 0 <= i < |s| :: Blank(s[i])
  }

  /** A field as it is read: a string in quotes or not, a decimal number, a hexadecimal one, or a bool. */
  datatype Field =
    | Quoted(text: string) | Plain(text: string)
    | Number(n: int) | Hex(h: nat, upper: bool, prefixed: bool) | Flag(b: bool)

  function Decimal(n: nat): (s: string)
    ensures s != "" && forall i | 0 <= i < |s| :: '0' <= s[i] <= '9'
  {
    var digit := [('0' as int + n % 10) as char];
    if n < 10 then digit else Decimal(n / 10) + digit
  }

  function HexDigit(d: nat, upper: bool): char
    requires d < 16
  {
    if upper then "0123456789ABCDEF"[d] else "0123456789abcdef"[d]
  }

  function Hexadecimal(n: nat, upper: bool): (s: string)
    ensures s != ""
  {
    var digit := [HexDigit(n % 16, upper)];
    if n < 16 then digit else Hexadecimal(n / 16, upper) + digit
  }

  function ShowInt(n: int): string {
    if n < 0 then "-" + Decimal(-n) else Decimal(n)
  }

  function Show(f: Field): string {
    match f
    case Quoted(text) => "\"" + text + "\""
    case Plain(text) => text
    case Number(n) => ShowInt(n)
    case Hex(h, upper, prefixed) => (if !prefixed then "" else if upper then "0X" else "0x") + Hexadecimal(h, upper)
    case Flag(b) => if b then "1" else "0"
  }

  /** An unquoted field can be told from what is around it. */
  predicate Bare(text: string) {
    ',' !in text && (text != "" ==> !Blank(text[0]) && text[0] != '"')
  }

  predicate Printable(f: Field) {
    match f
    case Quoted(text) => '"' !in text && NulFree(text)
    case Plain(text) => Bare(text) && NulFree(text)
    case Number(n) => INT_MIN <= n <= INT_MAX
    case Hex(h, _, _) => h <= INT_MAX
    case Flag(_) => true
  }

  /** Fields that can be printed, and what stands in front of them. */
  predicate Fit(gaps: seq<string>, fields: seq<Field>) {
    |gaps| == |fields| && forall i | 0 <= i < |fields| :: Gap(gaps[i]) && Printable(fields[i])
  }

  /** The fields with commas between them, each behind its gap. */
  function Joined(gaps: seq<string>, fields: seq<Field>): string
    requires |gaps| == |fields|
  {
    if fields == [] then ""
    else gaps[0] + (Show(fields[0]) + if |fields| == 1 then "" else "," + Joined(gaps[1..], fields[1..]))
  }

  function Print(prefix: string, gaps: seq<string>, fields: seq<Field>): string
    requires |gaps| == |fields|
  {
    prefix + ":" + Joined(gaps, fields)
  }

  /** The text that nextTok() finds for a field. */
  function Token(f: Field): string {
    if f.Quoted? then f.text else Show(f)
  }

  /** Is the field taken as a string? */
  predicate Textual(f: Field) {
    f.Quoted? || f.Plain?
  }

  function AsBool(n: Option<int>): Option<bool> {
    if n.Some? && 0 <= n.value <= 1 then Some(n.value == 1) else None
  }
}
