/**
 * Requests as sentences: their parts, how they are written, and what they say. A byte is the character with its
 * code.
 */
module HttpGrammar {

  datatype Header = Header(name: string, value: string)

  datatype Request = Request(verb: string, uri: string, major: int, minor: int, headers: seq<Header>)

  predicate IsChar(c: char) {
    c as int <= 127
  }

  predicate IsCtl(c: char) {
    c as int <= 31 || c as int == 127
  }

  predicate IsTspecial(c: char) {
    c in "()<>@,;:\\\"/[]?={} \t"
  }

  predicate IsDigit(c: char) {
    '0' <= c <= '9'
  }

  predicate IsTokenChar(c: char) {
    IsChar(c) && !IsCtl(c) && !IsTspecial(c)
  }

  /** The characters of tokens are the letters, the digits and fifteen others. */
  lemma TokenCharacters(c: char)
    ensures IsTokenChar(c) <==>
      'a' <= c <= 'z' || 'A' <= c <= 'Z' || '0' <= c <= '9' || c in "!#$%&'*+-.^_`|~"
  {
  }

  predicate IsBlank(c: char) {
    c == ' ' || c == '\t'
  }

  predicate IsToken(s: string) {
    s != "" && forall c <- s :: IsTokenChar(c)
  }

  predicate IsText(s: string) {
    forall c <- s :: !IsCtl(c)
  }

  predicate IsUri(s: string) {
    forall c <- s :: !IsCtl(c) && c != ' '
  }

  predicate IsNumber(s: string) {
    s != "" && forall c <- s :: IsDigit(c)
  }

  /** A header field, or a line that continues the field before it. */
  datatype Line = Field(name: string, value: string) | Fold(blanks: string, text: string)

  predicate LineOk(l: Line) {
    match l
    case Field(name, value) => IsToken(name) && IsText(value)
    case Fold(blanks, text) =>
      blanks != "" && (forall c <- blanks :: IsBlank(c)) && IsText(text) && (text != "" ==> text[0] != ' ')
  }

  predicate LinesOk(ls: seq<Line>) {
    (forall l <- ls :: LineOk(l)) && (ls != [] ==> ls[0].Field?)
  }

  datatype Message = Message(verb: string, uri: string, major: string, minor: string, lines: seq<Line>)

  /** The message is a sentence of the request grammar. */
  predicate WellFormed(m: Message) {
    IsToken(m.verb) && IsUri(m.uri) && IsNumber(m.major) && IsNumber(m.minor) && LinesOk(m.lines)
  }

  function LineBody(l: Line): string {
    match l
    case Field(name, value) => name + ": " + value
    case Fold(blanks, text) => blanks + text
  }

  function PrintLines(ls: seq<Line>): string {
    if ls == [] then "" else PrintLines(ls[..|ls| - 1]) + (LineBody(ls[|ls| - 1]) + "\r\n")
  }

  function RequestLine(m: Message): string {
    m.verb + (" " + (m.uri + (" HTTP/" + (m.major + ("." + (m.minor + "\r\n"))))))
  }

  function Print(m: Message): string {
    RequestLine(m) + (PrintLines(m.lines) + "\r\n")
  }

  function NumberOf(digits: string): int {
    if digits == "" then 0 else NumberOf(digits[..|digits| - 1]) * 10 + (digits[|digits| - 1] as int - '0' as int)
  }

  /** The decimal digits of a number. */
  function Decimal(n: nat): (s: string)
  {
    (if n < 10 then "" else Decimal(n / 10)) + [('0' as int + n % 10) as char]
  }

  /** Every number can be written, and is read as itself. */
  lemma {:induction false} DecimalReadsBack(n: nat)
    ensures IsNumber(Decimal(n)) && NumberOf(Decimal(n)) == n
  {
    var s := Decimal(n);
    assert s[..|s| - 1] == if n < 10 then "" else Decimal(n / 10);
    if n >= 10 {
      DecimalReadsBack(n / 10);
    }
  }

  /** The headers that lines give: a continuation lengthens the last value, without its leading blanks. */
  function Headers(ls: seq<Line>): seq<Header> {
    if ls == [] then []
    else
      var hs, l := Headers(ls[..|ls| - 1]), ls[|ls| - 1];
      match l
      case Field(name, value) => hs + [Header(name, value)]
      case Fold(_, text) => if hs == [] then [] else Lengthened(hs, text)
  }

  function Lengthened(hs: seq<Header>, text: string): (r: seq<Header>)
    requires hs != []
  {
    var last := hs[|hs| - 1];
    hs[..|hs| - 1] + [last.(value := last.value + text)]
  }

  function Reading(m: Message): Request {
    Request(m.verb, m.uri, NumberOf(m.major), NumberOf(m.minor), Headers(m.lines))
  }
}
