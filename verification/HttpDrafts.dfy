/** What has been read of a request when the parser stands in each state, and what can still follow. */
module HttpDrafts {
  import opened HttpGrammar
  import opened HttpParser

  predicate InVersion(s: State) {
    s.VersionH? || s.VersionT1? || s.VersionT2? || s.VersionP? || s.VersionSlash?
  }

  predicate InNumbers(s: State) {
    s.MajorStart? || s.Major? || s.MinorStart? || s.Minor? || s.Newline1?
  }

  predicate InHeaders(s: State) {
    s.LineStart? || s.Newline3? || InLine(s)
  }

  predicate InLine(s: State) {
    s.Lws? || s.Name? || s.SpaceBeforeValue? || s.Value? || s.Newline2?
  }

  function LastLine(m: Message): Line
    requires m.lines != []
  {
    m.lines[|m.lines| - 1]
  }

  /** The message has just the parts that are read in state `s`. */
  predicate DraftOk(s: State, m: Message) {
    if s.MethodStart? then m == Message("", "", "", "", [])
    else if s.Method? then IsToken(m.verb) && m == Message(m.verb, "", "", "", [])
    else if s.Uri? || InVersion(s) then IsToken(m.verb) && IsUri(m.uri) && m == Message(m.verb, m.uri, "", "", [])
    else if InNumbers(s) then IsToken(m.verb) && IsUri(m.uri) && m.lines == [] && NumbersOk(s, m.major, m.minor)
    else WellFormed(m) && (InLine(s) ==> m.lines != [] && LastOk(s, LastLine(m)))
  }

  predicate NumbersOk(s: State, major: string, minor: string) {
    if s.MajorStart? then major == "" && minor == ""
    else if s.Major? || s.MinorStart? then IsNumber(major) && minor == ""
    else IsNumber(major) && IsNumber(minor)
  }

  predicate LastOk(s: State, l: Line) {
    && (s.Lws? ==> l.Fold? && l.text == "")
    && (s.Name? || s.SpaceBeforeValue? ==> l.Field? && l.value == "")
    && (s.Value? && l.Fold? ==> l.text != "")
  }

  function VersionDraft(s: State): string
    requires InVersion(s)
  {
    match s
    case VersionH => " "
    case VersionT1 => " H"
    case VersionT2 => " HT"
    case VersionP => " HTT"
    case VersionSlash => " HTTP"
  }

  function NumbersDraft(s: State, m: Message): string
    requires InNumbers(s)
  {
    if s.MajorStart? || s.Major? then m.major
    else if s.MinorStart? || s.Minor? then m.major + ("." + m.minor)
    else m.major + ("." + (m.minor + "\r"))
  }

  function LineDraft(s: State, l: Line): string {
    if s.Name? && l.Field? then l.name
    else if s.SpaceBeforeValue? && l.Field? then l.name + ":"
    else if s.Newline2? then LineBody(l) + "\r"
    else LineBody(l)
  }

  function HeadersDraft(s: State, ls: seq<Line>): string
    requires InLine(s) ==> ls != []
  {
    if InLine(s) then PrintLines(ls[..|ls| - 1]) + LineDraft(s, ls[|ls| - 1])
    else if s.LineStart? then PrintLines(ls)
    else PrintLines(ls) + "\r"
  }

  /** What is read in state `s` when the message so far is `m`. */
  function Draft(s: State, m: Message): string
    requires DraftOk(s, m)
  {
    if s.MethodStart? then ""
    else if s.Method? then m.verb
    else if s.Uri? then m.verb + " " + m.uri
    else if InVersion(s) then m.verb + " " + m.uri + VersionDraft(s)
    else if InNumbers(s) then m.verb + " " + m.uri + " HTTP/" + NumbersDraft(s, m)
    else RequestLine(m) + HeadersDraft(s, m.lines)
  }

  /** The request holds what the message so far says. */
  predicate Says(s: State, m: Message, r: Request) {
    && r.verb == m.verb && r.uri == m.uri && r.headers == Headers(m.lines)
    && (InNumbers(s) || InHeaders(s) ==> r.major == NumberOf(m.major) && r.minor == NumberOf(m.minor))
  }

  function WithLast(ls: seq<Line>, l: Line): seq<Line>
    requires ls != []
  {
    ls[..|ls| - 1] + [l]
  }

  /** The message so far after one more byte that the parser takes. */
  function Extend(s: State, m: Message, c: char): Message
    requires DraftOk(s, m)
  {
    if s.MethodStart? || (s.Method? && c != ' ') then m.(verb := m.verb + [c])
    else if s.Uri? && c != ' ' then m.(uri := m.uri + [c])
    else if s.MajorStart? || (s.Major? && c != '.') then m.(major := m.major + [c])
    else if s.MinorStart? || (s.Minor? && c != '\r') then m.(minor := m.minor + [c])
    else if s.LineStart? && c != '\r' then
      m.(lines := m.lines + [if m.lines != [] && IsBlank(c) then Fold([c], "") else Field([c], "")])
    else if InLine(s) then m.(lines := WithLast(m.lines, ExtendLine(s, LastLine(m), c)))
    else m
  }

  function ExtendLine(s: State, l: Line, c: char): Line {
    match l
    case Field(name, value) =>
      if s.Name? && c != ':' then Field(name + [c], value)
      else if s.Value? && c != '\r' then Field(name, value + [c])
      else l
    case Fold(blanks, text) =>
      if s.Lws? && IsBlank(c) then Fold(blanks + [c], text)
      else if (s.Lws? || s.Value?) && c != '\r' then Fold(blanks, text + [c])
      else l
  }

  /** State, message so far, request so far, and bytes read all agree. */
  predicate Agree(s: State, m: Message, r: Request, read: string) {
    DraftOk(s, m) && Says(s, m, r) && Fits(s, r) && read == Draft(s, m)
  }

  ghost predicate Kept(s: State, m: Message, r: Request, read: string, c: char)
    requires DraftOk(s, m) && Fits(s, r)
  {
    Agree(Step(s, r, c).state, Extend(s, m, c), Step(s, r, c).request, read + [c])
  }

  lemma KeptInVerb(s: State, m: Message, r: Request, read: string, c: char)
    requires Agree(s, m, r, read) && Step(s, r, c).verdict == Indeterminate && (s.MethodStart? || s.Method?)
    ensures Kept(s, m, r, read, c)
  {
    assert m.verb + " " + "" == m.verb + " ";
  }

  lemma KeptInUri(m: Message, r: Request, read: string, c: char)
    requires Agree(Uri, m, r, read) && Step(Uri, r, c).verdict == Indeterminate
    ensures Kept(Uri, m, r, read, c)
  {
  }

  lemma KeptInVersion(s: State, m: Message, r: Request, read: string, c: char)
    requires Agree(s, m, r, read) && Step(s, r, c).verdict == Indeterminate && InVersion(s)
    ensures Kept(s, m, r, read, c)
  {
    var top, o := m.verb + " " + m.uri, Step(s, r, c);
    if s.VersionSlash? {
      assert top + " HTTP/" + "" == top + " HTTP" + "/";
    } else {
      assert VersionDraft(o.state) == VersionDraft(s) + [c];
      assert top + (VersionDraft(s) + [c]) == top + VersionDraft(s) + [c];
    }
  }

  lemma LongerNumber(digits: string, c: char)
    requires IsDigit(c) && forall d <- digits :: IsDigit(d)
    ensures IsNumber(digits + [c]) && NumberOf(digits + [c]) == Digit(NumberOf(digits), c)
  {
  }

  lemma KeptInMajor(s: State, m: Message, r: Request, read: string, c: char)
    requires Agree(s, m, r, read) && Step(s, r, c).verdict == Indeterminate && (s.MajorStart? || s.Major?)
    ensures Kept(s, m, r, read, c)
  {
    var top := m.verb + " " + m.uri + " HTTP/";
    if c == '.' {
      assert top + (m.major + ("." + "")) == top + m.major + ".";
    } else {
      LongerNumber(m.major, c);
      assert top + (m.major + [c]) == top + m.major + [c];
    }
  }

  lemma MinorIsLast(top: string, major: string, minor: string, c: string)
    ensures top + (major + ("." + (minor + c))) == top + (major + ("." + minor)) + c
  {
  }

  lemma KeptInMinor(s: State, m: Message, r: Request, read: string, c: char)
    requires Agree(s, m, r, read) && Step(s, r, c).verdict == Indeterminate && (s.MinorStart? || s.Minor?)
    ensures Kept(s, m, r, read, c)
  {
    MinorIsLast(m.verb + " " + m.uri + " HTTP/", m.major, m.minor, [c]);
    if c != '\r' {
      LongerNumber(m.minor, c);
    }
  }

  lemma RequestLineInFull(verb: string, uri: string, major: string, minor: string)
    ensures verb + " " + uri + " HTTP/" + (major + ("." + (minor + "\r"))) + "\n" ==
            verb + (" " + (uri + (" HTTP/" + (major + ("." + (minor + "\r\n")))))) + ""
  {
  }

  lemma KeptAtNewline1(m: Message, r: Request, read: string, c: char)
    requires Agree(Newline1, m, r, read) && Step(Newline1, r, c).verdict == Indeterminate
    ensures Kept(Newline1, m, r, read, c)
  {
    RequestLineInFull(m.verb, m.uri, m.major, m.minor);
  }

  lemma HeadersOfMore(ls: seq<Line>, l: Line)
    requires LinesOk(ls) && LineOk(l) && (ls == [] ==> l.Field?)
    ensures LinesOk(ls + [l]) && (ls + [l])[..|ls|] == ls
    ensures PrintLines(ls + [l]) == PrintLines(ls) + (LineBody(l) + "\r\n")
    ensures l.Field? ==> Headers(ls + [l]) == Headers(ls) + [Header(l.name, l.value)]
    ensures l.Fold? ==> Headers(ls) != [] && Headers(ls + [l]) == Lengthened(Headers(ls), l.text)
  {
    assert (ls + [l])[..|ls|] == ls;
    if ls != [] {
      FirstGivesHeader(ls);
    }
  }

  /** What a step does to the lines and headers. */
  ghost predicate LinesKept(s: State, ls: seq<Line>, hs: seq<Header>, s': State, ls': seq<Line>, hs': seq<Header>,
                            c: char)
    requires InLine(s) ==> ls != []
  {
    && InHeaders(s') && LinesOk(ls') && hs' == Headers(ls')
    && (InLine(s') ==> ls' != [] && hs' != [] && LastOk(s', ls'[|ls'| - 1]))
    && HeadersDraft(s', ls') == HeadersDraft(s, ls) + [c]
  }

  /** A header line, or one that continues the last, starts with this byte. */
  lemma LineStarts(ls: seq<Line>, l: Line, c: char)
    requires LinesOk(ls) && LineOk(l)
    requires if l.Field? then l == Field([c], "") else l == Fold([c], "") && ls != []
    ensures LinesKept(LineStart, ls, Headers(ls), if l.Field? then Name else Lws, ls + [l],
                      if l.Field? then Headers(ls) + [Header([c], "")] else Headers(ls), c)
  {
    HeadersOfMore(ls, l);
    if l.Fold? {
      LengthenedByNothing(Headers(ls));
      assert [c] + "" == [c];
    }
  }

  lemma LinesKeptAtStart(m: Message, r: Request, c: char)
    requires DraftOk(LineStart, m) && r.headers == Headers(m.lines) && Step(LineStart, r, c).verdict == Indeterminate
    ensures LinesKept(LineStart, m.lines, r.headers, Step(LineStart, r, c).state,
                      Extend(LineStart, m, c).lines, Step(LineStart, r, c).request.headers, c)
  {
    var ls := m.lines;
    if ls != [] {
      FirstGivesHeader(ls);
    }
    if c != '\r' {
      LineStarts(ls, if ls != [] && IsBlank(c) then Fold([c], "") else Field([c], ""), c);
    }
  }

  lemma LinesKeptInLine(s: State, m: Message, r: Request, c: char)
    requires DraftOk(s, m) && InLine(s) && Fits(s, r) && r.headers == Headers(m.lines)
    requires Step(s, r, c).verdict == Indeterminate
    ensures LinesKept(s, m.lines, r.headers, Step(s, r, c).state,
                      Extend(s, m, c).lines, Step(s, r, c).request.headers, c)
  {
    var ls := m.lines;
    var front, l := ls[..|ls| - 1], LastLine(m);
    assert ls == front + [l];
    assert front != [] ==> ls[0] == front[0];
    LineKept(s, front, l, r, c);
    var ls' := front + [ExtendLine(s, l, c)];
    assert ls'[..|ls'| - 1] == front;
  }

  lemma LineKept(s: State, front: seq<Line>, l: Line, r: Request, c: char)
    requires LinesOk(front) && LineOk(l) && (front == [] ==> l.Field?) && InLine(s) && LastOk(s, l)
    requires Fits(s, r) && r.headers == Headers(front + [l]) && Step(s, r, c).verdict == Indeterminate
    ensures var s', l' := Step(s, r, c).state, ExtendLine(s, l, c);
      && InHeaders(s') && LinesOk(front + [l']) && Step(s, r, c).request.headers == Headers(front + [l'])
      && (InLine(s') ==> Step(s, r, c).request.headers != [] && LastOk(s', l'))
      && HeadersDraft(s', front + [l']) == HeadersDraft(s, front + [l]) + [c]
  {
    var l' := ExtendLine(s, l, c);
    ExtendedLineIsOk(s, l, c, r);
    HeadersOfMore(front, l');
    HeadersStep(s, front, l, r, c);
    DraftStep(s, front, l, r, c);
  }

  lemma HeadersStep(s: State, front: seq<Line>, l: Line, r: Request, c: char)
    requires LinesOk(front) && LineOk(l) && (front == [] ==> l.Field?) && InLine(s) && LastOk(s, l)
    requires Fits(s, r) && r.headers == Headers(front + [l]) && Step(s, r, c).verdict == Indeterminate
    ensures Step(s, r, c).request.headers == Headers(front + [ExtendLine(s, l, c)]) != []
  {
    HeadersOfMore(front, l);
    var l' := ExtendLine(s, l, c);
    ExtendedLineIsOk(s, l, c, r);
    HeadersOfMore(front, l');
    if l.Field? {
      FieldStep(s, Headers(front), l, r, c);
    } else {
      FoldStep(s, Headers(front), l, r, c);
    }
  }

  lemma FieldStep(s: State, hs: seq<Header>, l: Line, r: Request, c: char)
    requires l.Field? && InLine(s) && LastOk(s, l) && Fits(s, r) && Step(s, r, c).verdict == Indeterminate
    requires r.headers == hs + [Header(l.name, l.value)]
    ensures var l' := ExtendLine(s, l, c);
      l'.Field? && Step(s, r, c).request.headers == hs + [Header(l'.name, l'.value)]
  {
  }

  lemma FoldStep(s: State, hs: seq<Header>, l: Line, r: Request, c: char)
    requires l.Fold? && InLine(s) && LastOk(s, l) && Fits(s, r) && Step(s, r, c).verdict == Indeterminate
    requires hs != [] && r.headers == Lengthened(hs, l.text)
    ensures var l' := ExtendLine(s, l, c); l'.Fold? && Step(s, r, c).request.headers == Lengthened(hs, l'.text)
  {
    LengthenedTwice(hs, l.text, [c]);
  }

  lemma DraftStep(s: State, front: seq<Line>, l: Line, r: Request, c: char)
    requires InLine(s) && LineOk(l) && LastOk(s, l) && Fits(s, r) && Step(s, r, c).verdict == Indeterminate
    ensures HeadersDraft(Step(s, r, c).state, front + [ExtendLine(s, l, c)]) == HeadersDraft(s, front + [l]) + [c]
  {
    var s', l' := Step(s, r, c).state, ExtendLine(s, l, c);
    assert (front + [l])[..|front|] == front && (front + [l'])[..|front|] == front;
    var before := PrintLines(front);
    ExtendedLineIsOk(s, l, c, r);
    if s.Newline2? {
      assert before + (LineBody(l) + "\r\n") == before + (LineBody(l) + "\r") + "\n";
    } else {
      assert before + (LineDraft(s, l) + [c]) == before + LineDraft(s, l) + [c];
    }
  }

  lemma ExtendedFieldIsOk(s: State, l: Line, c: char, r: Request)
    requires l.Field?
    requires LineOk(l) && InLine(s) && LastOk(s, l) && Fits(s, r) && Step(s, r, c).verdict == Indeterminate
    ensures LineOk(ExtendLine(s, l, c)) && ExtendLine(s, l, c).Field? == l.Field?
    ensures InLine(Step(s, r, c).state) ==> LastOk(Step(s, r, c).state, ExtendLine(s, l, c))
    ensures if s.Newline2? then Step(s, r, c).state == LineStart && ExtendLine(s, l, c) == l && c == '\n'
      else InLine(Step(s, r, c).state) && LineDraft(Step(s, r, c).state, ExtendLine(s, l, c)) == LineDraft(s, l) + [c]
  {
  }

  lemma ExtendedFoldIsOk(s: State, l: Line, c: char, r: Request)
    requires l.Fold?
    requires LineOk(l) && InLine(s) && LastOk(s, l) && Fits(s, r) && Step(s, r, c).verdict == Indeterminate
    ensures LineOk(ExtendLine(s, l, c)) && ExtendLine(s, l, c).Field? == l.Field?
    ensures InLine(Step(s, r, c).state) ==> LastOk(Step(s, r, c).state, ExtendLine(s, l, c))
    ensures if s.Newline2? then Step(s, r, c).state == LineStart && ExtendLine(s, l, c) == l && c == '\n'
      else InLine(Step(s, r, c).state) && LineDraft(Step(s, r, c).state, ExtendLine(s, l, c)) == LineDraft(s, l) + [c]
  {
  }

  lemma ExtendedLineIsOk(s: State, l: Line, c: char, r: Request)
    requires LineOk(l) && InLine(s) && LastOk(s, l) && Fits(s, r) && Step(s, r, c).verdict == Indeterminate
    ensures LineOk(ExtendLine(s, l, c)) && ExtendLine(s, l, c).Field? == l.Field?
    ensures InLine(Step(s, r, c).state) ==> LastOk(Step(s, r, c).state, ExtendLine(s, l, c))
    ensures if s.Newline2? then Step(s, r, c).state == LineStart && ExtendLine(s, l, c) == l && c == '\n'
      else InLine(Step(s, r, c).state) && LineDraft(Step(s, r, c).state, ExtendLine(s, l, c)) == LineDraft(s, l) + [c]
  {
    if l.Field? {
      ExtendedFieldIsOk(s, l, c, r);
    } else {
      ExtendedFoldIsOk(s, l, c, r);
    }
  }

  lemma KeptInHeaders(s: State, m: Message, r: Request, read: string, c: char)
    requires Agree(s, m, r, read) && Step(s, r, c).verdict == Indeterminate && InHeaders(s)
    ensures Kept(s, m, r, read, c)
  {
    if s.LineStart? {
      LinesKeptAtStart(m, r, c);
    } else {
      LinesKeptInLine(s, m, r, c);
    }
    OnlyLinesChange(s, m, r, c);
    AgreeWithLines(s, m, r, read, c, Step(s, r, c).state, Extend(s, m, c).lines, Step(s, r, c).request);
  }

  lemma OnlyLinesChange(s: State, m: Message, r: Request, c: char)
    requires DraftOk(s, m) && Fits(s, r) && InHeaders(s)
    ensures Step(s, r, c).request == r.(headers := Step(s, r, c).request.headers)
    ensures Extend(s, m, c) == m.(lines := Extend(s, m, c).lines)
  {
  }

  lemma AgreeWithLines(s: State, m: Message, r: Request, read: string, c: char, s': State, ls': seq<Line>, r': Request)
    requires Agree(s, m, r, read) && InHeaders(s) && r' == r.(headers := r'.headers)
    requires LinesKept(s, m.lines, r.headers, s', ls', r'.headers, c)
    ensures Agree(s', m.(lines := ls'), r', read + [c])
  {
    var m' := m.(lines := ls');
    AppendedToDraft(RequestLine(m), HeadersDraft(s, m.lines), c);
    DraftInHeaders(s, m);
    DraftOkWithLines(s, m, s', ls');
    DraftInHeaders(s', m');
    SaysWithLines(s, m, r, s', ls', r');
  }

  lemma DraftOkWithLines(s: State, m: Message, s': State, ls': seq<Line>)
    requires DraftOk(s, m) && InHeaders(s) && InHeaders(s') && LinesOk(ls')
    requires InLine(s') ==> ls' != [] && LastOk(s', ls'[|ls'| - 1])
    ensures DraftOk(s', m.(lines := ls'))
  {
  }

  lemma DraftInHeaders(s: State, m: Message)
    requires DraftOk(s, m) && InHeaders(s)
    ensures Draft(s, m) == RequestLine(m.(lines := [])) + HeadersDraft(s, m.lines)
    ensures RequestLine(m) == RequestLine(m.(lines := []))
  {
  }

  lemma SaysWithLines(s: State, m: Message, r: Request, s': State, ls': seq<Line>, r': Request)
    requires InHeaders(s) && InHeaders(s') && Says(s, m, r) && r' == r.(headers := Headers(ls'))
    ensures Says(s', m.(lines := ls'), r')
  {
  }

  lemma AppendedToDraft(top: string, rest: string, c: char)
    ensures top + (rest + [c]) == top + rest + [c]
  {
  }

  /** Every byte the parser takes extends the message so far. */
  lemma ByteKeeps(s: State, m: Message, r: Request, read: string, c: char)
    requires Agree(s, m, r, read) && Step(s, r, c).verdict == Indeterminate
    ensures Kept(s, m, r, read, c)
  {
    match s
    case MethodStart => KeptInVerb(s, m, r, read, c);
    case Method => KeptInVerb(s, m, r, read, c);
    case Uri => KeptInUri(m, r, read, c);
    case MajorStart => KeptInMajor(s, m, r, read, c);
    case Major => KeptInMajor(s, m, r, read, c);
    case MinorStart => KeptInMinor(s, m, r, read, c);
    case Minor => KeptInMinor(s, m, r, read, c);
    case Newline1 => KeptAtNewline1(m, r, read, c);
    case _ =>
      if InVersion(s) {
        KeptInVersion(s, m, r, read, c);
      } else {
        KeptInHeaders(s, m, r, read, c);
      }
  }

  lemma AcceptedAtLastByte(s: State, m: Message, r: Request, read: string, input: string)
    requires Agree(s, m, r, read) && input != "" && Step(s, r, input[0]).verdict == Good
    ensures WellFormed(m) && Print(m) == read + input[..1] && r == Reading(m)
  {
    assert s == Newline3 && input[0] == '\n' && input[..1] == "\n";
    var lines := PrintLines(m.lines);
    assert RequestLine(m) + (lines + "\r") + "\n" == RequestLine(m) + (lines + "\r\n");
  }

  lemma OneMoreRead(read: string, input: string, n: nat)
    requires 0 < n <= |input|
    ensures read + [input[0]] + input[1..][..n - 1] == read + input[..n]
  {
  }

  lemma {:induction false} AcceptedWasPrinted(s: State, m: Message, r: Request, read: string, input: string)
    returns (whole: Message)
    requires Agree(s, m, r, read) && Feed(s, r, input).verdict == Good
    ensures WellFormed(whole) && Print(whole) == read + input[..Feed(s, r, input).consumed]
    ensures Feed(s, r, input).request == Reading(whole)
    decreases |input|
  {
    var c := input[0];
    var o := Step(s, r, c);
    if o.verdict == Good {
      whole := m;
      AcceptedAtLastByte(s, m, r, read, input);
    } else {
      ByteKeeps(s, m, r, read, c);
      whole := AcceptedWasPrinted(o.state, Extend(s, m, c), o.request, read + [c], input[1..]);
      OneMoreRead(read, input, Feed(s, r, input).consumed);
    }
  }

  /** The text is a printed request that reads as `q`. */
  ghost predicate IsRequest(text: string, q: Request) {
    exists m :: WellFormed(m) && Print(m) == text && Reading(m) == q
  }

  /** A request is accepted exactly when the bytes begin with a printed one; it ends there and reads as printed. */
  lemma AcceptedExactlyWhenPrinted(r: Request, input: string, n: nat, q: Request)
    requires Untouched(r)
    ensures (var f := Feed(MethodStart, r, input); f.verdict == Good && f.consumed == n && f.request == q)
       <==> n <= |input| && IsRequest(input[..n], q)
  {
    var f := Feed(MethodStart, r, input);
    if f.verdict == Good {
      var m := AcceptedIsPrinted(r, input);
    }
    if n <= |input| && IsRequest(input[..n], q) {
      var m :| WellFormed(m) && Print(m) == input[..n] && Reading(m) == q;
      PrintedBeginsInput(r, m, input);
    }
  }

  lemma PrintedBeginsInput(r: Request, m: Message, input: string)
    requires Untouched(r) && WellFormed(m) && Print(m) <= input
    ensures Feed(MethodStart, r, input) == Result(Newline3, Reading(m), Good, |Print(m)|)
  {
    PrintedIsAccepted(r, m, input[|Print(m)|..]);
    assert Print(m) + input[|Print(m)|..] == input;
  }

  lemma AcceptedIsPrinted(r: Request, input: string) returns (m: Message)
    requires Untouched(r) && Feed(MethodStart, r, input).verdict == Good
    ensures WellFormed(m) && Print(m) == input[..Feed(MethodStart, r, input).consumed]
    ensures Feed(MethodStart, r, input).request == Reading(m)
  {
    var n := Feed(MethodStart, r, input).consumed;
    m := AcceptedWasPrinted(MethodStart, Message("", "", "", "", []), r, "", input);
    assert "" + input[..n] == input[..n];
  }

  // ---- Nothing is rejected late

  /** A byte that leads on from each state towards the end. */
  function WayOut(s: State): (c: char) {
    match s
    case MethodStart => 'G' case Method => ' ' case Uri => ' '
    case VersionH => 'H' case VersionT1 => 'T' case VersionT2 => 'T' case VersionP => 'P' case VersionSlash => '/'
    case MajorStart => '1' case Major => '.' case MinorStart => '0' case Minor => '\r'
    case Newline1 => '\n' case LineStart => '\r' case Lws => '\r' case Name => ':'
    case SpaceBeforeValue => ' ' case Value => '\r' case Newline2 => '\n' case Newline3 => '\n'
  }

  function StepsLeft(s: State): nat {
    match s
    case MethodStart => 16 case Method => 15 case Uri => 14
    case VersionH => 13 case VersionT1 => 12 case VersionT2 => 11 case VersionP => 10 case VersionSlash => 9
    case MajorStart => 8 case Major => 7 case MinorStart => 6 case Minor => 5
    case Newline1 => 4 case LineStart => 2 case Lws => 4 case Name => 6
    case SpaceBeforeValue => 5 case Value => 4 case Newline2 => 3 case Newline3 => 1
  }

  lemma {:induction false} EveryStateCanFinish(s: State, r: Request) returns (rest: string)
    requires Fits(s, r)
    ensures Feed(s, r, rest).verdict == Good && Feed(s, r, rest).consumed == |rest|
    decreases StepsLeft(s)
  {
    var c := WayOut(s);
    var o := Step(s, r, c);
    if o.verdict == Good {
      rest := [c];
    } else {
      rest := EveryStateCanFinish(o.state, o.request);
      assert ([c] + rest)[1..] == rest;
      rest := [c] + rest;
    }
  }

  /**
   * Input is undecided exactly when it begins a request without containing one: the parser rejects at the first
   * wrong byte.
   */
  lemma UndecidedExactlyWhenCompletable(r: Request, input: string)
    requires Untouched(r)
    ensures Feed(MethodStart, r, input).verdict == Indeterminate
       <==> exists rest :: rest != "" && Feed(MethodStart, r, input + rest).verdict == Good
                           && Feed(MethodStart, r, input + rest).consumed == |input + rest|
  {
    var f := Feed(MethodStart, r, input);
    if f.verdict == Indeterminate {
      var rest := EveryStateCanFinish(f.state, f.request);
      ChunksDoNotMatter(MethodStart, r, input, rest);
    } else {
      forall rest | rest != ""
        ensures Feed(MethodStart, r, input + rest) == f
      {
        ChunksDoNotMatter(MethodStart, r, input, rest);
      }
    }
  }
}
