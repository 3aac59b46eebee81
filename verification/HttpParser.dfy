/** The request parser, one byte at a time, against the request grammar. */
module HttpParser {
  import opened HttpGrammar

  datatype State =
    | MethodStart | Method | Uri | VersionH | VersionT1 | VersionT2 | VersionP | VersionSlash
    | MajorStart | Major | MinorStart | Minor | Newline1
    | LineStart | Lws | Name | SpaceBeforeValue | Value | Newline2 | Newline3

  datatype Verdict = Good | Bad | Indeterminate

  datatype Outcome = Outcome(state: State, request: Request, verdict: Verdict)

  /** States inside a header line have a header to write to. */
  predicate Fits(s: State, r: Request) {
    s in {Lws, Name, SpaceBeforeValue, Value} ==> r.headers != []
  }

  function Renamed(hs: seq<Header>, c: char): (r: seq<Header>)
    requires hs != []
  {
    var last := hs[|hs| - 1];
    hs[..|hs| - 1] + [last.(name := last.name + [c])]
  }

  function Digit(n: int, c: char): int {
    n * 10 + (c as int - '0' as int)
  }

  /** The effect of one byte. */
  function Step(s: State, r: Request, c: char): (o: Outcome)
    requires Fits(s, r)
    ensures Fits(o.state, o.request)
    ensures o.verdict == Good ==> o.request == r
  {
    var bad := Outcome(s, r, Bad);
    match s
    case MethodStart => if !IsTokenChar(c) then bad else Next(Method, r.(verb := r.verb + [c]))
    case Method =>
      if c == ' ' then Next(Uri, r) else if !IsTokenChar(c) then bad else Next(Method, r.(verb := r.verb + [c]))
    case Uri =>
      if c == ' ' then Next(VersionH, r) else if IsCtl(c) then bad else Next(Uri, r.(uri := r.uri + [c]))
    case VersionH => if c == 'H' then Next(VersionT1, r) else bad
    case VersionT1 => if c == 'T' then Next(VersionT2, r) else bad
    case VersionT2 => if c == 'T' then Next(VersionP, r) else bad
    case VersionP => if c == 'P' then Next(VersionSlash, r) else bad
    case VersionSlash => if c == '/' then Next(MajorStart, r.(major := 0, minor := 0)) else bad
    case MajorStart => if IsDigit(c) then Next(Major, r.(major := Digit(r.major, c))) else bad
    case Major =>
      if c == '.' then Next(MinorStart, r)
      else if IsDigit(c) then Next(Major, r.(major := Digit(r.major, c))) else bad
    case MinorStart => if IsDigit(c) then Next(Minor, r.(minor := Digit(r.minor, c))) else bad
    case Minor =>
      if c == '\r' then Next(Newline1, r)
      else if IsDigit(c) then Next(Minor, r.(minor := Digit(r.minor, c))) else bad
    case Newline1 => if c == '\n' then Next(LineStart, r) else bad
    case LineStart =>
      if c == '\r' then Next(Newline3, r)
      else if r.headers != [] && IsBlank(c) then Next(Lws, r)
      else if !IsTokenChar(c) then bad
      else Next(Name, r.(headers := r.headers + [Header([c], "")]))
    case Lws =>
      if c == '\r' then Next(Newline2, r)
      else if IsBlank(c) then Next(Lws, r)
      else if IsCtl(c) then bad
      else Next(Value, r.(headers := Lengthened(r.headers, [c])))
    case Name =>
      if c == ':' then Next(SpaceBeforeValue, r)
      else if !IsTokenChar(c) then bad
      else Next(Name, r.(headers := Renamed(r.headers, c)))
    case SpaceBeforeValue => if c == ' ' then Next(Value, r) else bad
    case Value =>
      if c == '\r' then Next(Newline2, r)
      else if IsCtl(c) then bad
      else Next(Value, r.(headers := Lengthened(r.headers, [c])))
    case Newline2 => if c == '\n' then Next(LineStart, r) else bad
    case Newline3 => if c == '\n' then Outcome(s, r, Good) else bad
  }

  function Next(s: State, r: Request): Outcome {
    Outcome(s, r, Indeterminate)
  }

  /** The effect of a piece of input: how it ends and how many bytes it takes. */
  datatype Result = Result(state: State, request: Request, verdict: Verdict, consumed: nat)

  function Feed(s: State, r: Request, input: string): (f: Result)
    requires Fits(s, r)
    ensures f.consumed <= |input| && Fits(f.state, f.request)
    ensures f.verdict == Indeterminate ==> f.consumed == |input|
    decreases |input|
  {
    if input == "" then Result(s, r, Indeterminate, 0)
    else
      var o := Step(s, r, input[0]);
      if o.verdict != Indeterminate then Result(o.state, o.request, o.verdict, 1)
      else
        var f := Feed(o.state, o.request, input[1..]);
        f.(consumed := f.consumed + 1)
  }

  class RequestParser {
    var state: State

    constructor ()
      ensures state == MethodStart
    {
      state := MethodStart;
    }

    method Reset()
      modifies this
      ensures state == MethodStart
    {
      state := MethodStart;
    }

    method Consume(req: Request, input: char) returns (verdict: Verdict, req': Request)
      requires Fits(state, req)
      modifies this
      ensures Outcome(state, req', verdict) == Step(old(state), req, input)
    {
      verdict, req' := Indeterminate, req;
      match state {
        case MethodStart =>
          if !IsTokenChar(input) {
            return Bad, req;
          }
          state := Method;
          req' := req.(verb := req.verb + [input]);
        case Method =>
          if input == ' ' {
            state := Uri;
          } else if !IsTokenChar(input) {
            return Bad, req;
          } else {
            req' := req.(verb := req.verb + [input]);
          }
        case Uri =>
          if input == ' ' {
            state := VersionH;
          } else if IsCtl(input) {
            return Bad, req;
          } else {
            req' := req.(uri := req.uri + [input]);
          }
        case VersionH =>
          verdict := Expect(input, 'H', VersionT1);
        case VersionT1 =>
          verdict := Expect(input, 'T', VersionT2);
        case VersionT2 =>
          verdict := Expect(input, 'T', VersionP);
        case VersionP =>
          verdict := Expect(input, 'P', VersionSlash);
        case VersionSlash =>
          verdict := Expect(input, '/', MajorStart);
          if verdict == Indeterminate {
            req' := req.(major := 0, minor := 0);
          }
        case MajorStart =>
          if !IsDigit(input) {
            return Bad, req;
          }
          req' := req.(major := Digit(req.major, input));
          state := Major;
        case Major =>
          if input == '.' {
            state := MinorStart;
          } else if IsDigit(input) {
            req' := req.(major := Digit(req.major, input));
          } else {
            return Bad, req;
          }
        case MinorStart =>
          if !IsDigit(input) {
            return Bad, req;
          }
          req' := req.(minor := Digit(req.minor, input));
          state := Minor;
        case Minor =>
          if input == '\r' {
            state := Newline1;
          } else if IsDigit(input) {
            req' := req.(minor := Digit(req.minor, input));
          } else {
            return Bad, req;
          }
        case Newline1 =>
          verdict := Expect(input, '\n', LineStart);
        case LineStart =>
          if input == '\r' {
            state := Newline3;
          } else if req.headers != [] && (input == ' ' || input == '\t') {
            state := Lws;
          } else if !IsTokenChar(input) {
            return Bad, req;
          } else {
            req' := req.(headers := req.headers + [Header([input], "")]);
            state := Name;
          }
        case Lws =>
          if input == '\r' {
            state := Newline2;
          } else if input == ' ' || input == '\t' {
          } else if IsCtl(input) {
            return Bad, req;
          } else {
            state := Value;
            req' := req.(headers := Lengthened(req.headers, [input]));
          }
        case Name =>
          if input == ':' {
            state := SpaceBeforeValue;
          } else if !IsTokenChar(input) {
            return Bad, req;
          } else {
            req' := req.(headers := Renamed(req.headers, input));
          }
        case SpaceBeforeValue =>
          verdict := Expect(input, ' ', Value);
        case Value =>
          if input == '\r' {
            state := Newline2;
          } else if IsCtl(input) {
            return Bad, req;
          } else {
            req' := req.(headers := Lengthened(req.headers, [input]));
          }
        case Newline2 =>
          verdict := Expect(input, '\n', LineStart);
        case Newline3 =>
          verdict := if input == '\n' then Good else Bad;
      }
    }

    /** The one byte that leads on, and where to. */
    method Expect(input: char, wanted: char, next: State) returns (verdict: Verdict)
      modifies this
      ensures if input == wanted then verdict == Indeterminate && state == next
              else verdict == Bad && state == old(state)
    {
      if input != wanted {
        return Bad;
      }
      state := next;
      return Indeterminate;
    }

    method Parse(req: Request, input: string) returns (verdict: Verdict, begin: nat, req': Request)
      requires Fits(state, req)
      modifies this
      ensures Result(state, req', verdict, begin) == Feed(old(state), req, input)
    {
      begin, req' := 0, req;
      while begin != |input|
        invariant begin <= |input| && Fits(state, req')
        invariant var f := Feed(state, req', input[begin..]);
          Feed(old(state), req, input) == f.(consumed := begin + f.consumed)
        decreases |input| - begin
      {
        verdict, req' := Consume(req', input[begin]);
        begin := begin + 1;
        if verdict == Good || verdict == Bad {
          return;
        }
      }
      verdict := Indeterminate;
    }
  }

  // ---- Pieces

  /** The whole of `a` is taken, and leads from one state to another. */
  predicate Goes(s: State, r: Request, a: string, s': State, r': Request) {
    Fits(s, r) && Feed(s, r, a) == Result(s', r', Indeterminate, |a|)
  }

  lemma {:induction false} GoOn(s: State, r: Request, a: string, s': State, r': Request, b: string)
    requires Goes(s, r, a, s', r')
    ensures Fits(s', r')
    ensures var f := Feed(s', r', b); Feed(s, r, a + b) == f.(consumed := |a| + f.consumed)
    decreases |a|
  {
    if a == "" {
      assert a + b == b;
    } else {
      var o := Step(s, r, a[0]);
      assert (a + b)[0] == a[0] && (a + b)[1..] == a[1..] + b;
      GoOn(o.state, o.request, a[1..], s', r', b);
    }
  }

  /** Feeding a string in two pieces is feeding it whole: same verdict, same request, same number of bytes taken. */
  lemma {:induction false} ChunksDoNotMatter(s: State, r: Request, a: string, b: string)
    requires Fits(s, r)
    ensures var f := Feed(s, r, a);
      if f.verdict == Indeterminate
      then var g := Feed(f.state, f.request, b); Feed(s, r, a + b) == g.(consumed := |a| + g.consumed)
      else Feed(s, r, a + b) == f
    decreases |a|
  {
    var f := Feed(s, r, a);
    if f.verdict == Indeterminate {
      GoOn(s, r, a, f.state, f.request, b);
    } else {
      assert (a + b)[0] == a[0] && (a + b)[1..] == a[1..] + b;
      var o := Step(s, r, a[0]);
      if o.verdict == Indeterminate {
        ChunksDoNotMatter(o.state, o.request, a[1..], b);
      }
    }
  }

  /** Pieces fed in turn until one of them decides. */
  function FeedAll(s: State, r: Request, pieces: seq<string>): (f: Result)
    requires Fits(s, r)
    decreases |pieces|
  {
    if pieces == [] then Result(s, r, Indeterminate, 0)
    else
      var f := Feed(s, r, pieces[0]);
      if f.verdict != Indeterminate then f
      else
        var g := FeedAll(f.state, f.request, pieces[1..]);
        g.(consumed := f.consumed + g.consumed)
  }

  function Joined(pieces: seq<string>): string {
    if pieces == [] then "" else pieces[0] + Joined(pieces[1..])
  }

  lemma {:induction false} AnySplitIsTheSame(s: State, r: Request, pieces: seq<string>)
    requires Fits(s, r)
    ensures FeedAll(s, r, pieces) == Feed(s, r, Joined(pieces))
    decreases |pieces|
  {
    if pieces != [] {
      ChunksDoNotMatter(s, r, pieces[0], Joined(pieces[1..]));
      var f := Feed(s, r, pieces[0]);
      if f.verdict == Indeterminate {
        AnySplitIsTheSame(f.state, f.request, pieces[1..]);
      }
    }
  }

  // ---- Printed requests parse

  lemma GoesThen(s: State, r: Request, a: string, s': State, r': Request, b: string, s'': State, r'': Request)
    requires Goes(s, r, a, s', r') && Goes(s', r', b, s'', r'')
    ensures Goes(s, r, a + b, s'', r'')
  {
    GoOn(s, r, a, s', r', b);
  }

  lemma GoesByte(s: State, r: Request, c: char)
    requires Fits(s, r) && Step(s, r, c).verdict == Indeterminate
    ensures Goes(s, r, [c], Step(s, r, c).state, Step(s, r, c).request)
  {
  }

  lemma GoesFirst(s: State, r: Request, cs: string, s': State, r': Request)
    requires cs != "" && Fits(s, r) && Step(s, r, cs[0]).verdict == Indeterminate
    requires Goes(Step(s, r, cs[0]).state, Step(s, r, cs[0]).request, cs[1..], s', r')
    ensures Goes(s, r, cs, s', r')
  {
  }

  lemma {:induction false} GoesMethod(r: Request, cs: string)
    requires forall c <- cs :: IsTokenChar(c)
    decreases |cs|
    ensures Goes(Method, r, cs, Method, r.(verb := r.verb + cs))
  {
    if cs == "" {
      assert r.verb + cs == r.verb;
    } else {
      var r' := r.(verb := r.verb + [cs[0]]);
      GoesMethod(r', cs[1..]);
      assert r.verb + cs == r'.verb + cs[1..];
      GoesFirst(Method, r, cs, Method, r.(verb := r.verb + cs));
    }
  }

  lemma {:induction false} GoesUri(r: Request, cs: string)
    requires IsUri(cs)
    decreases |cs|
    ensures Goes(Uri, r, cs, Uri, r.(uri := r.uri + cs))
  {
    if cs == "" {
      assert r.uri + cs == r.uri;
    } else {
      var r' := r.(uri := r.uri + [cs[0]]);
      GoesUri(r', cs[1..]);
      assert r.uri + cs == r'.uri + cs[1..];
      GoesFirst(Uri, r, cs, Uri, r.(uri := r.uri + cs));
    }
  }

  lemma {:induction false} GoesMajor(r: Request, cs: string)
    requires IsNumber(cs) && r.major == 0
    ensures Goes(MajorStart, r, cs, Major, r.(major := NumberOf(cs)))
  {
    var last := |cs| - 1;
    assert IsDigit(cs[0]) && IsDigit(cs[last]);
    if last == 0 {
      assert cs == [cs[0]] && NumberOf(cs[..0]) == 0;
      GoesByte(MajorStart, r, cs[0]);
    } else {
      GoesMajor(r, cs[..last]);
      GoesByte(Major, r.(major := NumberOf(cs[..last])), cs[last]);
      GoesThen(MajorStart, r, cs[..last], Major, r.(major := NumberOf(cs[..last])),
               [cs[last]], Major, r.(major := NumberOf(cs)));
      assert cs == cs[..last] + [cs[last]];
    }
  }

  lemma {:induction false} GoesMinor(r: Request, cs: string)
    requires IsNumber(cs) && r.minor == 0
    ensures Goes(MinorStart, r, cs, Minor, r.(minor := NumberOf(cs)))
  {
    var last := |cs| - 1;
    assert IsDigit(cs[0]) && IsDigit(cs[last]);
    if last == 0 {
      assert cs == [cs[0]] && NumberOf(cs[..0]) == 0;
      GoesByte(MinorStart, r, cs[0]);
    } else {
      GoesMinor(r, cs[..last]);
      GoesByte(Minor, r.(minor := NumberOf(cs[..last])), cs[last]);
      GoesThen(MinorStart, r, cs[..last], Minor, r.(minor := NumberOf(cs[..last])),
               [cs[last]], Minor, r.(minor := NumberOf(cs)));
      assert cs == cs[..last] + [cs[last]];
    }
  }

  lemma GoesTwo(s: State, r: Request, c: char, d: char, s': State, s'': State)
    requires Fits(s, r) && Step(s, r, c) == Next(s', r) && Fits(s', r) && Step(s', r, d) == Next(s'', r)
    ensures Goes(s, r, [c, d], s'', r)
  {
    GoesByte(s, r, c);
    GoesByte(s', r, d);
    GoesThen(s, r, [c], s', r, [d], s'', r);
  }

  lemma GoesVersion(r: Request)
    ensures Goes(Uri, r, " HTTP/", MajorStart, r.(major := 0, minor := 0))
  {
    GoesTwo(Uri, r, ' ', 'H', VersionH, VersionT1);
    GoesTwo(VersionT1, r, 'T', 'T', VersionT2, VersionP);
    GoesThen(Uri, r, " H", VersionT1, r, "TT", VersionP, r);
    GoesByte(VersionP, r, 'P');
    GoesByte(VersionSlash, r, '/');
    GoesThen(VersionP, r, "P", VersionSlash, r, "/", MajorStart, r.(major := 0, minor := 0));
    GoesThen(Uri, r, " H" + "TT", VersionP, r, "P" + "/", MajorStart, r.(major := 0, minor := 0));
    assert " H" + "TT" + ("P" + "/") == " HTTP/";
  }

  /** From the slash on. */
  lemma GoesNumbers(r: Request, major: string, minor: string)
    requires IsNumber(major) && IsNumber(minor) && r.major == 0 && r.minor == 0
    ensures Goes(MajorStart, r, major + ("." + (minor + "\r\n")), LineStart,
                 r.(major := NumberOf(major), minor := NumberOf(minor)))
  {
    var r1 := r.(major := NumberOf(major));
    var r2 := r1.(minor := NumberOf(minor));
    GoesTwo(Minor, r2, '\r', '\n', Newline1, LineStart);
    GoesMinor(r1, minor);
    GoesThen(MinorStart, r1, minor, Minor, r2, "\r\n", LineStart, r2);
    GoesByte(Major, r1, '.');
    GoesThen(Major, r1, ".", MinorStart, r1, minor + "\r\n", LineStart, r2);
    GoesMajor(r, major);
    GoesThen(MajorStart, r, major, Major, r1, "." + (minor + "\r\n"), LineStart, r2);
  }

  lemma GoesVerb(r: Request, verb: string)
    requires IsToken(verb) && r.verb == ""
    ensures Goes(MethodStart, r, verb + " ", Uri, r.(verb := verb))
  {
    var first, r' := verb[..1], r.(verb := verb[..1]);
    GoesByte(MethodStart, r, verb[0]);
    GoesMethod(r', verb[1..]);
    assert first + verb[1..] == verb && first == [verb[0]];
    GoesThen(MethodStart, r, first, Method, r', verb[1..], Method, r.(verb := verb));
    GoesByte(Method, r.(verb := verb), ' ');
    GoesThen(MethodStart, r, verb, Method, r.(verb := verb), " ", Uri, r.(verb := verb));
  }

  /** A request before any byte of it; the version is set by the parser. */
  predicate Untouched(r: Request) {
    r.verb == "" && r.uri == "" && r.headers == []
  }

  /** From the target on. */
  lemma GoesTarget(r: Request, uri: string, major: string, minor: string)
    requires IsUri(uri) && IsNumber(major) && IsNumber(minor) && r.uri == ""
    ensures Goes(Uri, r, uri + (" HTTP/" + (major + ("." + (minor + "\r\n")))), LineStart,
                 r.(uri := uri, major := NumberOf(major), minor := NumberOf(minor)))
  {
    var r' := r.(uri := uri);
    var r'' := r'.(major := 0, minor := 0);
    var tail := major + ("." + (minor + "\r\n"));
    var end := r.(uri := uri, major := NumberOf(major), minor := NumberOf(minor));
    GoesNumbers(r'', major, minor);
    GoesVersion(r');
    GoesThen(Uri, r', " HTTP/", MajorStart, r'', tail, LineStart, end);
    assert "" + uri == uri;
    GoesUri(r, uri);
    GoesThen(Uri, r, uri, Uri, r', " HTTP/" + tail, LineStart, end);
  }

  lemma GoesRequestLine(r: Request, m: Message)
    requires WellFormed(m) && Untouched(r)
    ensures Goes(MethodStart, r, RequestLine(m), LineStart, Reading(m.(lines := [])))
  {
    var r' := r.(verb := m.verb);
    var tail := m.uri + (" HTTP/" + (m.major + ("." + (m.minor + "\r\n"))));
    GoesTarget(r', m.uri, m.major, m.minor);
    GoesVerb(r, m.verb);
    GoesThen(MethodStart, r, m.verb + " ", Uri, r', tail, LineStart, Reading(m.(lines := [])));
    assert RequestLine(m) == m.verb + " " + tail;
  }

  // ---- Header lines

  lemma {:induction false} GoesName(r: Request, hs: seq<Header>, start: string, cs: string)
    requires (forall c <- cs :: IsTokenChar(c)) && r.headers == hs + [Header(start, "")]
    ensures Goes(Name, r, cs, Name, r.(headers := hs + [Header(start + cs, "")]))
    decreases |cs|
  {
    if cs == "" {
      assert start + cs == start;
    } else {
      var r' := r.(headers := hs + [Header(start + [cs[0]], "")]);
      assert Renamed(r.headers, cs[0]) == r'.headers;
      GoesName(r', hs, start + [cs[0]], cs[1..]);
      assert start + cs == start + [cs[0]] + cs[1..];
      assert IsTokenChar(cs[0]) && cs[0] != ':';
      GoesFirst(Name, r, cs, Name, r.(headers := hs + [Header(start + cs, "")]));
    }
  }

  lemma {:induction false} GoesValue(r: Request, cs: string)
    requires IsText(cs) && r.headers != []
    ensures Goes(Value, r, cs, Value, r.(headers := Lengthened(r.headers, cs)))
    decreases |cs|
  {
    if cs == "" {
      LengthenedByNothing(r.headers);
    } else {
      var r' := r.(headers := Lengthened(r.headers, [cs[0]]));
      GoesValue(r', cs[1..]);
      LengthenedTwice(r.headers, [cs[0]], cs[1..]);
      assert cs == [cs[0]] + cs[1..];
      assert !IsCtl(cs[0]) && cs[0] != '\r';
      GoesFirst(Value, r, cs, Value, r.(headers := Lengthened(r.headers, cs)));
    }
  }

  lemma LengthenedByNothing(hs: seq<Header>)
    requires hs != []
    ensures Lengthened(hs, "") == hs
  {
    var last := hs[|hs| - 1];
    assert last.value + "" == last.value;
  }

  lemma LengthenedTwice(hs: seq<Header>, a: string, b: string)
    requires hs != []
    ensures Lengthened(Lengthened(hs, a), b) == Lengthened(hs, a + b)
  {
    var last := hs[|hs| - 1];
    assert last.value + a + b == last.value + (a + b);
  }

  lemma {:induction false} GoesBlanks(r: Request, cs: string)
    requires (forall c <- cs :: IsBlank(c)) && r.headers != []
    ensures Goes(Lws, r, cs, Lws, r)
    decreases |cs|
  {
    if cs != "" {
      GoesBlanks(r, cs[1..]);
      assert IsBlank(cs[0]);
      GoesFirst(Lws, r, cs, Lws, r);
    }
  }

  lemma GoesField(r: Request, name: string, value: string)
    requires IsToken(name) && IsText(value)
    ensures Goes(LineStart, r, name + ": " + value, Value, r.(headers := r.headers + [Header(name, value)]))
  {
    var r1 := r.(headers := r.headers + [Header([name[0]], "")]);
    var r2 := r.(headers := r.headers + [Header(name, "")]);
    var r3 := r.(headers := r.headers + [Header(name, value)]);
    assert IsTokenChar(name[0]) && !IsBlank(name[0]) && name[0] != '\r';
    GoesByte(LineStart, r, name[0]);
    GoesName(r1, r.headers, [name[0]], name[1..]);
    assert [name[0]] + name[1..] == name;
    GoesThen(LineStart, r, [name[0]], Name, r1, name[1..], Name, r2);
    GoesTwo(Name, r2, ':', ' ', SpaceBeforeValue, Value);
    GoesThen(LineStart, r, name, Name, r2, ": ", Value, r2);
    GoesValue(r2, value);
    assert "" + value == value;
    assert Lengthened(r2.headers, value) == r3.headers;
    GoesThen(LineStart, r, name + ": ", Value, r2, value, Value, r3);
  }

  lemma GoesFold(r: Request, blanks: string, text: string)
    requires LineOk(Fold(blanks, text)) && r.headers != []
    ensures Goes(LineStart, r, blanks + text, if text == "" then Lws else Value,
                 r.(headers := Lengthened(r.headers, text)))
  {
    assert IsBlank(blanks[0]);
    GoesByte(LineStart, r, blanks[0]);
    GoesBlanks(r, blanks[1..]);
    assert [blanks[0]] + blanks[1..] == blanks;
    GoesThen(LineStart, r, [blanks[0]], Lws, r, blanks[1..], Lws, r);
    if text == "" {
      LengthenedByNothing(r.headers);
      assert blanks + text == blanks;
    } else {
      var r' := r.(headers := Lengthened(r.headers, [text[0]]));
      assert !IsCtl(text[0]);
      GoesByte(Lws, r, text[0]);
      GoesValue(r', text[1..]);
      assert [text[0]] + text[1..] == text;
      LengthenedTwice(r.headers, [text[0]], text[1..]);
      var r'' := r.(headers := Lengthened(r.headers, text));
      GoesThen(Lws, r, [text[0]], Value, r', text[1..], Value, r'');
      GoesThen(LineStart, r, blanks, Lws, r, text, Value, r'');
    }
  }

  lemma {:induction false} FirstGivesHeader(ls: seq<Line>)
    requires ls != [] && ls[0].Field?
    ensures Headers(ls) != []
  {
    if |ls| > 1 {
      FirstGivesHeader(ls[..|ls| - 1]);
    }
  }

  lemma GoesLine(r: Request, ls: seq<Line>, l: Line)
    requires LinesOk(ls + [l]) && r.headers == Headers(ls)
    ensures Goes(LineStart, r, LineBody(l) + "\r\n", LineStart, r.(headers := Headers(ls + [l])))
  {
    assert (ls + [l])[..|ls|] == ls && l in ls + [l];
    var r' := r.(headers := Headers(ls + [l]));
    if l.Fold? {
      assert (ls + [l])[0] == if ls == [] then l else ls[0];
      FirstGivesHeader(ls);
      GoesFold(r, l.blanks, l.text);
    } else {
      GoesField(r, l.name, l.value);
    }
    FirstGivesHeader(ls + [l]);
    var s := if l.Fold? && l.text == "" then Lws else Value;
    GoesLineEnd(s, r');
    GoesThen(LineStart, r, LineBody(l), s, r', "\r\n", LineStart, r');
  }

  lemma GoesLineEnd(s: State, r: Request)
    requires (s == Lws || s == Value) && Fits(s, r)
    ensures Goes(s, r, "\r\n", LineStart, r)
  {
  }

  lemma {:induction false} GoesLines(r: Request, ls: seq<Line>)
    requires LinesOk(ls) && r.headers == []
    ensures Goes(LineStart, r, PrintLines(ls), LineStart, r.(headers := Headers(ls)))
  {
    if ls != [] {
      var before, l := ls[..|ls| - 1], ls[|ls| - 1];
      GoesLines(r, before);
      assert ls == before + [l];
      var r' := r.(headers := Headers(before));
      GoesLine(r', before, l);
      GoesThen(LineStart, r, PrintLines(before), LineStart, r',
               LineBody(l) + "\r\n", LineStart, r.(headers := Headers(ls)));
    }
  }

  /** A printed request, whatever follows it, is accepted at its last byte and reads as printed. */
  lemma PrintedIsAccepted(r: Request, m: Message, rest: string)
    requires WellFormed(m) && Untouched(r)
    ensures Feed(MethodStart, r, Print(m) + rest) == Result(Newline3, Reading(m), Good, |Print(m)|)
  {
    var r1, r2 := Reading(m.(lines := [])), Reading(m);
    GoesRequestLine(r, m);
    GoesLines(r1, m.lines);
    var front := RequestLine(m) + PrintLines(m.lines);
    GoesThen(MethodStart, r, RequestLine(m), LineStart, r1, PrintLines(m.lines), LineStart, r2);
    GoOn(MethodStart, r, front, LineStart, r2, "\r\n" + rest);
    AcceptsBlankLine(r2, rest);
    assert Print(m) + rest == front + ("\r\n" + rest);
  }

  lemma AcceptsBlankLine(r: Request, rest: string)
    ensures Feed(LineStart, r, "\r\n" + rest) == Result(Newline3, r, Good, 2)
  {
  }
}
