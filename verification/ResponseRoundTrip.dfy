/** What the writer writes, the parser reads back. */
module ResponseRoundTrip {
  import opened Text
  import opened Numerals
  import opened Response

  predicate IsOneLine(s: string) {
    Lacks(s, '\r') && Lacks(s, '\n')
  }

  /** A body that the parser leaves alone. */
  predicate IsBody(body: string) {
    body != "" && body[0] != ' '
  }

  predicate LacksColonSpace(s: string) {
    forall i :: 0 <= i < |s| - 1 ==> !(s[i] == ':' && s[i + 1] == ' ')
  }

  /** The fields respect the delimiters of their line. */
  predicate IsDelimited(c: Call) {
    match c
    case RawLine(line) => line != "" && line[0] != '%' && ParseRecord(line).None?
    case BlankLine => true
    case TaggedLine(tag, body) =>
      && IsBody(body)
      && (tag == InfoTag ==> body != "on" && body != "off")
      && (tag == ReferralTag ==> ParseReferral(body).None?)
    case EndBlock(tag) => tag != InfoTag && tag != ReferralTag
    case ReferralLine(host, port, area) => Lacks(host, '/') && port <= MAX_U16
    case RecordAttr(class_, attr, ty, value) =>
      && class_ != "" && class_[0] != '%' && Lacks(class_, ':')
      && Lacks(attr, ':') && Lacks(attr, ';') && (attr != "" || ty.Some?)
    case InfoOn => true
    case InfoOff => true
    case Extension(name, body) => name != "" && Lacks(name, ' ') && (body == "" || IsBody(body))
    case WriteError(code, message, extra) => code <= MAX_U16 && LacksColonSpace(message)
    case WriteOk => true
  }

  /** What a call means. */
  function Meaning(c: Call): ResponseLine {
    match c
    case RawLine(line) => FreeForm(line)
    case BlankLine => Blank
    case TaggedLine(tag, body) => Tagged(tag, body)
    case EndBlock(tag) => TaggedEnd(tag)
    case ReferralLine(host, port, area) => Referral(ReferralUrl(host, port, area))
    case RecordAttr(class_, attr, ty, value) => Record(RecordLine(class_, attr, ty, value))
    case InfoOn => InfoMarker(true)
    case InfoOff => InfoMarker(false)
    case Extension(name, body) => UnknownTagged("%X-" + name, body)
    case WriteError(code, message, extra) => Error(code, message, if extra == Some("") then None else extra)
    case WriteOk => Ok
  }

  // ---- Tagged lines -------------------------------------------------------

  lemma {:induction false} TokenShape(tag: Tag)
    ensures Token(tag) != "" && Token(tag)[0] == '%' && Lacks(Token(tag), ' ')
    ensures Token(tag) != "%ok" && Token(tag) != "%error"
    ensures (Token(tag) == "%info") == (tag == InfoTag)
    ensures (Token(tag) == "%referral") == (tag == ReferralTag)
  {
    TokenReads(tag);
  }

  lemma {:induction false} TokenReads(tag: Tag)
    ensures FromToken(Token(tag)) == Some(tag)
  {
  }

  lemma {:induction false} TaggedReads(token: string, body: string)
    requires token != "" && token[0] == '%' && Lacks(token, ' ')
    requires body == "" || IsBody(body)
    ensures ParseLine(TaggedText(token, body)) == ParseTagged(token, body)
  {
    if body == "" {
      FindIs(token, ' ', 0, |token|);
    } else {
      var line := token + ([' '] + body);
      FindIs(line, ' ', 0, |token|);
      assert line[0] == '%' && line[..|token|] == token && line[|token| + 1..] == body;
      RunIs(body, IsSpaceChar, 0);
      assert body[0..] == body;
    }
  }

  /** A block end is read as one for every tag but two. */
  lemma {:induction false} EndBlockExactly(tag: Tag)
    ensures ParseLine(LineOf(EndBlock(tag))) == TaggedEnd(tag) <==> tag != InfoTag && tag != ReferralTag
  {
    TokenShape(tag);
    TokenReads(tag);
    TaggedReads(Token(tag), "");
  }

  lemma {:induction false} TaggedLineReads(tag: Tag, body: string)
    requires IsDelimited(TaggedLine(tag, body))
    ensures ParseLine(LineOf(TaggedLine(tag, body))) == Tagged(tag, body)
  {
    TokenShape(tag);
    TokenReads(tag);
    TaggedReads(Token(tag), body);
  }

  lemma {:induction false} ExtensionReads(name: string, body: string)
    requires IsDelimited(Extension(name, body))
    ensures ParseLine(LineOf(Extension(name, body))) == UnknownTagged("%X-" + name, body)
  {
    var token := "%X-" + name;
    assert token[0] == '%' && token[1] == 'X' && forall i :: 3 <= i < |token| ==> token[i] == name[i - 3];
    TaggedReads(token, body);
    assert |token| > 3;
    NotAToken(token);
  }

  lemma {:induction false} NotAToken(token: string)
    requires |token| > 3 && token[1] == 'X'
    ensures FromToken(token).None? && token != "%ok" && token != "%error"
  {
    if FromToken(token).Some? {
      assert false;
    }
  }

  // ---- Referrals ----------------------------------------------------------

  lemma {:induction false} ReferralReads(host: string, port: nat, area: string)
    requires Lacks(host, '/') && port <= MAX_U16
    ensures ParseReferral(ReferralText(host, port, area)) == Some(ReferralUrl(host, port, area))
  {
    var digits := Decimal(port);
    var hostport := host + ([':'] + digits);
    var path := "auth-area=" + area;
    StripPrefixIs("rwhois://", hostport + (['/'] + path));
    assert Lacks(hostport, '/') by {
      forall i | 0 <= i < |hostport|
        ensures hostport[i] != '/'
      {
        if i > |host| {
          assert hostport[i] == digits[i - |host| - 1];
        }
      }
    }
    SplitOnceIs(hostport, '/', path);
    SplitLastIs(host, ':', digits);
    ParseDecimalIs(port, MAX_U16);
    StripPrefixIs("auth-area=", area);
  }

  lemma {:induction false} ReferralStarts(host: string, port: nat, area: string)
    ensures var body := ReferralText(host, port, area); body != "" && body[0] == 'r'
  {
  }

  lemma {:induction false} ReferralLineReads(host: string, port: nat, area: string)
    requires Lacks(host, '/') && port <= MAX_U16
    ensures ParseLine(LineOf(ReferralLine(host, port, area))) == Referral(ReferralUrl(host, port, area))
  {
    hide ReferralText, ParseReferral;
    var body := ReferralText(host, port, area);
    ReferralStarts(host, port, area);
    TokenShape(ReferralTag);
    TaggedReads("%referral", body);
    ReferralReads(host, port, area);
  }

  /** A referral: scheme, host, port and area, the host without a slash and the port a
      16-bit number. */
  predicate IsReferralText(s: string, url: ReferralUrl, digits: string) {
    && Lacks(url.host, '/') && Lacks(digits, '/') && Lacks(digits, ':') && ParseDecimal(digits, 65535) == Some(url.port)
    && s == "rwhois://" + ((url.host + ([':'] + digits)) + (['/'] + ("auth-area=" + url.authArea)))
  }

  lemma {:induction false} SplitLastParts(s: string, c: char)
    ensures var r := SplitLast(s, c); r.Some? ==> s == r.value.0 + ([c] + r.value.1) && Lacks(r.value.1, c)
  {
  }

  lemma {:induction false} LacksParts(a: string, c: char, b: string, d: char)
    ensures Lacks(a + ([c] + b), d) <==> Lacks(a, d) && c != d && Lacks(b, d)
  {
    var s := a + ([c] + b);
    assert forall i :: 0 <= i < |a| ==> s[i] == a[i];
    assert s[|a|] == c;
    assert forall i :: 0 <= i < |b| ==> s[|a| + 1 + i] == b[i];
    assert forall i :: |a| < i < |s| ==> s[i] == b[i - |a| - 1];
  }

  /** The referral parser, exactly. */
  lemma {:induction false} ParsesReferralExactly(s: string, url: ReferralUrl)
    ensures ParseReferral(s) == Some(url) <==> exists digits :: IsReferralText(s, url, digits)
  {
    hide SplitOnce, SplitLast, StripPrefix, ParseDecimal, Lacks;
    if ParseReferral(s) == Some(url) {
      var rest := StripPrefix("rwhois://", s).value;
      var (hostport, path) := SplitOnce(rest, '/').value;
      var (host, digits) := SplitLast(hostport, ':').value;
      SplitOnceParts(rest, '/');
      SplitLastParts(hostport, ':');
      LacksParts(host, ':', digits, '/');
      assert IsReferralText(s, url, digits);
    }
    if digits :| IsReferralText(s, url, digits) {
      var hostport, path := url.host + ([':'] + digits), "auth-area=" + url.authArea;
      LacksParts(url.host, ':', digits, '/');
      StripPrefixIs("rwhois://", hostport + (['/'] + path));
      FirstSlash(hostport, path);
      LastColon(url.host, digits);
      StripPrefixIs("auth-area=", url.authArea);
    }
  }

  lemma {:induction false} FirstSlash(a: string, b: string)
    requires Lacks(a, '/')
    ensures SplitOnce(a + (['/'] + b), '/') == Some((a, b))
  {
    SplitOnceIs(a, '/', b);
  }

  lemma {:induction false} LastColon(a: string, b: string)
    requires Lacks(b, ':')
    ensures SplitLast(a + ([':'] + b), ':') == Some((a, b))
  {
    SplitLastIs(a, ':', b);
  }

  // ---- Records ------------------------------------------------------------

  lemma {:induction false} AttrReads(attr: string, ty: Option<TypeChar>)
    requires Lacks(attr, ';')
    ensures SplitOnce(AttrText(attr, ty), ';') == if ty.Some? then Some((attr, [AsChar(ty.value)])) else None
    ensures ty.Some? ==> FromChar(AsChar(ty.value)) == ty
  {
    if ty.Some? {
      SplitOnceIs(attr, ';', [AsChar(ty.value)]);
    } else {
      SplitOnceNone(attr, ';');
    }
  }

  lemma {:induction false} RecordReads(
      class_: string, middle: string, attr: string, ty: Option<TypeChar>, value: string)
    requires class_ != "" && class_[0] != '%' && Lacks(class_, ':')
    requires middle != "" && Lacks(middle, ':')
    requires SplitOnce(middle, ';') == if ty.Some? then Some((attr, [AsChar(ty.value)])) else None
    requires ty.None? ==> middle == attr
    ensures ParseRecord(class_ + ([':'] + (middle + ([':'] + value)))) == Some(RecordLine(class_, attr, ty, value))
  {
    var rest := middle + ([':'] + value);
    var line := class_ + ([':'] + rest);
    SplitOnceIs(class_, ':', rest);
    SplitOnceIs(middle, ':', value);
    assert line[0] == class_[0];
  }

  lemma {:induction false} RecordLineReads(class_: string, attr: string, ty: Option<TypeChar>, value: string)
    requires IsDelimited(RecordAttr(class_, attr, ty, value))
    ensures var line := class_ + ([':'] + (AttrText(attr, ty) + ([':'] + value)));
            line != "" && line[0] != '%' && ParseRecord(line) == Some(RecordLine(class_, attr, ty, value))
  {
    AttrReads(attr, ty);
    assert Lacks(AttrText(attr, ty), ':') && AttrText(attr, ty) != "";
    RecordReads(class_, AttrText(attr, ty), attr, ty, value);
  }

  /** A record line: class, attribute with an optional type character, value. The class
      and the attribute part are not empty and hold no colon. */
  predicate IsRecordText(line: string, r: RecordLine, middle: string) {
    && r.class_ != "" && r.class_[0] != '%' && Lacks(r.class_, ':') && middle != "" && Lacks(middle, ':')
    && line == r.class_ + ([':'] + (middle + ([':'] + r.value))) && Lacks(r.attribute, ';')
    && match r.ty
       case None => middle == r.attribute
       case Some(ty) =>
         |middle| == |r.attribute| + 2 && middle[..|r.attribute|] == r.attribute
         && middle[|r.attribute|] == ';' && IsSameLetter(middle[|r.attribute| + 1], AsChar(ty))
  }

  lemma {:induction false} SplitOnceParts(s: string, c: char)
    ensures var r := SplitOnce(s, c);
            && (r.Some? ==> s == r.value.0 + ([c] + r.value.1) && Lacks(r.value.0, c))
            && (r.None? ==> Lacks(s, c))
  {
  }

  /** The record parser, exactly. */
  lemma {:induction false} ParsesRecordExactly(line: string, r: RecordLine)
    ensures ParseRecord(line) == Some(r) <==> exists middle :: IsRecordText(line, r, middle)
  {
    hide SplitOnce, Lacks, FromChar, AsChar;
    if ParseRecord(line) == Some(r) {
      var rest := SplitOnce(line, ':').value.1;
      var middle := SplitOnce(rest, ':').value.0;
      SplitOnceParts(line, ':');
      SplitOnceParts(rest, ':');
      SplitOnceParts(middle, ';');
      if r.ty.Some? {
        TypeInAnyCase(SplitOnce(middle, ';').value.1[0], r.ty.value);
      }
      assert line[0] == r.class_[0];
      assert IsRecordText(line, r, middle);
    }
    if middle :| IsRecordText(line, r, middle) {
      MiddleReads(middle, r);
      assert line[0] == r.class_[0];
      RestReads(r.class_, middle, r.value);
    }
  }

  lemma {:induction false} RestReads(class_: string, middle: string, value: string)
    requires Lacks(class_, ':') && Lacks(middle, ':')
    ensures var rest := middle + ([':'] + value);
            && SplitOnce(class_ + ([':'] + rest), ':') == Some((class_, rest))
            && SplitOnce(rest, ':') == Some((middle, value))
  {
    SplitOnceIs(class_, ':', middle + ([':'] + value));
    SplitOnceIs(middle, ':', value);
  }

  lemma {:induction false} MiddleReads(middle: string, r: RecordLine)
    requires Lacks(r.attribute, ';')
    requires match r.ty
             case None => middle == r.attribute
             case Some(ty) =>
               |middle| == |r.attribute| + 2 && middle[..|r.attribute|] == r.attribute
               && middle[|r.attribute|] == ';' && IsSameLetter(middle[|r.attribute| + 1], AsChar(ty))
    ensures var s := SplitOnce(middle, ';');
            if r.ty.None? then s.None?
            else s.Some? && s.value.0 == r.attribute && |s.value.1| == 1 && FromChar(s.value.1[0]) == r.ty
  {
    if r.ty.Some? {
      var c := middle[|r.attribute| + 1];
      assert middle == r.attribute + ([';'] + [c]);
      SplitOnceIs(r.attribute, ';', [c]);
      TypeInAnyCase(c, r.ty.value);
    } else {
      SplitOnceNone(middle, ';');
    }
  }

  // ---- Errors -------------------------------------------------------------

  lemma {:induction false} ColonFound(message: string, extra: string, from: nat)
    requires from <= |message| && LacksColonSpace(message)
    ensures FindColon(message + (": " + extra), from) == |message|
    decreases |message| - from
  {
    var s := message + (": " + extra);
    assert s[|message|] == ':' && s[|message| + 1] == ' ';
    if from < |message| {
      assert s[from] == message[from];
      assert from + 1 < |message| ==> s[from + 1] == message[from + 1];
      ColonFound(message, extra, from + 1);
    }
  }

  lemma {:induction false} NoColonFound(s: string, from: nat)
    requires from <= |s| && LacksColonSpace(s)
    ensures FindColon(s, from) == |s|
    decreases |s| - from
  {
    if from < |s| {
      NoColonFound(s, from + 1);
    }
  }

  lemma {:induction false} TextReads(code: nat, message: string, detail: string, extra: Option<string>)
    requires LacksColonSpace(message) && detail == if extra.Some? then ": " + extra.value else ""
    ensures ErrorText(code, message + detail) == Error(code, message, extra)
  {
    var rest := message + detail;
    if extra.Some? {
      ColonFound(message, extra.value, 0);
      assert rest[..|message|] == message && rest[|message| + 2..] == extra.value;
    } else {
      assert rest == message;
      NoColonFound(message, 0);
    }
  }

  /** An error body, its number given as some text that parses. */
  lemma {:induction false} ErrorParts(digits: string, code: nat, rest: string)
    requires Lacks(digits, ' ') && ParseDecimal(digits, MAX_U16) == Some(code)
    ensures ParseError(digits + ([' '] + rest)) == ErrorText(code, rest)
  {
    SplitOnceIs(digits, ' ', rest);
  }

  lemma {:induction false} DigitsLackBlanks(digits: string)
    requires AllDigits(digits)
    ensures Lacks(digits, ' ')
  {
  }

  lemma {:induction false} ErrorReads(code: nat, message: string, extra: Option<string>)
    requires code <= MAX_U16 && LacksColonSpace(message)
    ensures ParseError(ErrorBody(code, message, extra))
            == Error(code, message, if extra == Some("") then None else extra)
  {
    DigitsLackBlanks(Padded(code));
    ParsePaddedIs(code, MAX_U16);
    var detail := if extra.Some? && extra.value != "" then ": " + extra.value else "";
    ErrorParts(Padded(code), code, message + detail);
    TextReads(code, message, detail, if extra == Some("") then None else extra);
  }

  lemma {:induction false} ErrorIsTagged(body: string)
    requires IsBody(body)
    ensures ParseLine(TaggedText("%error", body)) == ParseError(body)
  {
    assert Lacks("%error", ' ');
    TaggedReads("%error", body);
  }

  lemma {:induction false} ErrorBodyStarts(code: nat, message: string, extra: Option<string>)
    ensures IsBody(ErrorBody(code, message, extra))
  {
    assert ErrorBody(code, message, extra)[0] == Padded(code)[0];
    assert IsDigit(Padded(code)[0]);
  }

  lemma {:induction false} ErrorLineReads(code: nat, message: string, extra: Option<string>)
    requires code <= MAX_U16 && LacksColonSpace(message)
    ensures ParseLine(TaggedText("%error", ErrorBody(code, message, extra)))
            == Error(code, message, if extra == Some("") then None else extra)
  {
    ErrorBodyStarts(code, message, extra);
    ErrorIsTagged(ErrorBody(code, message, extra));
    ErrorReads(code, message, extra);
  }

  // ---- Every call, and every buffer ---------------------------------------

  lemma {:induction false} MarkerReads(body: string)
    requires body == "on" || body == "off"
    ensures ParseLine(TaggedText("%info", body)) == InfoMarker(body == "on")
  {
    TokenShape(InfoTag);
    TaggedReads("%info", body);
  }

  lemma {:induction false} OkReads()
    ensures ParseLine("%ok") == Ok
  {
    TaggedReads("%ok", "");
  }

  /** Every line whose fields respect its delimiters reads back as it was meant. */
  lemma {:induction false} CallReads(c: Call)
    requires IsDelimited(c)
    ensures ParseLine(LineOf(c)) == Meaning(c)
  {
    match c
    case RawLine(line) =>
    case BlankLine =>
    case TaggedLine(tag, body) => TaggedLineReads(tag, body);
    case EndBlock(tag) => EndBlockExactly(tag);
    case ReferralLine(host, port, area) => ReferralLineReads(host, port, area);
    case RecordAttr(class_, attr, ty, value) => RecordLineReads(class_, attr, ty, value);
    case InfoOn => MarkerReads("on");
    case InfoOff => MarkerReads("off");
    case Extension(name, body) => ExtensionReads(name, body);
    case WriteError(code, message, extra) => ErrorLineReads(code, message, extra);
    case WriteOk => OkReads();
  }

  /** What a run of calls leaves in the buffer. */
  function Rendered(calls: seq<Call>): string {
    if calls == [] then "" else LineOf(calls[0]) + (CRLF + Rendered(calls[1..]))
  }

  /** A buffer cut at every CRLF; text behind the last one is no line. */
  function Lines(buf: string): seq<string>
    decreases |buf|
  {
    var k := Find(buf, '\r', 0);
    if k + 1 < |buf| && buf[k + 1] == '\n' then [buf[..k]] + Lines(buf[k + 2..]) else []
  }

  function ParseAll(lines: seq<string>): (r: seq<ResponseLine>)
    ensures |r| == |lines|
  {
    seq(|lines|, i requires 0 <= i < |lines| => ParseLine(lines[i]))
  }

  function Meanings(calls: seq<Call>): (r: seq<ResponseLine>)
    ensures |r| == |calls|
  {
    seq(|calls|, i requires 0 <= i < |calls| => Meaning(calls[i]))
  }

  lemma {:induction false} NoLines()
    ensures Lines("") == []
  {
    FindIs("", '\r', 0, 0);
  }

  lemma {:induction false} OneMoreLine(line: string, rest: string)
    requires IsOneLine(line)
    ensures Lines(line + (CRLF + rest)) == [line] + Lines(rest)
  {
    var buf := line + (CRLF + rest);
    assert buf[|line|] == '\r' && buf[|line| + 1] == '\n';
    FindIs(buf, '\r', 0, |line|);
    assert buf[..|line|] == line && buf[|line| + 2..] == rest;
  }

  lemma {:induction false} LinesOfRendered(calls: seq<Call>)
    requires forall i :: 0 <= i < |calls| ==> IsOneLine(LineOf(calls[i]))
    ensures Lines(Rendered(calls)) == seq(|calls|, i requires 0 <= i < |calls| => LineOf(calls[i]))
    decreases |calls|
  {
    hide LineOf, Lines, IsOneLine;
    if calls == [] {
      NoLines();
    } else {
      LinesOfRendered(calls[1..]);
      OneMoreLine(LineOf(calls[0]), Rendered(calls[1..]));
    }
  }

  /** A whole response reads back, line by line and in order. */
  lemma {:induction false} BufferReads(calls: seq<Call>)
    requires forall i :: 0 <= i < |calls| ==> IsOneLine(LineOf(calls[i])) && IsDelimited(calls[i])
    ensures ParseAll(Lines(Rendered(calls))) == Meanings(calls)
  {
    LinesOfRendered(calls);
    forall i | 0 <= i < |calls|
      ensures ParseLine(LineOf(calls[i])) == Meaning(calls[i])
    {
      CallReads(calls[i]);
    }
  }

  lemma {:induction false} RenderedMore(calls: seq<Call>, c: Call)
    ensures Rendered(calls + [c]) == Rendered(calls) + (LineOf(c) + CRLF)
    decreases |calls|
  {
    if calls == [] {
      assert Rendered([c]) == LineOf(c) + (CRLF + Rendered([]));
      assert CRLF + "" == CRLF;
      assert [] + [c] == [c] && "" + (LineOf(c) + CRLF) == LineOf(c) + CRLF;
    } else {
      RestOfSum(calls, [c]);
      RenderedMore(calls[1..], c);
      SumOfSums(CRLF, Rendered(calls[1..]), LineOf(c) + CRLF);
      SumOfSums(LineOf(calls[0]), CRLF + Rendered(calls[1..]), LineOf(c) + CRLF);
    }
  }

  /** Any run of the writer, and the buffer it leaves. */
  method WriteAll(calls: seq<Call>) returns (buf: string)
    ensures buf == Rendered(calls)
  {
    var w := new ResponseWriter();
    for i := 0 to |calls|
      invariant w.buf == Rendered(calls[..i])
    {
      w.Put(calls[i]);
      RenderedMore(calls[..i], calls[i]);
      assert calls[..i + 1] == calls[..i] + [calls[i]];
    }
    assert calls[..|calls|] == calls;
    buf := w.buf;
  }
}
