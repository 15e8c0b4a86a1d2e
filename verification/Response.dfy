/** Response lines: the writer a handler appends to, and the parser a client reads
    with (sections 3.1.2, 3.1.5 and 3.4 of RFC 2167; src/wire/response.rs). */
module Response {
  import opened Text
  import opened Numerals
  import Codec

  const CRLF := Codec.CRLF

  datatype Tag =
    | RwhoisTag | ReferralTag | ClassTag | SeeAlsoTag | LoadTag | SoaTag | StatusTag
    | XferTag | SchemaTag | DirectiveTag | InfoTag | XExtTag | RegisterTag | DisplayTag

  function Token(tag: Tag): string {
    match tag
    case RwhoisTag => "%rwhois"
    case ReferralTag => "%referral"
    case ClassTag => "%class"
    case SeeAlsoTag => "%see-also"
    case LoadTag => "%load"
    case SoaTag => "%soa"
    case StatusTag => "%status"
    case XferTag => "%xfer"
    case SchemaTag => "%schema"
    case DirectiveTag => "%directive"
    case InfoTag => "%info"
    case XExtTag => "%X-"
    case RegisterTag => "%register"
    case DisplayTag => "%display"
  }

  function FromToken(s: string): Option<Tag> {
    if s == "%rwhois" then Some(RwhoisTag)
    else if s == "%referral" then Some(ReferralTag)
    else if s == "%class" then Some(ClassTag)
    else if s == "%see-also" then Some(SeeAlsoTag)
    else if s == "%load" then Some(LoadTag)
    else if s == "%soa" then Some(SoaTag)
    else if s == "%status" then Some(StatusTag)
    else if s == "%xfer" then Some(XferTag)
    else if s == "%schema" then Some(SchemaTag)
    else if s == "%directive" then Some(DirectiveTag)
    else if s == "%info" then Some(InfoTag)
    else if s == "%X-" then Some(XExtTag)
    else if s == "%register" then Some(RegisterTag)
    else if s == "%display" then Some(DisplayTag)
    else None
  }

  datatype TypeChar = TextType | IdType | SeeAlsoType

  function AsChar(ty: TypeChar): char {
    match ty
    case TextType => 'T'
    case IdType => 'I'
    case SeeAlsoType => 'S'
  }

  function FromChar(c: char): Option<TypeChar> {
    if c == 'T' || c == 't' then Some(TextType)
    else if c == 'I' || c == 'i' then Some(IdType)
    else if c == 'S' || c == 's' then Some(SeeAlsoType)
    else None
  }

  /** A type character is read in either case, and no other character is one. */
  lemma {:induction false} TypeInAnyCase(c: char, ty: TypeChar)
    ensures FromChar(c) == Some(ty) <==> IsSameLetter(c, AsChar(ty))
  {
  }

  datatype ReferralUrl = ReferralUrl(host: string, port: nat, authArea: string)

  datatype RecordLine = RecordLine(class_: string, attribute: string, ty: Option<TypeChar>, value: string)

  datatype ResponseLine =
    | Ok
    | Error(code: nat, text: string, extra: Option<string>)
    | InfoMarker(on: bool)
    | Tagged(tag: Tag, body: string)
    | TaggedEnd(tag: Tag)
    | Referral(url: ReferralUrl)
    | Record(record: RecordLine)
    | Blank
    | UnknownTagged(token: string, body: string)
    | FreeForm(line: string)

  // ---- Parsing ------------------------------------------------------------

  function ParseReferral(s: string): Option<ReferralUrl> {
    if StripPrefix("rwhois://", s).None? then None
    else
      var halves := SplitOnce(StripPrefix("rwhois://", s).value, '/');
      if halves.None? then None
      else
        var hostport := SplitLast(halves.value.0, ':');
        if hostport.None? then None
        else
          var port := ParseDecimal(hostport.value.1, MAX_U16);
          var area := StripPrefix("auth-area=", halves.value.1);
          if port.None? || area.None? then None
          else Some(ReferralUrl(hostport.value.0, port.value, area.value))
  }

  function ParseRecord(line: string): Option<RecordLine> {
    if line == "" || line[0] == '%' then None
    else
      var first := SplitOnce(line, ':');
      if first.None? then None
      else
        var second := SplitOnce(first.value.1, ':');
        if second.None? || first.value.0 == "" || second.value.0 == "" then None
        else
          var typed := SplitOnce(second.value.0, ';');
          if typed.None? then Some(RecordLine(first.value.0, second.value.0, None, second.value.1))
          else if |typed.value.1| != 1 || FromChar(typed.value.1[0]).None? then None
          else Some(RecordLine(first.value.0, typed.value.0, FromChar(typed.value.1[0]), second.value.1))
  }

  /** Place of the first ": " at or after `from`; `|s|` when there is none. */
  function FindColon(s: string, from: nat): (i: nat)
    requires from <= |s|
    ensures from <= i <= |s|
    ensures i < |s| ==> i + 2 <= |s| && s[i] == ':' && s[i + 1] == ' '
    decreases |s| - from
  {
    if from == |s| then |s|
    else if from + 1 < |s| && s[from] == ':' && s[from + 1] == ' ' then from
    else FindColon(s, from + 1)
  }

  /** The text of an error, and the detail behind ": ". */
  function ErrorText(code: nat, rest: string): ResponseLine {
    var i := FindColon(rest, 0);
    if i < |rest| then Error(code, rest[..i], Some(rest[i + 2..])) else Error(code, rest, None)
  }

  function ParseError(body: string): ResponseLine {
    var halves := SplitOnce(body, ' ');
    var codeText := if halves.Some? then halves.value.0 else body;
    var number := ParseDecimal(codeText, MAX_U16);
    ErrorText(if number.Some? then number.value else 0, if halves.Some? then halves.value.1 else "")
  }

  predicate IsSpaceChar(c: char) {
    c == ' '
  }

  function ParseTagged(token: string, body: string): ResponseLine {
    if token == "%ok" then Ok
    else if token == "%error" then ParseError(body)
    else if token == "%info" then
      if body == "on" then InfoMarker(true)
      else if body == "off" then InfoMarker(false)
      else Tagged(InfoTag, body)
    else if token == "%referral" then
      if ParseReferral(body).Some? then Referral(ParseReferral(body).value) else Tagged(ReferralTag, body)
    else if FromToken(token).Some? then
      if body == "" then TaggedEnd(FromToken(token).value) else Tagged(FromToken(token).value, body)
    else UnknownTagged(token, body)
  }

  function ParseLine(line: string): ResponseLine {
    if line == "" then Blank
    else if line[0] != '%' then
      if ParseRecord(line).Some? then Record(ParseRecord(line).value) else FreeForm(line)
    else
      var i := Find(line, ' ', 0);
      if i < |line| then ParseTagged(line[..i], TrimStart(line[i + 1..], IsSpaceChar)) else ParseTagged(line, "")
  }

  // ---- Writing ------------------------------------------------------------

  /** One call of the writer. */
  datatype Call =
    | RawLine(line: string)
    | BlankLine
    | TaggedLine(tag: Tag, body: string)
    | EndBlock(tag: Tag)
    | ReferralLine(host: string, port: nat, authArea: string)
    | RecordAttr(class_: string, attr: string, ty: Option<TypeChar>, value: string)
    | InfoOn
    | InfoOff
    | Extension(name: string, body: string)
    | WriteError(code: nat, message: string, extra: Option<string>)
    | WriteOk

  function TaggedText(token: string, body: string): string {
    if body == "" then token else token + ([' '] + body)
  }

  function ReferralText(host: string, port: nat, authArea: string): string {
    "rwhois://" + ((host + ([':'] + Decimal(port))) + (['/'] + ("auth-area=" + authArea)))
  }

  function AttrText(attr: string, ty: Option<TypeChar>): string {
    if ty.Some? then attr + ([';'] + [AsChar(ty.value)]) else attr
  }

  function ErrorBody(code: nat, message: string, extra: Option<string>): string {
    Padded(code) + ([' '] + (message + if extra.Some? && extra.value != "" then ": " + extra.value else ""))
  }

  /** The line a call writes, without its terminator. */
  function LineOf(c: Call): string {
    match c
    case RawLine(line) => line
    case BlankLine => ""
    case TaggedLine(tag, body) => TaggedText(Token(tag), body)
    case EndBlock(tag) => Token(tag)
    case ReferralLine(host, port, area) => TaggedText("%referral", ReferralText(host, port, area))
    case RecordAttr(class_, attr, ty, value) => class_ + ([':'] + (AttrText(attr, ty) + ([':'] + value)))
    case InfoOn => TaggedText("%info", "on")
    case InfoOff => TaggedText("%info", "off")
    case Extension(name, body) => TaggedText("%X-" + name, body)
    case WriteError(code, message, extra) => TaggedText("%error", ErrorBody(code, message, extra))
    case WriteOk => "%ok"
  }

  class ResponseWriter {
    var buf: string

    constructor ()
      ensures buf == ""
    {
      buf := "";
    }

    method PutRaw(line: string)
      modifies this
      ensures buf == old(buf) + (LineOf(RawLine(line)) + CRLF)
    {
      buf := buf + line;
      buf := buf + CRLF;
    }

    method PutBlank()
      modifies this
      ensures buf == old(buf) + (LineOf(BlankLine) + CRLF)
    {
      buf := buf + CRLF;
      assert "" + CRLF == CRLF;
    }

    /** A token, and the body behind a space unless it is empty. */
    method PutTagged(token: string, body: string)
      modifies this
      ensures buf == old(buf) + (TaggedText(token, body) + CRLF)
    {
      buf := buf + token;
      if body != "" {
        buf := buf + " ";
        buf := buf + body;
        assert buf == old(buf) + TaggedText(token, body);
      }
      buf := buf + CRLF;
    }

    method PutReferral(host: string, port: nat, authArea: string)
      modifies this
      ensures buf == old(buf) + (LineOf(ReferralLine(host, port, authArea)) + CRLF)
    {
      PutTagged(Token(ReferralTag), ReferralText(host, port, authArea));
    }

    method PutRecord(class_: string, attr: string, ty: Option<TypeChar>, value: string)
      modifies this
      ensures buf == old(buf) + (LineOf(RecordAttr(class_, attr, ty, value)) + CRLF)
    {
      buf := buf + class_;
      buf := buf + ":";
      ghost var head := buf;
      buf := buf + attr;
      if ty.Some? {
        buf := buf + ";";
        buf := buf + [AsChar(ty.value)];
      }
      assert buf == head + AttrText(attr, ty);
      ghost var middle := AttrText(attr, ty);
      buf := buf + ":";
      buf := buf + value;
      buf := buf + CRLF;
      RecordJoined(old(buf), class_, middle, value);
    }

    method PutError(code: nat, message: string, extra: Option<string>)
      modifies this
      ensures buf == old(buf) + (LineOf(WriteError(code, message, extra)) + CRLF)
    {
      var header := "%error " + (Padded(code) + (" " + message));
      buf := buf + header;
      ghost var detail := if extra.Some? && extra.value != "" then ": " + extra.value else "";
      if extra.Some? && extra.value != "" {
        buf := buf + ": ";
        buf := buf + extra.value;
      }
      assert buf == old(buf) + header + detail;
      buf := buf + CRLF;
      ErrorJoined(old(buf), Padded(code), message, detail);
    }

    method PutOk()
      modifies this
      ensures buf == old(buf) + (LineOf(WriteOk) + CRLF)
    {
      buf := buf + "%ok";
      buf := buf + CRLF;
    }

    /** Any call, by the method that serves it. */
    method Put(c: Call)
      modifies this
      ensures buf == old(buf) + (LineOf(c) + CRLF)
    {
      match c {
        case RawLine(line) => PutRaw(line);
        case BlankLine => PutBlank();
        case TaggedLine(tag, body) => PutTagged(Token(tag), body);
        case EndBlock(tag) => PutTagged(Token(tag), "");
        case ReferralLine(host, port, area) => PutReferral(host, port, area);
        case RecordAttr(class_, attr, ty, value) => PutRecord(class_, attr, ty, value);
        case InfoOn => PutTagged(Token(InfoTag), "on");
        case InfoOff => PutTagged(Token(InfoTag), "off");
        case Extension(name, body) => PutTagged("%X-" + name, body);
        case WriteError(code, message, extra) => PutError(code, message, extra);
        case WriteOk => PutOk();
      }
    }
  }

  /** An error line starts with its token and the code in at least three digits. */
  lemma {:induction false} ErrorLineStarts(code: nat, message: string, extra: Option<string>)
    ensures var line := LineOf(WriteError(code, message, extra));
            && 11 <= |line| && line[..7] == "%error " && AllDigits(line[7..10])
            && (code < 1000 ==> DecimalValue(line[7..10]) == code && line[10] == ' ')
  {
    hide DecimalValue, Padded, ErrorBody;
    var body := ErrorBody(code, message, extra);
    var line := "%error" + ([' '] + body);
    BodyStarts(code, message, extra);
    PaddedValue(code);
    assert line == LineOf(WriteError(code, message, extra));
    assert line[..7] == "%error " && line[7..10] == body[..3] && line[10] == body[3];
  }

  lemma {:induction false} BodyStarts(code: nat, message: string, extra: Option<string>)
    ensures var body, d := ErrorBody(code, message, extra), Padded(code);
            |d| >= 3 && |body| >= 4 && body[..3] == d[..3] && (code < 1000 ==> |d| == 3 && body[3] == ' ')
  {
    hide Padded;
    PaddedLength(code);
  }

  lemma {:induction false} PaddedValue(n: nat)
    ensures AllDigits(Padded(n)) && (|Padded(n)| >= 3 ==> AllDigits(Padded(n)[..3])) && DecimalValue(Padded(n)) == n
    ensures |Padded(n)| == 3 ==> Padded(n)[..3] == Padded(n)
  {
    hide DecimalValue, Decimal;
    assert IsDigit(Padded(n)[0]);
    ParsePaddedIs(n, n);
  }

  lemma {:induction false} PaddedLength(n: nat)
    ensures |Padded(n)| >= 3 && (n < 1000 ==> |Padded(n)| == 3)
  {
    assert n < 10 ==> |Decimal(n)| == 1;
    assert 10 <= n < 100 ==> |Decimal(n)| == 2;
    assert 100 <= n < 1000 ==> |Decimal(n / 10)| == 2;
    if n >= 1000 {
      assert |Decimal(n / 100)| >= 1 && |Decimal(n / 10)| >= 2;
    }
  }

  lemma {:induction false} RecordJoined(s: string, class_: string, middle: string, value: string)
    ensures s + class_ + ":" + middle + ":" + value + CRLF
         == s + ((class_ + ([':'] + (middle + ([':'] + value)))) + CRLF)
  {
    assert ":" == [':'];
    var tail := [':'] + value;
    SumOfSums(middle, [':'], value);
    assert s + class_ + ":" + middle + ":" + value == s + (class_ + ([':'] + (middle + tail)));
  }

  lemma {:induction false} ErrorJoined(s: string, code: string, message: string, detail: string)
    ensures s + ("%error " + (code + (" " + message))) + detail + CRLF
         == s + (TaggedText("%error", code + ([' '] + (message + detail))) + CRLF)
  {
    var text, body := code + (" " + message), code + ([' '] + (message + detail));
    assert " " == [' '] && "%error " == "%error" + [' '];
    SumOfSums(" ", message, detail);
    SumOfSums(code, " " + message, detail);
    SumOfSums("%error ", text, detail);
    SumOfSums("%error", [' '], body);
    SumOfSums(s, "%error " + text, detail);
    SumOfSums(s, "%error " + text + detail, CRLF);
  }
}
