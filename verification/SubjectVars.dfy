/** The template variables of an e-mail's message (smtpapi/session.go): the subject pasted between
    quotes, and what a JSON decoder (RFC 8259, section 7) makes of it when the delivery runs. */
module SubjectVars {
  import opened Common
  import opened EmailVars

  /** The stored email_vars text. */
  function VarsText(subject: string): string {
    "{\"subject\": \"" + AfterQuote(subject)
  }

  /** What follows the quote that opens the subject. */
  function AfterQuote(subject: string): string {
    subject + "\"}"
  }

  /** Characters a JSON string holds as themselves. */
  predicate PlainChar(c: char) {
    c >= ' ' && c != '"' && c != '\\'
  }

  predicate Plain(s: string) {
    forall i :: 0 <= i < |s| ==> PlainChar(s[i])
  }

  /** The two-character escapes. */
  function Escape(c: char): Option<char> {
    match c
    case '"' => Some('"')
    case '\\' => Some('\\')
    case '/' => Some('/')
    case 'b' => Some('\U{8}')
    case 'f' => Some('\U{C}')
    case 'n' => Some('\n')
    case 'r' => Some('\r')
    case 't' => Some('\t')
    case _ => None
  }

  /** How \u escapes decode, given the text from the escape on: at most one character each (none for
      the second half of a surrogate pair), or an error. */
  type Unicode = string -> Option<string>

  ghost predicate AtMostOne(u: Unicode) {
    forall s :: u(s).Some? ==> |u(s).value| <= 1
  }

  /** Decode a JSON string from after its opening quote: its value, and what follows the closing quote. */
  function ReadString(text: string, u: Unicode): Option<(string, string)> {
    if text == "" || text[0] < ' ' then None
    else if text[0] == '"' then Some(("", text[1..]))
    else if text[0] != '\\' then Prepend([text[0]], ReadString(text[1..], u))
    else if |text| >= 6 && text[1] == 'u' then
      (if u(text).None? then None else Prepend(u(text).value, ReadString(text[6..], u)))
    else if |text| < 2 || Escape(text[1]).None? then None
    else Prepend([Escape(text[1]).value], ReadString(text[2..], u))
  }

  function Prepend(front: string, read: Option<(string, string)>): Option<(string, string)> {
    if read.None? then None else Some((front + read.value.0, read.value.1))
  }

  /** Escapes only shorten: the value, the closing quote and the rest are together no longer than the
      text, and as long only if the value stands in it as it is. */
  lemma {:induction false} ReadShortens(text: string, u: Unicode)
    requires AtMostOne(u) && ReadString(text, u).Some?
    ensures var (value, rest) := ReadString(text, u).value;
            && |value| + 1 + |rest| <= |text|
            && (|value| + 1 + |rest| == |text| ==> Plain(value) && text == value + "\"" + rest)
    decreases |text|
  {
    if text[0] == '"' {
      assert text == "" + "\"" + text[1..];
    } else if text[0] != '\\' {
      ReadShortens(text[1..], u);
      var (value, rest) := ReadString(text[1..], u).value;
      if |value| + 1 + |rest| == |text[1..]| {
        assert text == [text[0]] + text[1..] == ([text[0]] + value) + "\"" + rest;
      }
    } else if |text| >= 6 && text[1] == 'u' {
      ReadShortens(text[6..], u);
    } else {
      ReadShortens(text[2..], u);
    }
  }

  lemma {:induction false} PlainReads(s: string, rest: string, u: Unicode)
    requires Plain(s)
    ensures ReadString(s + "\"" + rest, u) == Some((s, rest))
  {
    var text := s + "\"" + rest;
    if s == "" {
      assert text[0] == '"' && text[1..] == rest;
    } else {
      PlainReads(s[1..], rest, u);
      assert text[0] == s[0] && text[1..] == s[1..] + "\"" + rest;
      assert PlainChar(s[0]);
      assert ReadString(text, u) == Prepend([s[0]], ReadString(text[1..], u));
      assert [s[0]] + s[1..] == s;
    }
  }

  /** The subject reads back as itself, with just the closing brace left, if and only if it contains no
      quote, no backslash and no control character. */
  lemma SubjectSurvivesIff(subject: string, u: Unicode)
    requires AtMostOne(u)
    ensures ReadString(AfterQuote(subject), u) == Some((subject, "}")) <==> Plain(subject)
  {
    assert AfterQuote(subject) == subject + "\"" + "}";
    if Plain(subject) {
      PlainReads(subject, "}", u);
    }
    if ReadString(AfterQuote(subject), u) == Some((subject, "}")) {
      ReadShortens(AfterQuote(subject), u);
    }
  }

  // ----- The variables a delivery gets -----

  function SkipSpace(s: string): string {
    if s != "" && s[0] in [' ', '\t', '\n', '\r'] then SkipSpace(s[1..]) else s
  }

  /** The decoded object: after its first member it closes, or goes on after a comma (with any result
      here), or is no JSON. */
  function Decoded(subject: string, u: Unicode, more: (string, string) -> Option<Vars>): Option<Vars> {
    match ReadString(AfterQuote(subject), u)
    case None => None
    case Some((value, rest)) =>
      var after := SkipSpace(rest);
      if after == "}" then Some(map["subject" := Leaf(value)])
      else if after != "" && after[0] == ',' then more(value, after) else None
  }

  lemma PlainSubject(subject: string, u: Unicode, more: (string, string) -> Option<Vars>)
    requires AtMostOne(u) && Plain(subject)
    ensures Decoded(subject, u, more) == Some(map["subject" := Leaf(subject)])
  {
    SubjectSurvivesIff(subject, u);
    assert SkipSpace("}") == "}";
  }

  /** A quote ends the value early; unless the text after it happens to go on with a comma or the end
      of the object, nothing decodes, and no e-mail delivery of the message can be sent. */
  lemma QuoteFailsDeliveries(front: string, back: string, u: Unicode, more: (string, string) -> Option<Vars>, m: MailInputs)
    requires Plain(front)
    requires var after := SkipSpace(back + "\"}"); after != "}" && (after == "" || after[0] != ',')
    requires m.userVars == Decoded(front + "\"" + back, u, more)
    ensures m.userVars == None && !Sendable(m)
  {
    PlainReads(front, back + "\"}", u);
    assert AfterQuote(front + "\"" + back) == front + "\"" + (back + "\"}");
  }

  /** The subject: Disk "a" full. */
  lemma QuotedSubjectExample(u: Unicode, more: (string, string) -> Option<Vars>, m: MailInputs)
    requires m.userVars == Decoded("Disk " + "\"" + "a\" full", u, more)
    ensures !Sendable(m)
  {
    assert SkipSpace("a\" full" + "\"}") == "a\" full" + "\"}";
    QuoteFailsDeliveries("Disk ", "a\" full", u, more, m);
  }
}
