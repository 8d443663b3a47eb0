/**
 * pages/api/whatsapp.js: the pages-router webhook. It echoes the message
 * back to the sender, one line per attached media item, cut to the 1600
 * UTF-16 code units a WhatsApp message may hold, and always answers 200 with
 * an empty plain-text body.
 */
module PagesApiWhatsapp {

  import opened Js
  import opened Http
  import Unicode

  /** The parsed form body: field names to values (a repeated field is not modelled). */
  type Body = map<string, string>

  const Limit: nat := 1600

  /** `Body || ""`: an absent or empty message body reads as empty. */
  function MessageText(body: Body): (r: string)
    ensures "Body" in body ==> r == body["Body"]
    ensures "Body" !in body ==> r == ""
  {
    if "Body" in body && body["Body"] != "" then body["Body"] else ""
  }

  /** The first line: a waving hand, the quoted message and the sender. */
  function Header(body: Body): (h: string)
    ensures var quoted, sender := "\U{1F44B} Received: \"" + MessageText(body) + "\" from ", Interpolate(Get(body, "From"));
      && |h| == |quoted| + |sender| + 1 && h[..|quoted|] == quoted
      && h[|quoted|..|quoted| + |sender|] == sender && h[|h| - 1] == '.'
  {
    var quoted, sender := "\U{1F44B} Received: \"" + MessageText(body) + "\" from ", Interpolate(Get(body, "From"));
    Concat3(quoted, sender, ".");
    quoted + sender + "."
  }

  /**
   * The number of media items: `NumMedia && Number(NumMedia) > 0` decides
   * whether there are any; a missing, empty, non-numeric or zero count gives none.
   */
  function MediaCount(body: Body): (n: nat)
    ensures n > 0 ==> "NumMedia" in body && ToNumber(body["NumMedia"]) == Some(n)
    ensures n == 0 <==> "NumMedia" !in body || ToNumber(body["NumMedia"]).None? || ToNumber(body["NumMedia"]) == Some(0)
  {
    if "NumMedia" in body && body["NumMedia"] != [] && ToNumber(body["NumMedia"]).Some? then
      ToNumber(body["NumMedia"]).value
    else 0
  }

  /** The media section's heading, quoting the count as received. */
  function MediaHeading(body: Body): string
    requires "NumMedia" in body
  {
    "\nMedia detected: " + body["NumMedia"] + " file(s).\n"
  }

  /** The line for the item at (zero-based) index `i`, numbered from 1. */
  function MediaLine(body: Body, i: nat): (line: string)
    ensures var tag, url := "Media" + DecimalString(i + 1) + ": ", Interpolate(Get(body, "MediaUrl" + DecimalString(i)));
      && |line| > |tag| + |url| && line[..|tag|] == tag
      && line[|tag|..|tag| + |url|] == url && line[|line| - 1] == '\n'
      && line[|tag| + |url|..] == " (type: " + Interpolate(Get(body, "MediaContentType" + DecimalString(i))) + ")\n"
  {
    var tag, url := "Media" + DecimalString(i + 1) + ": ", Interpolate(Get(body, "MediaUrl" + DecimalString(i)));
    var rest := " (type: " + Interpolate(Get(body, "MediaContentType" + DecimalString(i))) + ")\n";
    Concat3(tag, url, rest);
    tag + url + rest
  }

  /** The three parts of a concatenation, read back by position. */
  lemma Concat3<T>(a: seq<T>, b: seq<T>, c: seq<T>)
    ensures |a + b + c| == |a| + |b| + |c|
    ensures (a + b + c)[..|a|] == a && (a + b + c)[|a|..|a| + |b|] == b && (a + b + c)[|a| + |b|..] == c
  {
  }

  /** The texts `line(0)` to `line(n - 1)`, joined in that order. */
  function Joined(line: nat -> string, n: nat): string
    decreases n
  {
    if n == 0 then [] else Joined(line, n - 1) + line(n - 1)
  }

  /** The lines for the items at indices 0 to n - 1, in that order. */
  function MediaLines(body: Body, n: nat): string {
    Joined(LineOf(body), n)
  }

  function LineOf(body: Body): nat -> string {
    (i: nat) => MediaLine(body, i)
  }

  /** The reply: the header, then, when there are media items, the heading and one line per item. */
  function Reply(body: Body): (r: string)
    ensures |r| >= |Header(body)| && r[..|Header(body)|] == Header(body)
    ensures MediaCount(body) == 0 ==> r == Header(body)
  {
    var n := MediaCount(body);
    Header(body) + (if n > 0 then MediaHeading(body) + MediaLines(body, n) else [])
  }

  /** The reply built as the handler builds it, appending one line per loop pass. */
  method BuildReply(body: Body) returns (reply: string)
    ensures reply == Reply(body)
  {
    ReplyParts(body);
    reply := Header(body);
    var n := MediaCount(body);
    if n > 0 {
      reply := AppendMediaLines(body, reply + MediaHeading(body), n);
    }
  }

  /** The handler's loop: the line of each item from 0 to n - 1 appended to `start`, in order. */
  method AppendMediaLines(body: Body, start: string, n: nat) returns (reply: string)
    ensures reply == start + MediaLines(body, n)
  {
    reply := start;
    var i := 0;
    while i < n
      invariant 0 <= i <= n
      invariant reply == start + MediaLines(body, i)
    {
      var line := MediaLine(body, i);
      AppendLine(body, start, i, line);
      reply := reply + line;
      i := i + 1;
    }
    assert start + MediaLines(body, 0) == start;
  }

  lemma ReplyParts(body: Body)
    ensures MediaCount(body) == 0 ==> Reply(body) == Header(body)
    ensures MediaCount(body) > 0 ==>
      Reply(body) == Header(body) + MediaHeading(body) + MediaLines(body, MediaCount(body))
  {
    assert Header(body) + [] == Header(body);
  }

  /** One more item adds its line at the end. */
  lemma MediaLinesStep(body: Body, i: nat)
    ensures MediaLines(body, i + 1) == MediaLines(body, i) + MediaLine(body, i)
  {
  }

  lemma AppendLine(body: Body, start: string, i: nat, line: string)
    requires line == MediaLine(body, i)
    ensures start + MediaLines(body, i) + line == start + MediaLines(body, i + 1)
  {
    MediaLinesStep(body, i);
  }

  /** The reply always begins with the header. */
  lemma ReplyStartsWithHeader(body: Body)
    ensures |Reply(body)| >= |Header(body)| && Reply(body)[..|Header(body)|] == Header(body)
  {
  }

  /** Without a positive numeric count the reply is the header alone. */
  lemma NoMediaNoSection(body: Body)
    requires "NumMedia" !in body || ToNumber(body["NumMedia"]).None? || ToNumber(body["NumMedia"]) == Some(0)
    ensures Reply(body) == Header(body)
  {
    assert Header(body) + [] == Header(body);
  }

  /**
   * Joining keeps order: the texts for the first k indices begin the texts
   * for the first n. With `LineOf(body)`, the media lines for k items begin
   * those for n items.
   */
  lemma {:induction false} JoinedPrefix(line: nat -> string, k: nat, n: nat)
    requires k <= n
    ensures |Joined(line, k)| <= |Joined(line, n)|
    ensures Joined(line, n)[..|Joined(line, k)|] == Joined(line, k)
    decreases n
  {
    if k < n {
      JoinedPrefix(line, k, n - 1);
      var a := Joined(line, n - 1);
      assert Joined(line, n)[..|a|] == a;
    }
  }

  /**
   * The text for index `i` follows directly the texts before it: in
   * `MediaLines(body, n)`, the line for item `i` comes right after the lines
   * for the items before it.
   */
  lemma JoinedAt(line: nat -> string, i: nat, n: nat)
    requires i < n
    ensures var before := Joined(line, i);
      |before| + |line(i)| <= |Joined(line, n)|
      && Joined(line, n)[|before|..|before| + |line(i)|] == line(i)
  {
    JoinedPrefix(line, i + 1, n);
    Middle(Joined(line, n), Joined(line, i), line(i));
  }

  lemma Middle(s: string, before: string, line: string)
    requires |before + line| <= |s| && s[..|before + line|] == before + line
    ensures |before| + |line| <= |s| && s[|before|..|before| + |line|] == line
  {
    assert s[|before|..|before| + |line|] == (before + line)[|before|..];
  }

  /** `reply.length > 1600 ? reply.slice(0, 1600) : reply`, counted in UTF-16 code units. */
  function Truncate(reply: string): (sent: seq<Unicode.CodeUnit>)
    ensures |sent| <= Limit
    ensures |sent| <= |Unicode.Utf16(reply)| && sent == Unicode.Utf16(reply)[..|sent|]
    ensures sent == Unicode.Utf16(reply) <==> |Unicode.Utf16(reply)| <= Limit
    ensures |Unicode.Utf16(reply)| > Limit ==> |sent| == Limit
  {
    var units := Unicode.Utf16(reply);
    if |units| > Limit then units[..Limit] else units
  }

  /** A text of characters from the Basic Multilingual Plane takes one code unit per character. */
  lemma {:induction false} Utf16Basic(s: string)
    requires forall i :: 0 <= i < |s| ==> (s[i] as int) < 0x1_0000
    ensures |Unicode.Utf16(s)| == |s|
    decreases |s|
  {
    if s != [] {
      Utf16Basic(s[1..]);
    }
  }

  /**
   * The cut may split a surrogate pair: 1599 units followed by a character
   * outside the Basic Multilingual Plane leave a lone high surrogate at the end.
   */
  lemma SplitsSurrogatePair(prefix: string, c: char)
    requires |prefix| == Limit - 1 && forall i :: 0 <= i < |prefix| ==> (prefix[i] as int) < 0x1_0000
    requires (c as int) >= 0x1_0000
    ensures var sent := Truncate(prefix + [c]);
      |sent| == Limit && 0xD800 <= sent[Limit - 1] < 0xDC00
  {
    Utf16Basic(prefix);
    Unicode.Utf16Append(prefix, [c]);
    assert Unicode.Utf16([c]) == Unicode.Utf16Char(c) + Unicode.Utf16([]);
  }

  /** What the handler hands to the messaging service: the recipient and the text. */
  datatype Message = Message(to: Option<string>, text: seq<Unicode.CodeUnit>)

  /**
   * The handler: builds the reply, sends its truncation to the sender, and
   * answers 200 with an empty plain-text body whether or not the send
   * (`sendOk`) succeeded.
   */
  method Handle(body: Body, sendOk: bool) returns (response: Response, sent: Message)
    ensures response == EndedPlain(200)
    ensures sent == Message(Get(body, "From"), Truncate(Reply(body)))
    ensures |sent.text| <= Limit
  {
    var reply := BuildReply(body);
    var units := Unicode.Utf16(reply);
    var text := if |units| > Limit then units[..Limit] else units;
    sent := Message(Get(body, "From"), text);
    response := EndedPlain(200);
  }
}
