/**
 * The LINE webhook handler: it rejects anything but a POST, rejects a
 * request whose signature check fails, and then echoes every text message
 * back to its sender, after cutting the bot's mention out of it.
 */
module Webhook {
  import opened TextUtil

  /** `event.message`: its `type` and, for a text message, its `text`. */
  datatype MessageContent = MessageContent(messageType: string, text: string)

  /** An inbound event; `message` is absent on events that carry none. */
  datatype Event = Event(eventType: string, message: Option<MessageContent>, replyToken: string)

  /** What the handler reads of a request: the HTTP method, the outcome of the
      signature middleware, and `req.body.events` (absent when missing). */
  datatype Request = Request(httpMethod: string, signatureValid: bool, events: Option<seq<Event>>)

  /** One `client.replyMessage(replyToken, message)` call. */
  datatype Reply = Reply(replyToken: string, message: TextMessage)

  /** The HTTP status the handler sets, or `Threw` when it raises while
      reading an event (the platform then answers for it). */
  datatype Outcome = Status(code: int) | Threw

  datatype Response = Response(outcome: Outcome, replies: seq<Reply>)

  /** The replies sent to the events read so far, and whether reading stopped
      on an exception. */
  datatype Processed = Processed(replies: seq<Reply>, threw: bool)

  /** The bot's mention, `@น้องอีฟ`. */
  const Mention := "@น้องอีฟ"

  /** Text that precedes every echoed message. */
  const EchoPrefix := "น้องอีฟได้ยินว่า: "

  /** The characters the `\s` class of a JavaScript regular expression matches. */
  predicate IsJsWhitespace(c: char) {
    var code := c as int;
    (0x09 <= code <= 0x0D) || code == 0x20 || code == 0xA0 || code == 0x1680
    || (0x2000 <= code <= 0x200A) || code == 0x2028 || code == 0x2029
    || code == 0x202F || code == 0x205F || code == 0x3000 || code == 0xFEFF
  }

  /** `t` with its leading run of `\s*` removed (the match is greedy). */
  function TrimStartWhitespace(t: string): (r: string)
    ensures |r| <= |t| && r == t[|t| - |r|..]
    ensures forall i :: 0 <= i < |t| - |r| ==> IsJsWhitespace(t[i])
    ensures r == [] || !IsJsWhitespace(r[0])
  {
    if |t| > 0 && IsJsWhitespace(t[0]) then TrimStartWhitespace(t[1..]) else t
  }

  /** `s.replace(pattern, '')` for the regular expression `p\s*`: the first
      occurrence of `p` and the whitespace right after it are cut out;
      everything else stays. */
  function CutFirst(s: string, p: string): (r: string)
    ensures (forall j :: 0 <= j <= |s| ==> !OccursAt(s, p, j)) ==> r == s
    ensures |r| <= |s|
  {
    match IndexOf(s, p, 0)
    case None => s
    case Some(i) => s[..i] + TrimStartWhitespace(s[i + |p|..])
  }

  /** When `p` first occurs at `i`, the cut keeps what is before `i` and what
      follows the occurrence and its whitespace run. */
  lemma CutFirstAt(s: string, p: string, i: int)
    requires IsFirstOccurrence(s, p, i)
    ensures CutFirst(s, p) == s[..i] + TrimStartWhitespace(s[i + |p|..])
  {
    IndexOfFirst(s, p, i);
  }

  /** `s.replace` with the regular expression `@น้องอีฟ\s*` and an empty replacement. */
  function StripMention(s: string): string {
    CutFirst(s, Mention)
  }

  /** A text message event: the handler answers it. */
  predicate Qualifies(e: Event) {
    e.eventType == "message" && e.message.Some? && e.message.value.messageType == "text"
  }

  /** A message event without a message: reading `event.message.type` throws. */
  predicate Malformed(e: Event) {
    e.eventType == "message" && e.message.None?
  }

  /** The echo reply to a text message event, to that event's own reply token. */
  function ReplyFor(e: Event): Reply
    requires Qualifies(e)
  {
    Reply(e.replyToken, TextMessage(EchoPrefix + StripMention(e.message.value.text)))
  }

  /** The events of `events` that are answered, in their order. */
  function Qualifying(events: seq<Event>): (q: seq<Event>)
    ensures |q| <= |events|
    ensures forall k :: 0 <= k < |q| ==> Qualifies(q[k])
  {
    if |events| == 0 then []
    else if Qualifies(events[0]) then [events[0]] + Qualifying(events[1..])
    else Qualifying(events[1..])
  }

  /** The `for (const event of events)` loop, one event at a time. */
  function Process(events: seq<Event>): Processed {
    if |events| == 0 then Processed([], false)
    else if Malformed(events[0]) then Processed([], true)
    else
      var rest := Process(events[1..]);
      if Qualifies(events[0]) then Processed([ReplyFor(events[0])] + rest.replies, rest.threw)
      else rest
  }

  /** What the handler does with a request. */
  function HandleSpec(req: Request): Response {
    if req.httpMethod != "POST" then Response(Status(405), [])
    else if !req.signatureValid then Response(Status(401), [])
    else
      var events := if req.events.Some? then req.events.value else [];
      var p := Process(events);
      if p.threw then Response(Threw, p.replies) else Response(Status(200), p.replies)
  }

  /** The handler: early returns for the method and the signature, then one
      reply per text message event, in order. */
  method Handle(req: Request) returns (outcome: Outcome, replies: seq<Reply>)
    ensures Response(outcome, replies) == HandleSpec(req)
    ensures req.httpMethod != "POST" ==> outcome == Status(405) && replies == []
    ensures req.httpMethod == "POST" && !req.signatureValid ==> outcome == Status(401) && replies == []
    ensures req.httpMethod == "POST" && req.signatureValid && req.events.None? ==> outcome == Status(200) && replies == []
  {
    if req.httpMethod != "POST" {
      return Status(405), [];
    }
    if !req.signatureValid {
      return Status(401), [];
    }
    var events := if req.events.Some? then req.events.value else [];
    replies := [];
    var i := 0;
    while i < |events|
      invariant 0 <= i <= |events|
      invariant Process(events) == Processed(replies + Process(events[i..]).replies, Process(events[i..]).threw)
    {
      var event := events[i];
      assert events[i..][1..] == events[i + 1..];
      if event.eventType == "message" {
        match event.message
        case None =>
          return Threw, replies;
        case Some(m) =>
          if m.messageType == "text" {
            var userText := StripMention(m.text);
            replies := replies + [Reply(event.replyToken, TextMessage(EchoPrefix + userText))];
          }
      }
      i := i + 1;
    }
    assert events[i..] == [];
    return Status(200), replies;
  }

  /** Processing a batch in two parts: the second part is read only when the
      first did not throw. */
  lemma {:induction false} ProcessAppend(a: seq<Event>, b: seq<Event>)
    ensures Process(a + b) ==
      if Process(a).threw then Process(a)
      else Processed(Process(a).replies + Process(b).replies, Process(b).threw)
  {
    if |a| > 0 {
      assert (a + b)[1..] == a[1..] + b;
      ProcessAppend(a[1..], b);
    } else {
      assert a + b == b;
    }
  }

  /** An event that is not a text message changes nothing for the others. */
  lemma SkippedEventIsInvisible(a: seq<Event>, e: Event, b: seq<Event>)
    requires !Qualifies(e) && !Malformed(e)
    ensures Process(a + [e] + b) == Process(a + b)
  {
    ProcessAppend(a + [e], b);
    ProcessAppend(a, [e]);
    ProcessAppend(a, b);
    assert [e][1..] == [];
    assert a + [e] == a + [e] + [];
  }

  /** A message event without a message stops the batch: later events get no reply. */
  lemma MalformedEventStops(a: seq<Event>, e: Event, b: seq<Event>)
    requires Malformed(e) && !Process(a).threw
    ensures Process(a + [e] + b) == Processed(Process(a).replies, true)
  {
    ProcessAppend(a + [e], b);
    ProcessAppend(a, [e]);
  }

  /** Without malformed events, the replies are exactly one per text message
      event, to its own reply token, in event order. */
  lemma {:induction false} RepliesFollowEvents(events: seq<Event>)
    requires forall i :: 0 <= i < |events| ==> !Malformed(events[i])
    ensures !Process(events).threw
    ensures |Process(events).replies| == |Qualifying(events)|
    ensures forall k :: 0 <= k < |Qualifying(events)| ==> Process(events).replies[k] == ReplyFor(Qualifying(events)[k])
  {
    if |events| > 0 {
      RepliesFollowEvents(events[1..]);
    }
  }

  /** The answered events are exactly the text message events of the batch. */
  lemma {:induction false} QualifyingIsFilter(events: seq<Event>)
    ensures forall e :: e in Qualifying(events) <==> e in events && Qualifies(e)
  {
    if |events| > 0 {
      QualifyingIsFilter(events[1..]);
      assert events == [events[0]] + events[1..];
    }
  }

  /** An authentic POST whose events are all well formed gets status 200 and
      exactly one echo per text message event, in event order. */
  lemma HandleEchoesTextMessages(req: Request, events: seq<Event>)
    requires req.httpMethod == "POST" && req.signatureValid && req.events == Some(events)
    requires forall i :: 0 <= i < |events| ==> !Malformed(events[i])
    ensures HandleSpec(req).outcome == Status(200)
    ensures |HandleSpec(req).replies| == |Qualifying(events)|
    ensures forall k :: 0 <= k < |Qualifying(events)| ==> HandleSpec(req).replies[k] == ReplyFor(Qualifying(events)[k])
  {
    RepliesFollowEvents(events);
  }

  /** A pattern at the start, with the blanks after it, leaves only the rest. */
  lemma CutLeading(p: string, blanks: string, rest: string)
    requires forall i :: 0 <= i < |blanks| ==> IsJsWhitespace(blanks[i])
    requires rest == [] || !IsJsWhitespace(rest[0])
    ensures CutFirst(p + blanks + rest, p) == rest
  {
    var t := blanks + rest;
    var s := p + t;
    assert s == p + blanks + rest;
    assert s[0..|p|] == p && s[|p|..] == t && s[..0] == [];
    assert IsFirstOccurrence(s, p, 0);
    CutFirstAt(s, p, 0);
    TrimAfterBlanks(blanks, rest);
  }

  /** A message that opens with the mention is echoed from its first non-blank
      character after it. */
  lemma StripLeadingMention(blanks: string, rest: string)
    requires forall i :: 0 <= i < |blanks| ==> IsJsWhitespace(blanks[i])
    requires rest == [] || !IsJsWhitespace(rest[0])
    ensures StripMention(Mention + blanks + rest) == rest
  {
    CutLeading(Mention, blanks, rest);
  }

  lemma {:induction false} TrimAfterBlanks(blanks: string, rest: string)
    requires forall i :: 0 <= i < |blanks| ==> IsJsWhitespace(blanks[i])
    requires rest == [] || !IsJsWhitespace(rest[0])
    ensures TrimStartWhitespace(blanks + rest) == rest
  {
    if |blanks| > 0 {
      assert (blanks + rest)[1..] == blanks[1..] + rest;
      TrimAfterBlanks(blanks[1..], rest);
    }
  }

  /** Text without the mention is echoed unchanged. */
  lemma EchoWithoutMention(e: Event)
    requires Qualifies(e)
    requires forall j :: 0 <= j <= |e.message.value.text| ==> !OccursAt(e.message.value.text, Mention, j)
    ensures ReplyFor(e) == Reply(e.replyToken, TextMessage(EchoPrefix + e.message.value.text))
  {
  }
}
