/** MarkdownV2 escaping, and the plain-text retry that must undo it exactly. */
module Markdown {
  import opened Text

  predicate IsSpecial(c: char) {
    c in {'_', '*', '[', ']', '(', ')', '~', '`', '>', '#', '+', '-', '=', '|', '{', '}', '.', '!'}
  }

  function EscapeChar(c: char): string {
    if IsSpecial(c) then ['\\', c] else [c]
  }

  function Escape(s: string): string {
    if s == [] then [] else EscapeChar(s[0]) + Escape(s[1..])
  }

  /** A backslash before a special character is dropped; any other backslash stays. */
  function Unescape(s: string): string {
    if s == [] then []
    else if s[0] == '\\' && |s| > 1 && IsSpecial(s[1]) then [s[1]] + Unescape(s[2..])
    else [s[0]] + Unescape(s[1..])
  }

  lemma EscapeFrom(text: string, i: nat)
    requires i < |text|
    ensures Escape(text[i..]) == EscapeChar(text[i]) + Escape(text[i + 1..])
  {
    assert text[i..][1..] == text[i + 1..];
  }

  method EscapeMarkdownV2(text: string) returns (result: string)
    ensures result == Escape(text)
  {
    result := "";
    for i := 0 to |text|
      invariant result + Escape(text[i..]) == Escape(text)
    {
      var ch := text[i];
      ghost var before := result;
      if IsSpecial(ch) {
        result := result + ['\\'];
      }
      result := result + [ch];
      assert result == before + EscapeChar(ch);
      EscapeFrom(text, i);
      Reassociate(before, EscapeChar(ch), Escape(text[i + 1..]));
    }
  }

  /** How many characters the first character of a text takes with it: an escape is two. */
  function Taken(text: string, i: nat): nat
    requires i < |text|
  {
    if text[i] == '\\' && i + 1 < |text| && IsSpecial(text[i + 1]) then 2 else 1
  }

  lemma UnescapeFrom(text: string, i: nat)
    requires i < |text|
    ensures i + Taken(text, i) <= |text|
    ensures Unescape(text[i..]) == [text[i + Taken(text, i) - 1]] + Unescape(text[i + Taken(text, i)..])
  {
    assert text[i..][1..] == text[i + 1..];
    assert |text| - i > 1 ==> text[i..][2..] == text[i + 2..] && text[i..][1] == text[i + 1];
  }

  method UnescapeMarkdownV2(text: string) returns (result: string)
    ensures result == Unescape(text)
  {
    result := "";
    var i := 0;
    while i < |text|
      invariant 0 <= i <= |text| && result + Unescape(text[i..]) == Unescape(text)
    {
      var ch := text[i];
      UnescapeFrom(text, i);
      ghost var next := i + Taken(text, i);
      Reassociate(result, [text[next - 1]], Unescape(text[next..]));
      i := i + 1;
      if ch == '\\' && i < |text| && IsSpecial(text[i]) {
        result := result + [text[i]];
        i := i + 1;
        continue;
      }
      result := result + [ch];
    }
  }

  lemma EscapeStarts(s: string)
    requires s != []
    ensures Escape(s) != [] && !IsSpecial(Escape(s)[0])
  {
  }

  /** Unescaping an escaped text gives it back, backslashes included. */
  lemma {:induction false} RoundTrip(s: string)
    ensures Unescape(Escape(s)) == s
  {
    if s != [] {
      var e, rest := Escape(s), Escape(s[1..]);
      RoundTrip(s[1..]);
      if IsSpecial(s[0]) {
        assert e[2..] == rest;
      } else {
        assert e[1..] == rest;
        if s[1..] != [] { EscapeStarts(s[1..]); }
      }
    }
  }

  /** The characters that MarkdownV2 reserves. */
  predicate Reserved(c: char) {
    c in "_*[]()~`>#+-=|{}.!"
  }

  lemma ReservedIs(c: char)
    ensures IsSpecial(c) <==> Reserved(c)
  {
  }

  /** In an escaped text every reserved character follows a backslash, and no other character gets one: a text without
      reserved characters stays as it is, and each reserved one adds one character. */
  lemma {:induction false} EscapedExactly(s: string)
    ensures forall i :: 0 <= i < |Escape(s)| && Reserved(Escape(s)[i]) ==> i > 0 && Escape(s)[i - 1] == '\\'
    ensures |Escape(s)| == |s| + ReservedIn(s)
    ensures ReservedIn(s) == 0 ==> Escape(s) == s
  {
    if s != [] {
      var e, rest, head := Escape(s), Escape(s[1..]), EscapeChar(s[0]);
      EscapedExactly(s[1..]);
      ReservedIs(s[0]);
      forall i | 0 <= i < |e| && Reserved(e[i]) ensures i > 0 && e[i - 1] == '\\' {
        if i >= |head| {
          assert e[i] == rest[i - |head|];
        }
      }
    }
  }

  function ReservedIn(s: string): nat {
    if s == [] then 0 else (if Reserved(s[0]) then 1 else 0) + ReservedIn(s[1..])
  }

  // ---------------------------------------------------------------- the request and its retries

  const MARKDOWN_V2 := "MarkdownV2"

  datatype Body = Body(chatId: string, text: string, replyTo: Option<string>, messageThreadId: Option<int>,
                       parseMode: Option<string>)

  /** A blank mode counts as none; other modes are trimmed. */
  function CleanMode(mode: Option<string>): Option<string> {
    if mode.Some? && Trim(mode.value) != [] then Some(Trim(mode.value)) else None
  }

  /** `send_message_body`. */
  function SendBody(chatId: string, text: string, replyTo: Option<string>, mode: Option<string>,
                    messageThreadId: Option<int>): Body {
    var parseMode := CleanMode(mode);
    Body(chatId, if parseMode == Some(MARKDOWN_V2) then Escape(text) else text, replyTo, messageThreadId, parseMode)
  }

  /** A refusal's text may speak of entities, of a missing anchor, of both or of neither. */
  datatype PostResult = Sent(messageId: int) | Refused(entity: bool, anchor: bool)

  function PlainRetry(params: Body): Body {
    params.(parseMode := None, text := Unescape(params.text))
  }

  function UnanchoredRetry(params: Body): Body {
    params.(replyTo := None, messageThreadId := None)
  }

  /** `send_message_body_with_fallback`, where `post` is what the server answers to each request: the bodies posted, in
      order, and the final answer. */
  function SendWithFallback(params: Body, post: Body -> PostResult): (seq<Body>, PostResult) {
    match post(params)
    case Sent(_) => ([params], post(params))
    case Refused(entity, anchor) =>
      if params.parseMode == Some(MARKDOWN_V2) && entity then
        ([params, PlainRetry(params)], post(PlainRetry(params)))
      else if (params.replyTo.Some? || params.messageThreadId.Some?) && anchor then
        ([params, UnanchoredRetry(params)], post(UnanchoredRetry(params)))
      else
        ([params], post(params))
  }

  /** After a MarkdownV2 parse error the second request is, field for field, the one a plain-text send of the original
      chunk would have made. */
  lemma RetryIsPlainSend(chatId: string, text: string, replyTo: Option<string>, mode: Option<string>,
                         messageThreadId: Option<int>,
                         post: Body -> PostResult)
    requires CleanMode(mode) == Some(MARKDOWN_V2)
    requires var first := post(SendBody(chatId, text, replyTo, mode, messageThreadId)); first.Refused? && first.entity
    ensures SendWithFallback(SendBody(chatId, text, replyTo, mode, messageThreadId), post).0 ==
            [SendBody(chatId, text, replyTo, mode, messageThreadId),
                SendBody(chatId, text, replyTo, None, messageThreadId)]
  {
    RoundTrip(text);
  }

  /** At most two requests are made, and every one carries the original text, escaped exactly when it asks for
      MarkdownV2. */
  lemma FallbackKeepsText(chatId: string, text: string, replyTo: Option<string>, mode: Option<string>,
                          messageThreadId: Option<int>,
                          post: Body -> PostResult)
    ensures var bodies := SendWithFallback(SendBody(chatId, text, replyTo, mode, messageThreadId), post).0;
            && 1 <= |bodies| <= 2
            && forall i :: 0 <= i < |bodies| ==>
                 && bodies[i].chatId == chatId
                 && bodies[i].text == if bodies[i].parseMode == Some(MARKDOWN_V2) then Escape(text) else text
  {
    RoundTrip(text);
  }

  /** Which requests are made, and that the answer is that of the last one. */
  lemma FallbackExactly(chatId: string, text: string, replyTo: Option<string>, mode: Option<string>,
                        messageThreadId: Option<int>, post: Body -> PostResult)
    ensures var first := SendBody(chatId, text, replyTo, mode, messageThreadId);
            var (bodies, answer) := SendWithFallback(first, post);
            var marked := mode.Some? && Trim(mode.value) == "MarkdownV2";
            var anchored := replyTo.Some? || messageThreadId.Some?;
            var refusal := post(first);
            && bodies != [] && answer == post(bodies[|bodies| - 1])
            && bodies ==
               if refusal.Sent? then [first]
               else if marked && refusal.entity then [first, SendBody(chatId, text, replyTo, None, messageThreadId)]
               else if anchored && refusal.anchor then [first, SendBody(chatId, text, None, mode, None)]
               else [first]
  {
    RoundTrip(text);
  }

  /** The fields of a request. */
  lemma BodyExactly(chatId: string, text: string, replyTo: Option<string>, mode: Option<string>,
                    messageThreadId: Option<int>)
    ensures var b := SendBody(chatId, text, replyTo, mode, messageThreadId);
            && b.chatId == chatId && b.replyTo == replyTo && b.messageThreadId == messageThreadId
            && (b.parseMode.Some? <==> mode.Some? && !Blank(mode.value))
            && (b.parseMode.Some? ==> b.parseMode.value == Trim(mode.value))
            && Unescape(b.text) == (if b.parseMode == Some("MarkdownV2") then text else Unescape(text))
  {
    RoundTrip(text);
    if mode.Some? { TrimBlank(mode.value); }
  }
}
