/**
 * The error reply of the handlers (`_handle_api_error_async`): the error
 * kind decides one MarkdownV2 message, the message always carries the
 * single "Restart Search" button, the chat is the first truthy of three
 * candidates, and the reply is an edit of the given message or else one
 * new message.
 */
module ErrorReplies {
  import opened Wrappers
  import opened PyStr
  import opened Escaping
  import opened Constants
  import opened Keyboards

  /**
   * What reached the helper: an HTTP status error with the `detail` of its
   * JSON body (`""` when absent or unreadable), a network error, a
   * `ValueError` with its text, or anything else.
   */
  datatype ApiError = HttpStatus(code: int, detail: string) | Network | BadValue(text: string) | Unexpected

  datatype ErrorKind = HttpKind | NetworkKind | ValueKind | OtherKind

  function KindOf(e: ApiError): ErrorKind
  {
    match e
    case HttpStatus(_, _) => HttpKind
    case Network => NetworkKind
    case BadValue(_) => ValueKind
    case Unexpected => OtherKind
  }

  /** The mark every error message starts with. */
  const Mark := "\U{274C} "

  const HttpLead := "Backend error ("
  const HttpTail := ") contacting service\\."
  const DetailsLead := "\nDetails: "
  const NetworkMessage := "Network error" + " contacting backend service\\. Please check connection or try again later\\."
  const ValueLead := "Data processing error: "
  const ValueTail := "\\. Please restart\\."
  const UnexpectedMessage := "An unexpected" + " internal error occurred\\. Please restart\\."

  /** How many characters of the `detail` and of the `ValueError` text are shown. */
  const DetailLimit := 100
  const ValueTextLimit := 150

  /** `escape_markdown_v2`. */
  function EscapeV2(s: string): string
  {
    EscapeEach(AsSet(V2Specials), s)
  }

  /** The message for an error, before the mark. */
  function Body(e: ApiError): string
  {
    match e
    case HttpStatus(code, detail) =>
      HttpLead + IntToString(code) + HttpTail
      + (if detail != "" then DetailsLead + EscapeV2(Take(detail, DetailLimit)) else "")
    case Network => NetworkMessage
    case BadValue(text) => ValueLead + EscapeV2(Take(text, ValueTextLimit)) + ValueTail
    case Unexpected => UnexpectedMessage
  }

  /** The text the user gets. */
  function ErrorText(e: ApiError): string
  {
    Mark + Body(e)
  }

  // ---------------------------------------------------------------------------
  // Reading a message back
  // ---------------------------------------------------------------------------

  /** The error kind a reader tells from the first word after the mark. */
  function ShownKind(msg: string): Option<ErrorKind>
  {
    if |msg| < 3 || msg[..2] != Mark then None
    else if msg[2] == 'B' then Some(HttpKind)
    else if msg[2] == 'N' then Some(NetworkKind)
    else if msg[2] == 'D' then Some(ValueKind)
    else if msg[2] == 'A' then Some(OtherKind)
    else None
  }

  /** The status code between the parentheses of a backend error message. */
  function ShownStatus(msg: string): Option<int>
  {
    var lead := Mark + HttpLead;
    if !(lead <= msg) then None
    else
      var rest := msg[|lead|..];
      match FindFrom(rest, ")", 0)
      case None => None
      case Some(i) => ParseInt(rest[..i])
  }

  /** The `detail` shown after "Details: ", with the escaping undone. */
  function ShownDetail(msg: string): Option<string>
  {
    match AfterFirst(msg, DetailsLead)
    case None => None
    case Some(escaped) => Some(Unescape(AsSet(V2Specials), escaped))
  }

  /** The `ValueError` text between its lead and its tail, with the escaping undone. */
  function ShownValueText(msg: string): Option<string>
  {
    var lead := Mark + ValueLead;
    if |msg| < |lead| + |ValueTail| || msg[..|lead|] != lead then None
    else Some(Unescape(AsSet(V2Specials), msg[|lead|..|msg| - |ValueTail|]))
  }

  lemma V2SpecialsSpareBackslash()
    ensures '\\' !in AsSet(V2Specials)
  {
  }

  /** The first occurrence of `sep` in `a + b` is where `b` starts when `a` holds no first character of it. */
  lemma {:induction false} FindAtJoin(a: string, b: string, sep: string, from: nat)
    requires |sep| > 0 && sep <= b && from <= |a| && sep[0] !in a[from..]
    ensures FindFrom(a + b, sep, from) == Some(|a|)
    decreases |a| - from
  {
    var s := a + b;
    assert s[|a|..] == b;
    if from < |a| {
      assert s[from..][0] == a[from..][0];
      assert !(sep <= s[from..]);
      assert a[from + 1..] == a[from..][1..];
      FindAtJoin(a, b, sep, from + 1);
    }
  }

  lemma Assoc(a: string, b: string, c: string)
    ensures (a + b) + c == a + (b + c)
  {
  }

  /** Every kind of error is told apart by its message. */
  lemma KindShown(e: ApiError)
    ensures ShownKind(ErrorText(e)) == Some(KindOf(e))
  {
    var msg := ErrorText(e);
    assert msg[..2] == Mark;
    assert msg[2] == Body(e)[0];
    match e
    case HttpStatus(code, detail) =>
      Assoc(HttpLead, IntToString(code), HttpTail);
      assert Body(e)[0] == HttpLead[0];
    case Network =>
      assert Body(e) == NetworkMessage;
      assert NetworkMessage[0] == 'N';
    case BadValue(text) =>
      assert Body(e)[0] == ValueLead[0];
    case Unexpected =>
      assert Body(e) == UnexpectedMessage;
      assert UnexpectedMessage[0] == 'A';
  }

  /** A backend error shows its status code, readable as the same integer. */
  lemma StatusShown(code: int, detail: string)
    ensures ShownStatus(ErrorText(HttpStatus(code, detail))) == Some(code)
  {
    var msg := ErrorText(HttpStatus(code, detail));
    var lead := Mark + HttpLead;
    var digits := IntToString(code);
    var more := if detail != "" then DetailsLead + EscapeV2(Take(detail, DetailLimit)) else "";
    var tail := HttpTail + more;
    Assoc(HttpLead + digits, HttpTail, more);
    Assoc(HttpLead, digits, tail);
    Assoc(Mark, HttpLead, digits + tail);
    assert msg == lead + (digits + tail);
    assert msg[|lead|..] == digits + tail;
    IntToStringHasNoSeparator(code, ')');
    assert digits[0..] == digits;
    FindAtJoin(digits, tail, ")", 0);
    assert (digits + tail)[..|digits|] == digits;
    ParseIntToString(code);
  }

  /** The part of a backend error message before its details. */
  function HttpHead(code: int): string
  {
    Mark + HttpLead + IntToString(code) + HttpTail
  }

  lemma HttpHeadHasNoNewline(code: int)
    ensures '\n' !in HttpHead(code)
  {
    IntToStringHasNoSeparator(code, '\n');
    assert '\n' !in Mark && '\n' !in HttpLead && '\n' !in HttpTail;
  }

  lemma HttpMessageSplits(code: int, detail: string)
    ensures ErrorText(HttpStatus(code, detail)) ==
              HttpHead(code) + (if detail != "" then DetailsLead + EscapeV2(Take(detail, DetailLimit)) else "")
  {
    var more := if detail != "" then DetailsLead + EscapeV2(Take(detail, DetailLimit)) else "";
    Assoc(Mark, HttpLead + IntToString(code) + HttpTail, more);
    Assoc(Mark, HttpLead + IntToString(code), HttpTail);
    Assoc(Mark, HttpLead, IntToString(code));
  }

  /**
   * The `detail` of a backend error comes back, cut to its first hundred
   * characters; a message without details shows none.
   */
  lemma DetailShown(code: int, detail: string)
    ensures ShownDetail(ErrorText(HttpStatus(code, detail))) ==
              if detail == "" then None else Some(Take(detail, DetailLimit))
  {
    var head := HttpHead(code);
    HttpHeadHasNoNewline(code);
    HttpMessageSplits(code, detail);
    if detail == "" {
      assert ErrorText(HttpStatus(code, detail)) == head;
      NoDetailsInHead(head);
      assert ShownDetail(head) == None;
    } else {
      var escaped := EscapeV2(Take(detail, DetailLimit));
      DetailsAfterHead(head, escaped);
      assert ShownDetail(head + (DetailsLead + escaped)) == Some(Unescape(AsSet(V2Specials), escaped));
      V2SpecialsSpareBackslash();
      UnescapeEscape(AsSet(V2Specials), Take(detail, DetailLimit));
    }
  }

  /** A line without a newline holds no `Details:` lead. */
  lemma NoDetailsInHead(head: string)
    requires '\n' !in head
    ensures AfterFirst(head, DetailsLead) == None
  {
    FindFromAbsent(head, DetailsLead, 0);
    assert head[0..] == head;
  }

  /** After a line without a newline, the text behind the `Details:` lead is what follows it. */
  lemma DetailsAfterHead(head: string, escaped: string)
    requires '\n' !in head
    ensures AfterFirst(head + (DetailsLead + escaped), DetailsLead) == Some(escaped)
  {
    var msg := head + (DetailsLead + escaped);
    assert head[0..] == head;
    FindAtJoin(head, DetailsLead + escaped, DetailsLead, 0);
    assert msg[|head| + |DetailsLead|..] == escaped;
  }

  /** A `ValueError` shows its text, cut to its first 150 characters. */
  lemma ValueTextShown(text: string)
    ensures ShownValueText(ErrorText(BadValue(text))) == Some(Take(text, ValueTextLimit))
  {
    var lead := Mark + ValueLead;
    var escaped := EscapeV2(Take(text, ValueTextLimit));
    var msg := ErrorText(BadValue(text));
    Assoc(Mark, ValueLead + escaped, ValueTail);
    Assoc(Mark, ValueLead, escaped);
    assert msg == lead + escaped + ValueTail;
    assert msg[..|lead|] == lead;
    assert msg[|lead|..|msg| - |ValueTail|] == escaped;
    V2SpecialsSpareBackslash();
    UnescapeEscape(AsSet(V2Specials), Take(text, ValueTextLimit));
  }

  // ---------------------------------------------------------------------------
  // Where the reply goes
  // ---------------------------------------------------------------------------

  /** A Python value that is an `int` or `None`, as a condition. */
  predicate Truthy(v: Option<int>)
  {
    v.Some? && v.value != 0
  }

  /**
   * `effective_chat_id`: the `chat_id` argument, else the context's chat
   * id, else the context's user id, each taken only when truthy.
   */
  function EffectiveChatId(chatId: Option<int>, contextChat: Option<int>, contextUser: Option<int>): Option<int>
  {
    if Truthy(chatId) then chatId
    else if Truthy(contextChat) then contextChat
    else if Truthy(contextUser) then contextUser
    else None
  }

  /** The first truthy candidate of a list, the reference reading of a fallback chain. */
  function FirstTruthy(cs: seq<Option<int>>): (r: Option<int>)
    ensures r.Some? ==> r in cs && Truthy(r)
    ensures r.None? <==> forall k :: 0 <= k < |cs| ==> !Truthy(cs[k])
  {
    if cs == [] then None else if Truthy(cs[0]) then cs[0] else FirstTruthy(cs[1..])
  }

  /** The chain picks the first truthy candidate, in the order chat id, context chat, context user. */
  lemma ChatIdChain(chatId: Option<int>, contextChat: Option<int>, contextUser: Option<int>)
    ensures EffectiveChatId(chatId, contextChat, contextUser) == FirstTruthy([chatId, contextChat, contextUser])
  {
    assert [chatId, contextChat, contextUser][1..] == [contextChat, contextUser];
    assert [contextChat, contextUser][1..] == [contextUser];
    assert [contextUser][1..] == [];
    assert FirstTruthy([contextUser]) == if Truthy(contextUser) then contextUser else None;
    assert FirstTruthy([contextChat, contextUser]) ==
             if Truthy(contextChat) then contextChat else FirstTruthy([contextUser]);
  }

  /** What reaches the user: an edited message, a new one, or nothing. */
  datatype Delivery = Edited(chat: int, messageId: int) | Sent(chat: int) | NotDelivered

  /** The reply: its text, always with the restart keyboard. */
  datatype Reply = Reply(text: string, keyboard: Keyboard)

  /**
   * The whole helper. `editOk` and `sendOk` say whether the edit and the
   * send go through; a failed edit falls back to sending a new message, and
   * a failed send escapes the helper.
   */
  function HandleApiError(e: ApiError, messageToEdit: Option<int>, chatId: Option<int>,
                          contextChat: Option<int>, contextUser: Option<int>,
                          editOk: bool, sendOk: bool): (Delivery, Reply)
  {
    var reply := Reply(ErrorText(e), RestartKeyboard());
    var chat := EffectiveChatId(chatId, contextChat, contextUser);
    if Truthy(messageToEdit) && chat.Some? && editOk then (Edited(chat.value, messageToEdit.value), reply)
    else if chat.Some? && sendOk then (Sent(chat.value), reply)
    else (NotDelivered, reply)
  }

  /**
   * The message is the error's text under the single restart button; it is
   * edited in place exactly when there is a message to edit, a chat, and
   * the edit goes through; otherwise it is sent as a new message to the
   * chosen chat when one is known and the send goes through.
   */
  lemma DeliveryCases(e: ApiError, messageToEdit: Option<int>, chatId: Option<int>,
                      contextChat: Option<int>, contextUser: Option<int>, editOk: bool, sendOk: bool)
    ensures var (d, reply) := HandleApiError(e, messageToEdit, chatId, contextChat, contextUser, editOk, sendOk);
      var chat := FirstTruthy([chatId, contextChat, contextUser]);
      && reply.text == ErrorText(e)
      && |reply.keyboard| == 1 && |reply.keyboard[0]| == 1 && reply.keyboard[0][0].data == BackToMain
      && (d.Edited? <==> Truthy(messageToEdit) && chat.Some? && editOk)
      && (d.Edited? ==> d.chat == chat.value && d.messageId == messageToEdit.value)
      && (d.Sent? <==> chat.Some? && sendOk && !(Truthy(messageToEdit) && editOk))
      && (d.Sent? ==> d.chat == chat.value)
      && (d.Edited? || d.Sent? ==> d.chat != 0)
  {
    ChatIdChain(chatId, contextChat, contextUser);
  }
}
