/**
 * What the server stores and what it sends: chat events, outbound Socket.IO emissions
 * with their recipients, the JSON-shaped inbound payloads, and the fixed notice texts.
 */
module Protocol {
  import opened Wrappers
  import opened Registry
  import opened Responder

  /** The `type` field of a stored message. */
  datatype Kind = System | Text | Movie | AiChat | AiReply

  /** The `message` field: user or notice text, or one of the assistant's canned replies. */
  datatype Body = Plain(text: string) | Canned(reply: Reply)

  /**
   * The `special_data` field: absent from system and assistant events, `None` on plain
   * user text, and the movie URL or the question on the two commands.
   */
  datatype Extra = NoField | NullData | MovieUrl(url: string) | AiQuestion(question: string)

  /** A stored and broadcast message; `author` is the `username` field, absent on system events. */
  datatype Event = Event(kind: Kind, author: Option<string>, body: Body, timestamp: string, extra: Extra)

  /** Who receives an emission. */
  datatype Target =
    | Sender                 // the connection whose event is being handled
    | Connection(sid: Sid)   // one given connection
    | Everyone               // every connection, `broadcast=True`
    | EveryoneButSender      // `broadcast=True, include_self=False`
    | ChatRoom               // every connection in the room `chat_room`

  /** An outbound Socket.IO event with its payload. */
  datatype Outbound =
    | ConnectAck(message: string)
    | ErrorNotice(message: string)
    | Kicked(message: string)
    | HistoryReplay(messages: seq<Event>)
    | UserJoined(username: string, users: seq<string>, welcome: Event)
    | UserLeft(username: string, users: seq<string>)
    | NewMessage(event: Event)

  datatype Emission = Emission(target: Target, out: Outbound)

  /** A JSON value as far as the handlers look at it: a string, or a hashable or unhashable non-string. */
  datatype Value = Str(s: string) | Scalar | Compound

  /** An inbound event payload: a JSON object, or anything else. */
  datatype Request = NotAnObject | Object(fields: map<string, Value>)

  /** The two pieces of shared state: the presence registry and the scrollback. */
  datatype State = State(users: Sessions, history: seq<Event>)

  /** A handler's effect: the new shared state and what it emitted, in order. */
  datatype Outcome = Outcome(state: State, emitted: seq<Emission>)

  /** The recipients of `kicked` notices among `out`, in order. */
  function KickedTargets(out: seq<Emission>): (r: seq<Sid>)
    ensures |r| <= |out|
  {
    if |out| == 0 then []
    else if out[0].out.Kicked? && out[0].target.Connection? then [out[0].target.sid] + KickedTargets(out[1..])
    else KickedTargets(out[1..])
  }

  lemma {:induction false} KickedTargetsAppend(a: seq<Emission>, b: seq<Emission>)
    ensures KickedTargets(a + b) == KickedTargets(a) + KickedTargets(b)
    decreases |a|
  {
    if |a| == 0 {
      assert a + b == b;
    } else {
      assert (a + b)[1..] == a[1..] + b;
      KickedTargetsAppend(a[1..], b);
    }
  }

  const ConnectedText: string := "连接成功"
  const BadJoinText: string := "无效的加入请求"
  const EmptyNameText: string := "用户名不能为空"
  const KickedText: string := "您的账号在其他地方登录"
  const NotJoinedText: string := "请先加入聊天室"
  const SendFailedText: string := "发送消息失败"
  const AssistantUnavailableText: string := "AI助手暂时无法响应，请稍后再试"
  const MovieUsageText: string := "请提供电影URL，格式：@电影 <url>"
  const AskUsageText: string := "请提供要问川小农的问题，格式：@川小农 <问题>"
  const AssistantName: string := "川小农"
  const MovieTag: string := "@电影"
  const AskTag: string := "@川小农"

  function WelcomeText(name: string): string {
    WelcomePrefix + name + WelcomeSuffix
  }

  const WelcomePrefix: string := "欢迎 "
  const WelcomeSuffix: string := " 加入聊天室！"

  /**
   * The `system` event a join stores and announces: authorless, without `special_data`,
   * and the joined name can be read back from between the fixed parts of its text.
   */
  function Welcome(name: string, stamp: string): (r: Event)
    ensures r.kind == System && r.author.None? && r.extra == NoField && r.timestamp == stamp
    ensures r.body.Plain? && |r.body.text| == |WelcomePrefix| + |name| + |WelcomeSuffix|
    ensures r.body.text[..|WelcomePrefix|] == WelcomePrefix
    ensures r.body.text[|WelcomePrefix|..|WelcomePrefix| + |name|] == name
    ensures r.body.text[|WelcomePrefix| + |name|..] == WelcomeSuffix
  {
    Event(System, None, Plain(WelcomeText(name)), stamp, NoField)
  }
}
