/**
 * The Socket.IO event handlers of the chat server as pure transitions: each takes the
 * shared state (registry and scrollback) and an inbound payload and returns the new
 * state with the emissions it made, in order. Clock readings are parameters.
 */
module Handlers {
  import opened Wrappers
  import opened Text
  import opened Registry
  import History
  import opened Responder
  import opened Protocol

  /** What every handler keeps: one session per display name, at most 100 stored events. */
  predicate Valid(st: State) {
    OneBindingPerName(st.users) && |st.history| <= History.Capacity
  }

  /** `handle_connect`: acknowledges to the new connection and touches no shared state. */
  function HandleConnect(st: State): (r: Outcome)
    ensures r.state == st
    ensures |r.emitted| == 1 && r.emitted[0].target == Sender && r.emitted[0].out.ConnectAck?
  {
    Outcome(st, [Emission(Sender, ConnectAck(ConnectedText))])
  }

  /** `check_username`'s answer: a JSON `taken` flag, or the 500 response. */
  datatype Availability = Available | Taken | CheckFailed

  /**
   * `check_username`: `username` is the request's value, `None` when it has none. Only
   * `strip()` is applied; the join clean-up is not, so the answer speaks about the raw
   * stripped text.
   */
  function CheckUsername(users: Sessions, username: Option<Value>): (r: Availability)
    ensures r == CheckFailed <==> username.Some? && !username.value.Str?
    ensures username.None? ==> (r == Taken <==> "" in Names(users))
    ensures username.Some? && username.value.Str? ==> (r == Taken <==> Strip(username.value.s) in Names(users))
  {
    match username
    case None => if "" in Names(users) then Taken else Available
    case Some(Str(s)) => if Strip(s) in Names(users) then Taken else Available
    case Some(_) => CheckFailed
  }

  /**
   * The availability check and join agree on names the clean-up leaves alone: for a
   * string whose stripped form is at most 30 allowed characters, `taken` is reported
   * exactly when join would find the cleaned name already registered.
   */
  lemma CheckAgreesWithJoin(users: Sessions, s: string)
    requires |Strip(s)| <= MaxNameLength && AllNameChars(Strip(s))
    ensures CheckUsername(users, Some(Str(s))) == Taken <==> Lookup(users, NormaliseName(s)).Some?
  {
    var t := Strip(s);
    assert t[..|t|] == t;
  }

  /**
   * The raw display name of a join request that passes the blank-name check: a string
   * value whose stripped form is not empty. Falsy and non-string values fail it.
   */
  function JoinName(data: Request): (r: Option<string>)
    ensures r.Some? <==>
      && data.Object? && "username" in data.fields && data.fields["username"].Str?
      && Strip(data.fields["username"].s) != []
    ensures r.Some? ==> r.value == data.fields["username"].s && |r.value| > 0
  {
    if data.Object? && "username" in data.fields && data.fields["username"].Str?
       && !AllSpace(data.fields["username"].s)
    then Some(data.fields["username"].s)
    else None
  }

  /**
   * `handle_join`. A well-formed request binds the cleaned name to the caller's
   * connection (last join wins), tells a different previous holder it was kicked,
   * stores a welcome, replays the scrollback to the caller and announces the join.
   */
  function HandleJoin(st: State, sid: Sid, data: Request, joinedAt: string, stamp: string): (r: Outcome)
    ensures data.NotAnObject? || "username" !in data.fields ==>
      r == Outcome(st, [Emission(Sender, ErrorNotice(BadJoinText))])
    ensures data.Object? && "username" in data.fields && JoinName(data).None? ==>
      r == Outcome(st, [Emission(Sender, ErrorNotice(EmptyNameText))])
    ensures JoinName(data).Some? ==> r == Admit(st, sid, NormaliseName(JoinName(data).value), joinedAt, stamp)
    ensures Valid(st) ==> Valid(r.state)
  {
    if data.NotAnObject? || "username" !in data.fields then
      Outcome(st, [Emission(Sender, ErrorNotice(BadJoinText))])
    else match JoinName(data)
      case None => Outcome(st, [Emission(Sender, ErrorNotice(EmptyNameText))])
      case Some(raw) => Admit(st, sid, NormaliseName(raw), joinedAt, stamp)
  }

  /**
   * The accepted join: a previous holder of the name on another connection is told it was
   * kicked, the name is rebound to the joining connection, the welcome notice is stored, and
   * the joiner gets the history while everyone gets the announcement.
   */
  function Admit(st: State, sid: Sid, name: string, joinedAt: string, stamp: string): (r: Outcome)
    ensures Lookup(r.state.users, name) == Some(sid)
    ensures forall other :: other != name ==> Lookup(r.state.users, other) == Lookup(st.users, other)
    ensures Names(r.state.users) == (if name in Names(st.users) then Names(st.users) else Names(st.users) + [name])
    ensures r.state.history == History.Append(st.history, Welcome(name, stamp))
    ensures |r.emitted| >= 2
    ensures r.emitted[|r.emitted| - 2] == Emission(Sender, HistoryReplay(r.state.history))
    ensures r.emitted[|r.emitted| - 1] == Emission(Everyone, UserJoined(name, Names(r.state.users), Welcome(name, stamp)))
    ensures KickedTargets(r.emitted) ==
              (match Lookup(st.users, name)
               case Some(prev) => if prev != sid then [prev] else []
               case None => [])
    ensures |r.emitted| == |KickedTargets(r.emitted)| + 2
    ensures forall e :: e in r.emitted && e.out.Kicked? ==> e.out == Kicked(KickedText)
    ensures Valid(st) ==> Valid(r.state)
  {
    var kick := match Lookup(st.users, name)
      case Some(prev) => if prev != sid then [Emission(Connection(prev), Kicked(KickedText))] else []
      case None => [];
    var users := Bind(st.users, name, sid, joinedAt);
    var welcome := Welcome(name, stamp);
    var history := History.Append(st.history, welcome);
    var announce := [Emission(Sender, HistoryReplay(history)),
                     Emission(Everyone, UserJoined(name, Names(users), welcome))];
    KickedTargetsAppend(kick, announce);
    Outcome(State(users, history), kick + announce)
  }

  /** A URL has a scheme when it starts with `http://` or `https://`. */
  predicate HasScheme(u: string) {
    StartsWith(u, "http://") || StartsWith(u, "https://")
  }

  /** The movie URL fix-up: a URL without a scheme gets `http://` in front. */
  function WithScheme(u: string): (r: string)
    ensures HasScheme(r)
    ensures |u| <= |r| && r[|r| - |u|..] == u
    ensures HasScheme(u) ==> r == u
    ensures !HasScheme(u) ==> r[..|r| - |u|] == "http://"
  {
    if HasScheme(u) then u else "http://" + u
  }

  /** What a posted message asks for, read from its text. */
  datatype Command =
    | Say(text: string)
    | ShareMovie(text: string, url: string)
    | MovieHelp
    | Ask(text: string, asked: string)
    | AskHelp

  /**
   * The command test of `handle_message`: `@电影` first, then `@川小农`; each needs a
   * space-separated argument, and the argument is whatever follows the first space.
   */
  function Classify(m: string): (c: Command)
    ensures StartsWith(m, MovieTag) ==> (if ' ' in m then c.ShareMovie? else c == MovieHelp)
    ensures !StartsWith(m, MovieTag) && StartsWith(m, AskTag) ==> (if ' ' in m then c.Ask? else c == AskHelp)
    ensures !StartsWith(m, MovieTag) && !StartsWith(m, AskTag) ==> c == Say(m)
    ensures c.ShareMovie? ==>
              && c.text == m && SplitAtFirstSpace(m).Some?
              && c.url == WithScheme(Strip(SplitAtFirstSpace(m).value.1))
    ensures c.Ask? ==>
              && c.text == m && |c.asked| < |m|
              && m[|m| - |c.asked| - 1] == ' ' && ' ' !in m[..|m| - |c.asked| - 1]
              && m[|m| - |c.asked|..] == c.asked
  {
    if StartsWith(m, MovieTag) then
      match SplitAtFirstSpace(m)
      case Some((_, arg)) => ShareMovie(m, WithScheme(Strip(arg)))
      case None => MovieHelp
    else if StartsWith(m, AskTag) then
      match SplitAtFirstSpace(m)
      case Some((head, arg)) =>
        assert m[..|head|] == head;
        Ask(m, arg)
      case None => AskHelp
    else Say(m)
  }

  /** `@电影 <arg>` shares the stripped argument as a link, given a scheme if it has none. */
  lemma MovieCommand(arg: string)
    ensures Classify(MovieTag + " " + arg) == ShareMovie(MovieTag + " " + arg, WithScheme(Strip(arg)))
  {
    var m := MovieTag + " " + arg;
    SplitUnique(MovieTag, arg);
    assert m[..|MovieTag|] == MovieTag;
  }

  /** `@川小农 <arg>` asks the assistant `arg`, exactly as typed after the first space. */
  lemma AskCommand(arg: string)
    ensures Classify(AskTag + " " + arg) == Ask(AskTag + " " + arg, arg)
  {
    var m := AskTag + " " + arg;
    SplitUnique(AskTag, arg);
    assert m[..|AskTag|] == AskTag;
    assert m[..|MovieTag|] != MovieTag by {
      assert m[1] != MovieTag[1];
    }
  }

  /**
   * The event a posted message stores and broadcasts under its author's name: a movie
   * share carries its URL, a question carries the raw question, and the two usage
   * replacements are plain text whose message is the usage notice.
   */
  function CommandEvent(user: string, c: Command, stamp: string): (r: Event)
    ensures r.author == Some(user) && r.timestamp == stamp
    ensures r.kind == Movie <==> c.ShareMovie?
    ensures r.kind == AiChat <==> c.Ask?
    ensures r.kind == Movie || r.kind == AiChat || r.kind == Text
    ensures c.Say? ==> r.body == Plain(c.text) && r.extra == NullData
    ensures c.ShareMovie? ==> r.body == Plain(c.text) && r.extra == MovieUrl(c.url)
    ensures c.Ask? ==> r.body == Plain(c.text) && r.extra == AiQuestion(c.asked)
    ensures c == MovieHelp ==> r.body == Plain(MovieUsageText) && r.extra == NullData
    ensures c == AskHelp ==> r.body == Plain(AskUsageText) && r.extra == NullData
  {
    match c
    case Say(t) => Event(Text, Some(user), Plain(t), stamp, NullData)
    case ShareMovie(t, u) => Event(Movie, Some(user), Plain(t), stamp, MovieUrl(u))
    case MovieHelp => Event(Text, Some(user), Plain(MovieUsageText), stamp, NullData)
    case Ask(t, q) => Event(AiChat, Some(user), Plain(t), stamp, AiQuestion(q))
    case AskHelp => Event(Text, Some(user), Plain(AskUsageText), stamp, NullData)
  }

  /**
   * The assistant's answer to `asked`, stored and broadcast under the assistant's name
   * with its own time stamp and no `special_data`. The reply is that of the first keyword
   * group matching the stripped question, or the fallback quoting `asked`.
   */
  function AssistantReply(asked: string, stamp: string): (r: Event)
    ensures r.kind == AiReply && r.author == Some(AssistantName) && r.timestamp == stamp && r.extra == NoField
    ensures r.body.Canned? && r.body.reply == FirstMatch(Rules, 0, Strip(asked)).GetOr(StillLearning(asked))
  {
    RespondIsFirstMatch(asked);
    Event(AiReply, Some(AssistantName), Canned(Respond(asked)), stamp, NoField)
  }

  /**
   * The notice the asker alone receives when the assistant fails: an authorless system
   * event with the message's own time stamp.
   */
  function AssistantDown(stamp: string): (r: Event)
    ensures r.kind == System && r.author.None? && r.extra == NoField
    ensures r.body == Plain(AssistantUnavailableText) && r.timestamp == stamp
  {
    Event(System, None, Plain(AssistantUnavailableText), stamp, NoField)
  }

  /**
   * The message-body check and clean-up: a string that is not all whitespace, stripped
   * and capped at 500 characters plus `...`.
   */
  function AcceptBody(v: Value): (r: Option<string>)
    ensures r.Some? <==> v.Str? && !AllSpace(v.s)
    ensures r.Some? ==> 0 < |r.value| <= MaxMessageLength + |Ellipsis|
    ensures r.Some? ==> r.value == Truncate(Strip(v.s))
  {
    match v
    case Str(s) =>
      if s == [] then None
      else var m := Strip(s); if m == [] then None else Some(Truncate(m))
    case _ => None
  }

  /** A `send_message` payload that has both fields. */
  predicate WellFormedMessage(data: Request) {
    data.Object? && "username" in data.fields && "message" in data.fields
  }

  /** A `send_message` payload whose sender is a registry key. */
  predicate FromMember(st: State, data: Request) {
    WellFormedMessage(data) && data.fields["username"].Str? && data.fields["username"].s in Names(st.users)
  }

  /**
   * Posting a cleaned message `m` from `name`: the classified event is stored and sent
   * to the room. An assistant question with an argument first stores and broadcasts the
   * assistant's reply, or, when the assistant fails, tells the asker alone and stores
   * nothing for it. The contract lists the outcome case by case; what it amounts to for
   * the log is stated by `Trace.AssistantReplyStoredFirst`,
   * `Trace.AssistantFailureStoresQuestionOnly` and `Trace.RunHistoryIsLatest`.
   */
  function Post(st: State, name: string, m: string, stamp: string, replyStamp: string, assistantFails: bool): (r: Outcome)
    ensures r.state.users == st.users
    ensures
      var c := Classify(m);
      var ev := CommandEvent(name, c, stamp);
      && (c.Ask? && !assistantFails ==>
            && r.state.history == History.Append(History.Append(st.history, AssistantReply(c.asked, replyStamp)), ev)
            && r.emitted == [Emission(ChatRoom, NewMessage(AssistantReply(c.asked, replyStamp))),
                             Emission(ChatRoom, NewMessage(ev))])
      && (c.Ask? && assistantFails ==>
            && r.state.history == History.Append(st.history, ev)
            && r.emitted == [Emission(Sender, NewMessage(AssistantDown(stamp))), Emission(ChatRoom, NewMessage(ev))])
      && (!c.Ask? ==>
            && r.state.history == History.Append(st.history, ev)
            && r.emitted == [Emission(ChatRoom, NewMessage(ev))])
    ensures |st.history| <= History.Capacity ==> |r.state.history| <= History.Capacity
  {
    var c := Classify(m);
    var ev := CommandEvent(name, c, stamp);
    if !c.Ask? then
      Outcome(State(st.users, History.Append(st.history, ev)), [Emission(ChatRoom, NewMessage(ev))])
    else if assistantFails then
      Outcome(State(st.users, History.Append(st.history, ev)),
              [Emission(Sender, NewMessage(AssistantDown(stamp))), Emission(ChatRoom, NewMessage(ev))])
    else
      var reply := AssistantReply(c.asked, replyStamp);
      var history := History.Append(History.Append(st.history, reply), ev);
      Outcome(State(st.users, history),
              [Emission(ChatRoom, NewMessage(reply)), Emission(ChatRoom, NewMessage(ev))])
  }

  /**
   * `handle_message`. A sender who is not a registry key gets a private error and
   * nothing else happens; a blank or non-string body is dropped silently; otherwise the
   * stripped, capped text is posted.
   */
  function HandleMessage(st: State, data: Request, stamp: string, replyStamp: string, assistantFails: bool): (r: Outcome)
    ensures !WellFormedMessage(data) ==> r == Outcome(st, [])
    ensures WellFormedMessage(data) && !FromMember(st, data) ==>
      && r.state == st
      && |r.emitted| == 1 && r.emitted[0].target == Sender && r.emitted[0].out.ErrorNotice?
    ensures FromMember(st, data) && AcceptBody(data.fields["message"]).None? ==> r == Outcome(st, [])
    ensures FromMember(st, data) && AcceptBody(data.fields["message"]).Some? ==>
      r == Post(st, data.fields["username"].s, AcceptBody(data.fields["message"]).value, stamp, replyStamp, assistantFails)
    ensures r.state.users == st.users
    ensures Valid(st) ==> Valid(r.state)
  {
    if !WellFormedMessage(data) then Outcome(st, [])
    else match data.fields["username"]
      case Compound => Outcome(st, [Emission(Sender, ErrorNotice(SendFailedText))])
      case Scalar => Outcome(st, [Emission(Sender, ErrorNotice(NotJoinedText))])
      case Str(name) =>
        if name !in Names(st.users) then Outcome(st, [Emission(Sender, ErrorNotice(NotJoinedText))])
        else match AcceptBody(data.fields["message"])
          case None => Outcome(st, [])
          case Some(m) => Post(st, name, m, stamp, replyStamp, assistantFails)
  }

  /** A leave payload naming a present session. */
  predicate LeavesPresentName(st: State, data: Request) {
    && data.Object? && "username" in data.fields && data.fields["username"].Str?
    && data.fields["username"].s in Names(st.users)
  }

  /**
   * `handle_leave`. Any connection may remove any present name; the rest are told.
   * An absent name, a non-string or a malformed payload changes and emits nothing.
   */
  function HandleLeave(st: State, data: Request): (r: Outcome)
    ensures r.state.history == st.history
    ensures !LeavesPresentName(st, data) ==> r == Outcome(st, [])
    ensures LeavesPresentName(st, data) ==>
      var name := data.fields["username"].s;
      && |r.state.users| == |st.users| - 1
      && (exists i :: 0 <= i < |st.users| && st.users[i].name == name && r.state.users == st.users[..i] + st.users[i + 1..])
      && (OneBindingPerName(st.users) ==> Lookup(r.state.users, name).None?)
      && (forall other :: other != name ==> Lookup(r.state.users, other) == Lookup(st.users, other))
      && r.emitted == [Emission(EveryoneButSender, UserLeft(name, Names(r.state.users)))]
    ensures Valid(st) ==> Valid(r.state)
  {
    if LeavesPresentName(st, data) then
      var name := data.fields["username"].s;
      var users := Unbind(st.users, name);
      Outcome(State(users, st.history), [Emission(EveryoneButSender, UserLeft(name, Names(users)))])
    else Outcome(st, [])
  }

  /**
   * `handle_disconnect`. The first session in registry order held by the closing
   * connection is removed and the rest are told. The scan's result is tested for
   * truthiness, so a session registered under the empty name is never removed here.
   */
  function HandleDisconnect(st: State, sid: Sid): (r: Outcome)
    ensures r.state.history == st.history
    ensures (forall i :: 0 <= i < |st.users| ==> st.users[i].sid != sid) ==> r == Outcome(st, [])
    ensures FirstWithSid(st.users, sid).Some? ==>
      var name := st.users[FirstWithSid(st.users, sid).value].name;
      && (name == "" ==> r == Outcome(st, []))
      && (name != "" ==>
            && |r.state.users| == |st.users| - 1
            && (OneBindingPerName(st.users) ==>
                  var i := FirstWithSid(st.users, sid).value; r.state.users == st.users[..i] + st.users[i + 1..])
            && (OneBindingPerName(st.users) ==> Lookup(r.state.users, name).None?)
            && (forall other :: other != name ==> Lookup(r.state.users, other) == Lookup(st.users, other))
            && r.emitted == [Emission(EveryoneButSender, UserLeft(name, Names(r.state.users)))])
    ensures Valid(st) ==> Valid(r.state)
  {
    match FirstWithSid(st.users, sid)
    case None => Outcome(st, [])
    case Some(i) =>
      var name := st.users[i].name;
      if name == "" then Outcome(st, [])
      else
        assert Names(st.users)[i] == name;
        var users := Unbind(st.users, name);
        assert OneBindingPerName(st.users) ==> IndexOf(st.users, name) == Some(i) by {
          if OneBindingPerName(st.users) {
            IndexOfIs(st.users, name, i);
          }
        }
        Outcome(State(users, st.history), [Emission(EveryoneButSender, UserLeft(name, Names(users)))])
  }
}
