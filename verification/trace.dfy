/**
 * The server as a sequential state machine: inbound events are handled one at a
 * time, each as one atomic step. Properties that relate several handler calls.
 */
module Trace {
  import opened Wrappers
  import opened Text
  import opened Registry
  import History
  import opened Protocol
  import opened Handlers

  /** An inbound Socket.IO event with the clock readings and assistant outcome it meets. */
  datatype Inbound =
    | Connect
    | Join(sid: Sid, data: Request, joinedAt: string, stamp: string)
    | SendMessage(data: Request, stamp: string, replyStamp: string, assistantFails: bool)
    | Leave(data: Request)
    | Disconnect(sid: Sid)

  function Step(st: State, ev: Inbound): Outcome {
    match ev
    case Connect => HandleConnect(st)
    case Join(sid, data, joinedAt, stamp) => HandleJoin(st, sid, data, joinedAt, stamp)
    case SendMessage(data, stamp, replyStamp, fails) => HandleMessage(st, data, stamp, replyStamp, fails)
    case Leave(data) => HandleLeave(st, data)
    case Disconnect(sid) => HandleDisconnect(st, sid)
  }

  function Run(st: State, evs: seq<Inbound>): State
    decreases |evs|
  {
    if |evs| == 0 then st else Run(Step(st, evs[0]).state, evs[1..])
  }

  /**
   * Whatever events arrive, in whatever order, no display name is ever bound to two
   * sessions and the scrollback never holds more than 100 events.
   */
  lemma {:induction false} RunKeepsValid(st: State, evs: seq<Inbound>)
    requires Valid(st)
    ensures Valid(Run(st, evs))
    decreases |evs|
  {
    if |evs| > 0 {
      RunKeepsValid(Step(st, evs[0]).state, evs[1..]);
    }
  }

  /** The events one step appends to the scrollback, in order. */
  function Stored(st: State, ev: Inbound): seq<Event> {
    match ev
    case Join(sid, data, joinedAt, stamp) =>
      if JoinName(data).Some? then [Welcome(NormaliseName(JoinName(data).value), stamp)] else []
    case SendMessage(data, stamp, replyStamp, fails) =>
      if FromMember(st, data) && AcceptBody(data.fields["message"]).Some? then
        var name := data.fields["username"].s;
        var c := Classify(AcceptBody(data.fields["message"]).value);
        var posted := CommandEvent(name, c, stamp);
        if c.Ask? && !fails then [AssistantReply(c.asked, replyStamp), posted] else [posted]
      else []
    case _ => []
  }

  /** Every step changes the scrollback only by appending what it stores. */
  lemma StepAppends(st: State, ev: Inbound)
    ensures Step(st, ev).state.history == History.AppendAll(st.history, Stored(st, ev))
  {
    match ev
    case Join(sid, data, joinedAt, stamp) => JoinAppends(st, sid, data, joinedAt, stamp);
    case SendMessage(data, stamp, replyStamp, fails) => MessageAppends(st, data, stamp, replyStamp, fails);
    case _ =>
  }

  lemma JoinAppends(st: State, sid: Sid, data: Request, joinedAt: string, stamp: string)
    ensures var ev := Join(sid, data, joinedAt, stamp);
      Step(st, ev).state.history == History.AppendAll(st.history, Stored(st, ev))
  {
    if JoinName(data).Some? {
      History.AppendAllOne(st.history, Welcome(NormaliseName(JoinName(data).value), stamp));
    }
  }

  lemma MessageAppends(st: State, data: Request, stamp: string, replyStamp: string, fails: bool)
    ensures var ev := SendMessage(data, stamp, replyStamp, fails);
      Step(st, ev).state.history == History.AppendAll(st.history, Stored(st, ev))
  {
    if FromMember(st, data) && AcceptBody(data.fields["message"]).Some? {
      var name := data.fields["username"].s;
      var c := Classify(AcceptBody(data.fields["message"]).value);
      var posted := CommandEvent(name, c, stamp);
      History.AppendAllOne(st.history, posted);
      if c.Ask? {
        History.AppendAllTwo(st.history, AssistantReply(c.asked, replyStamp), posted);
      }
    }
  }

  /** All events a run stores, in the order they are stored. */
  function RunStored(st: State, evs: seq<Inbound>): seq<Event>
    decreases |evs|
  {
    if |evs| == 0 then [] else Stored(st, evs[0]) + RunStored(Step(st, evs[0]).state, evs[1..])
  }

  /**
   * After any run, the scrollback is exactly the latest (at most 100) of the events it
   * held before followed by every event the run stored, in order: nothing is lost out
   * of order, duplicated or evicted from anywhere but the head.
   */
  lemma {:induction false} RunHistoryIsLatest(st: State, evs: seq<Inbound>)
    requires |st.history| <= History.Capacity
    ensures Run(st, evs).history == History.Latest(st.history + RunStored(st, evs), History.Capacity)
    decreases |evs|
  {
    if |evs| == 0 {
      assert st.history + [] == st.history;
    } else {
      var next := Step(st, evs[0]).state;
      var stored := Stored(st, evs[0]);
      StepAppends(st, evs[0]);
      History.AppendAllKeepsLatest(st.history, stored);
      RunHistoryIsLatest(next, evs[1..]);
      History.LatestChain(st.history, stored, next.history, RunStored(next, evs[1..]), History.Capacity);
    }
  }

  /**
   * An assistant question that gets an answer stores the answer before the question:
   * the scrollback gains both, the reply first, authored by the assistant.
   */
  lemma AssistantReplyStoredFirst(st: State, name: string, m: string, stamp: string, replyStamp: string)
    requires |st.history| <= History.Capacity
    requires Classify(m).Ask?
    ensures var h := Post(st, name, m, stamp, replyStamp, false).state.history;
      var reply := AssistantReply(Classify(m).asked, replyStamp);
      && h == History.Latest(st.history + [reply, CommandEvent(name, Classify(m), stamp)], History.Capacity)
      && |h| == (if |st.history| + 2 <= History.Capacity then |st.history| + 2 else History.Capacity)
      && h[|h| - 2] == reply && h[|h| - 2].author == Some(AssistantName) && h[|h| - 2].kind == AiReply
      && h[|h| - 1].kind == AiChat && h[|h| - 1].author == Some(name)
  {
    var reply := AssistantReply(Classify(m).asked, replyStamp);
    var ev := CommandEvent(name, Classify(m), stamp);
    History.AppendAllTwo(st.history, reply, ev);
    History.AppendAllKeepsLatest(st.history, [reply, ev]);
    var all := st.history + [reply, ev];
    assert all[|all| - 2] == reply && all[|all| - 1] == ev;
  }

  /**
   * When the assistant fails, the asker's question is the only event stored. The asker
   * alone is told of the failure, before the question goes to the room.
   */
  lemma AssistantFailureStoresQuestionOnly(st: State, name: string, m: string, stamp: string, replyStamp: string)
    requires |st.history| <= History.Capacity
    requires Classify(m).Ask?
    ensures var r := Post(st, name, m, stamp, replyStamp, true);
      && r.state.history == History.Latest(st.history + [CommandEvent(name, Classify(m), stamp)], History.Capacity)
      && |r.emitted| == 2
      && r.emitted[0] == Emission(Sender, NewMessage(AssistantDown(stamp)))
      && r.emitted[1] == Emission(ChatRoom, NewMessage(CommandEvent(name, Classify(m), stamp)))
  {
    History.AppendAllOne(st.history, CommandEvent(name, Classify(m), stamp));
    History.AppendAllKeepsLatest(st.history, [CommandEvent(name, Classify(m), stamp)]);
  }

  /** A second leave for the same name is a no-op: no change, no emission. */
  lemma LeaveTwice(st: State, data: Request)
    requires OneBindingPerName(st.users)
    ensures var once := HandleLeave(st, data).state;
      HandleLeave(once, data) == Outcome(once, [])
  {
    if LeavesPresentName(st, data) {
      var once := HandleLeave(st, data).state;
      assert Lookup(once.users, data.fields["username"].s).None?;
    }
  }

  /**
   * A leave and the disconnect of the same connection, racing in either order, remove
   * the session exactly once: whichever comes second finds nothing to do.
   */
  lemma LeaveDisconnectRace(st: State, data: Request, sid: Sid)
    requires OneBindingPerName(st.users)
    requires LeavesPresentName(st, data)
    requires Lookup(st.users, data.fields["username"].s) == Some(sid)
    requires forall i :: 0 <= i < |st.users| && st.users[i].sid == sid ==> st.users[i].name == data.fields["username"].s
    ensures var afterLeave := HandleLeave(st, data).state;
      HandleDisconnect(afterLeave, sid) == Outcome(afterLeave, [])
    ensures var afterDrop := HandleDisconnect(st, sid).state;
      data.fields["username"].s != "" ==> HandleLeave(afterDrop, data) == Outcome(afterDrop, [])
  {
    var name := data.fields["username"].s;
    var afterLeave := HandleLeave(st, data).state;
    forall i | 0 <= i < |afterLeave.users| ensures afterLeave.users[i].sid != sid {
      var s := afterLeave.users[i];
      assert s in afterLeave.users;
    }
    var afterDrop := HandleDisconnect(st, sid).state;
    if name != "" {
      var i := FirstWithSid(st.users, sid).value;
      assert st.users[i].name == name;
      assert Lookup(afterDrop.users, name).None?;
    }
  }
}
