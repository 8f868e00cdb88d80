/**
 * Concrete runs that pin down behaviours of the handlers as the program has them,
 * including the ones a reader might not expect.
 *
 * The literal inputs are passed as parameters constrained by `requires x == "..."`
 * rather than written inline: this keeps the verifier from evaluating the recursive
 * string functions on literals, which is far more expensive than reasoning about them.
 */
module Scenarios {
  import opened Wrappers
  import opened Text
  import opened Registry
  import opened Responder
  import opened Protocol
  import opened Handlers

  function JoinRequest(name: string): Request {
    Object(map["username" := Str(name)])
  }

  /** A name made only of rejected characters passes the blank check and is registered as `""`. */
  lemma EmptyNameIsRegistered(name: string)
    requires name == "!!"
    ensures var r := HandleJoin(State([], []), "s1", JoinRequest(name), "t0", "t1");
      && Names(r.state.users) == [""]
      && Lookup(r.state.users, "") == Some("s1")
  {
    assert !IsSpace(name[0]) && !IsSpace(name[1]);
    StripClean(name);
    assert name[1..][1..] == [];
    assert KeepNameChars(name) == "";
    assert JoinName(JoinRequest(name)) == Some(name);
  }

  /** The disconnect scan tests the found name for truthiness, so the empty name outlives its connection. */
  lemma EmptyNameOutlivesDisconnect()
    ensures var st := State([Session("", "s1", "t0")], []);
      HandleDisconnect(st, "s1") == Outcome(st, [])
  {
  }

  /** Disconnect removes only the first name a connection holds; a second one stays registered. */
  lemma DisconnectRemovesFirstOnly(first: Session, second: Session)
    requires first.sid == second.sid && first.name != second.name && first.name != ""
    ensures var r := HandleDisconnect(State([first, second], []), first.sid);
      && r.state.users == [second]
      && r.emitted == [Emission(EveryoneButSender, UserLeft(first.name, [second.name]))]
  {
    var users := [first, second];
    assert FirstWithSid(users, first.sid) == Some(0);
    assert IndexOf(users, first.name) == Some(0);
    assert users[..0] + users[1..] == [second];
    assert Names([second]) == [second.name];
  }

  lemma StripKeepsABangB(name: string)
    requires name == "a!b"
    ensures Strip(name) == name
  {
    assert !IsSpace(name[0]) && !IsSpace(name[2]);
    StripClean(name);
  }

  lemma FilterDropsBang(name: string)
    requires name == "a!b"
    ensures KeepNameChars(name) == "ab"
  {
    assert name[1..] == "!b" && name[1..][1..] == "b";
    assert !IsNameChar('!');
  }

  lemma CleansToAb(name: string)
    requires name == "a!b"
    ensures Strip(name) == name && NormaliseName(name) == "ab"
  {
    StripKeepsABangB(name);
    FilterDropsBang(name);
    var t := Strip(name);
    assert |t| == 3;
    var cut := t[..if |t| < MaxNameLength then |t| else MaxNameLength];
    assert cut == name;
    assert KeepNameChars(cut) == "ab";
  }

  /**
   * The availability check strips but does not clean: `a!b` is reported free while a
   * join with it takes over, and kicks, the session of `ab`.
   */
  lemma CheckIgnoresCleanUp(name: string)
    requires name == "a!b"
    ensures var users := [Session("ab", "s1", "t0")];
      && CheckUsername(users, Some(Str(name))) == Available
      && KickedTargets(HandleJoin(State(users, []), "s2", JoinRequest(name), "t1", "t2").emitted) == ["s1"]
  {
    CleansToAb(name);
    var users := [Session("ab", "s1", "t0")];
    assert Names(users) == ["ab"];
    assert name != "ab";
    assert JoinName(JoinRequest(name)) == Some(name);
  }

  /**
   * Joining as `a!b` from the connection that holds `ab` rebinds `ab` in place: no new
   * key appears, the name stays with that connection, and nobody is kicked.
   */
  lemma RejoinFromSameConnection(name: string)
    requires name == "a!b"
    ensures var r := HandleJoin(State([Session("ab", "s1", "t0")], []), "s1", JoinRequest(name), "t1", "t2");
      && Names(r.state.users) == ["ab"]
      && Lookup(r.state.users, "ab") == Some("s1")
      && KickedTargets(r.emitted) == []
  {
    CleansToAb(name);
    assert Names([Session("ab", "s1", "t0")]) == ["ab"];
    assert JoinName(JoinRequest(name)) == Some(name);
  }

  lemma BareLinkIsStripped(arg: string)
    requires arg == "vid.example/x"
    ensures Strip(arg) == arg
  {
    assert !IsSpace(arg[0]) && !IsSpace(arg[|arg| - 1]);
    StripClean(arg);
  }

  lemma BareLinkHasNoScheme(arg: string)
    requires arg == "vid.example/x"
    ensures !HasScheme(arg)
  {
    assert arg[0] == 'v';
  }

  /** A link without a scheme gets `http://`. */
  lemma MovieLinkGetsScheme(arg: string)
    requires arg == "vid.example/x"
    ensures Classify(MovieTag + " " + arg) == ShareMovie(MovieTag + " " + arg, "http://" + arg)
  {
    MovieCommand(arg);
    BareLinkIsStripped(arg);
    BareLinkHasNoScheme(arg);
  }

  lemma FullLinkIsStripped(arg: string)
    requires arg == "https://v.example"
    ensures Strip(arg) == arg
  {
    assert !IsSpace(arg[0]) && !IsSpace(arg[|arg| - 1]);
    StripClean(arg);
  }

  lemma FullLinkHasScheme(arg: string)
    requires arg == "https://v.example"
    ensures HasScheme(arg)
  {
    assert arg[..8] == "https://";
  }

  /** A link with a scheme is kept as it is. */
  lemma MovieLinkKeepsScheme(arg: string)
    requires arg == "https://v.example"
    ensures Classify(MovieTag + " " + arg) == ShareMovie(MovieTag + " " + arg, arg)
  {
    MovieCommand(arg);
    FullLinkIsStripped(arg);
    FullLinkHasScheme(arg);
  }

  /**
   * The first matching group wins: a question that names the school but also asks who
   * the assistant is gets the introduction.
   */
  lemma IntroductionBeatsSchool(asked: string)
    requires asked == "你是哪个学校的"
    ensures MentionsAny(Strip(asked), SchoolKeywords) && Respond(asked) == Intro
  {
    assert asked[0] == '你' && asked[|asked| - 1] == '的';
    StripClean(asked);
    assert Contains(asked, "你是");
    assert IntroKeywords[1] == "你是";
    assert asked[4..6] == "学校";
    ContainsAt(asked, "学校", 4);
    assert SchoolKeywords[2] == "学校";
  }
}
