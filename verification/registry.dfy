/**
 * The presence registry `online_users`: display name to session. It is a Python dict,
 * so it is modelled as an ordered list of sessions: a dict keeps its keys in first
 * insertion order, rebinding a present key keeps the key where it is, and both the
 * member list sent to clients and the disconnect scan follow that order.
 */
module Registry {
  import opened Wrappers

  /** A Socket.IO session id. */
  type Sid = string

  datatype Session = Session(name: string, sid: Sid, joinedAt: string)

  type Sessions = seq<Session>

  /** `list(online_users.keys())`. */
  function Names(reg: Sessions): (r: seq<string>)
    ensures |r| == |reg|
    ensures forall i :: 0 <= i < |reg| ==> r[i] == reg[i].name
  {
    seq(|reg|, i requires 0 <= i < |reg| => reg[i].name)
  }

  /** The dict invariant: no display name is bound twice. */
  predicate OneBindingPerName(reg: Sessions) {
    forall i, j :: 0 <= i < j < |reg| ==> reg[i].name != reg[j].name
  }

  /** Position of the session for `name`. */
  function IndexOf(reg: Sessions, name: string): (r: Option<nat>)
    ensures r.None? <==> name !in Names(reg)
    ensures r.Some? ==> r.value < |reg| && reg[r.value].name == name
    ensures r.Some? ==> forall j :: 0 <= j < r.value ==> reg[j].name != name
  {
    if |reg| == 0 then None
    else if reg[0].name == name then Some(0)
    else match IndexOf(reg[1..], name)
      case None => None
      case Some(i) => Some(i + 1)
  }

  /** `online_users[name]['sid']`, or `None` when `name` is not a key. */
  function Lookup(reg: Sessions, name: string): (r: Option<Sid>)
    ensures r.None? <==> name !in Names(reg)
    ensures r.Some? ==> exists i :: 0 <= i < |reg| && reg[i].name == name && reg[i].sid == r.value
  {
    match IndexOf(reg, name)
    case None => None
    case Some(i) => Some(reg[i].sid)
  }

  /**
   * `online_users[name] = {'sid': sid, 'joined_at': joinedAt}`: a present name is
   * rebound in place, an absent one is added at the end. Every other binding stays.
   */
  function Bind(reg: Sessions, name: string, sid: Sid, joinedAt: string): (r: Sessions)
    ensures OneBindingPerName(reg) ==> OneBindingPerName(r)
    ensures Lookup(r, name) == Some(sid)
    ensures forall other :: other != name ==> Lookup(r, other) == Lookup(reg, other)
    ensures Names(r) == if name in Names(reg) then Names(reg) else Names(reg) + [name]
  {
    var s := Session(name, sid, joinedAt);
    match IndexOf(reg, name)
    case None =>
      var r := reg + [s];
      assert forall other :: other != name ==> IndexOf(r, other) == IndexOf(reg, other) by {
        forall other | other != name ensures IndexOf(r, other) == IndexOf(reg, other) {
          IndexOfAppend(reg, s, other);
        }
      }
      IndexOfAppend(reg, s, name);
      r
    case Some(i) =>
      var r := reg[i := s];
      assert Names(r) == Names(reg);
      assert forall other :: other != name ==> IndexOf(r, other) == IndexOf(reg, other) by {
        forall other | other != name ensures IndexOf(r, other) == IndexOf(reg, other) {
          IndexOfUpdate(reg, i, s, other);
        }
      }
      IndexOfUpdate(reg, i, s, name);
      r
  }

  /** `IndexOf` is pinned down by its contract: the first position holding `name`. */
  lemma IndexOfIs(reg: Sessions, name: string, k: nat)
    requires k < |reg| && reg[k].name == name
    requires forall j :: 0 <= j < k ==> reg[j].name != name
    ensures IndexOf(reg, name) == Some(k)
  {
    assert Names(reg)[k] == name;
  }

  lemma IndexOfAbsent(reg: Sessions, name: string)
    requires forall j :: 0 <= j < |reg| ==> reg[j].name != name
    ensures IndexOf(reg, name) == None
  {
  }

  lemma IndexOfAppend(reg: Sessions, s: Session, name: string)
    ensures IndexOf(reg + [s], name) ==
      if name in Names(reg) then IndexOf(reg, name)
      else if s.name == name then Some(|reg|)
      else None
  {
    var r := reg + [s];
    match IndexOf(reg, name)
    case Some(k) => IndexOfIs(r, name, k);
    case None =>
      assert forall j :: 0 <= j < |reg| ==> reg[j].name != name by {
        forall j | 0 <= j < |reg| ensures reg[j].name != name { assert Names(reg)[j] == reg[j].name; }
      }
      if s.name == name { IndexOfIs(r, name, |reg|); } else { IndexOfAbsent(r, name); }
  }

  lemma IndexOfUpdate(reg: Sessions, i: nat, s: Session, name: string)
    requires i < |reg| && reg[i].name == s.name
    ensures IndexOf(reg[i := s], name) == IndexOf(reg, name)
  {
    var r := reg[i := s];
    match IndexOf(reg, name)
    case Some(k) => IndexOfIs(r, name, k);
    case None =>
      assert forall j :: 0 <= j < |reg| ==> reg[j].name != name by {
        forall j | 0 <= j < |reg| ensures reg[j].name != name { assert Names(reg)[j] == reg[j].name; }
      }
      IndexOfAbsent(r, name);
  }

  /**
   * `del online_users[name]` when `name` is a key: removes that one session and keeps the
   * order of the rest; an absent name leaves the registry as it is.
   */
  function Unbind(reg: Sessions, name: string): (r: Sessions)
    ensures name !in Names(reg) ==> r == reg
    ensures name in Names(reg) ==> |r| == |reg| - 1
    ensures name in Names(reg) ==>
      exists i :: 0 <= i < |reg| && reg[i].name == name && r == reg[..i] + reg[i + 1..]
                  && forall j :: 0 <= j < i ==> reg[j].name != name
    ensures OneBindingPerName(reg) ==> OneBindingPerName(r) && name !in Names(r)
    ensures OneBindingPerName(reg) ==> forall s :: s in r <==> s in reg && s.name != name
    ensures forall other :: other != name ==> Lookup(r, other) == Lookup(reg, other)
  {
    match IndexOf(reg, name)
    case None => reg
    case Some(i) =>
      var r := reg[..i] + reg[i + 1..];
      assert forall other :: other != name ==> Lookup(r, other) == Lookup(reg, other) by {
        forall other | other != name ensures Lookup(r, other) == Lookup(reg, other) {
          LookupRemove(reg, i, other);
        }
      }
      RemoveAtFacts(reg, i, name);
      r
  }

  lemma RemoveAtFacts(reg: Sessions, i: nat, name: string)
    requires i < |reg| && reg[i].name == name
    ensures OneBindingPerName(reg) ==> var r := reg[..i] + reg[i + 1..];
      && OneBindingPerName(r) && name !in Names(r)
      && forall s :: s in r <==> s in reg && s.name != name
  {
    var r := reg[..i] + reg[i + 1..];
    if !OneBindingPerName(reg) { return; }
    forall s | s in reg && s.name != name ensures s in r {
      var j :| 0 <= j < |reg| && reg[j] == s;
      if j < i { assert r[j] == s; } else { assert r[j - 1] == s; }
    }
    forall k | 0 <= k < |r| ensures r[k].name != name {
      if k < i { assert r[k] == reg[k]; } else { assert r[k] == reg[k + 1]; }
    }
  }

  lemma LookupRemove(reg: Sessions, i: nat, name: string)
    requires i < |reg| && reg[i].name != name
    ensures Lookup(reg[..i] + reg[i + 1..], name) == Lookup(reg, name)
  {
    var r := reg[..i] + reg[i + 1..];
    match IndexOf(reg, name)
    case Some(k) =>
      if k < i {
        IndexOfIs(r, name, k);
      } else {
        assert r[k - 1] == reg[k];
        forall j | 0 <= j < k - 1 ensures r[j].name != name {
          if j < i { assert r[j] == reg[j]; } else { assert r[j] == reg[j + 1]; }
        }
        IndexOfIs(r, name, k - 1);
      }
    case None =>
      assert forall j :: 0 <= j < |reg| ==> reg[j].name != name by {
        forall j | 0 <= j < |reg| ensures reg[j].name != name { assert Names(reg)[j] == reg[j].name; }
      }
      IndexOfAbsent(r, name);
  }

  /** The disconnect scan: position of the first session, in registry order, held by `sid`. */
  function FirstWithSid(reg: Sessions, sid: Sid): (r: Option<nat>)
    ensures r.None? <==> forall i :: 0 <= i < |reg| ==> reg[i].sid != sid
    ensures r.Some? ==> r.value < |reg| && reg[r.value].sid == sid
    ensures r.Some? ==> forall j :: 0 <= j < r.value ==> reg[j].sid != sid
  {
    if |reg| == 0 then None
    else if reg[0].sid == sid then Some(0)
    else match FirstWithSid(reg[1..], sid)
      case None => None
      case Some(i) => Some(i + 1)
  }
}
