/** Which connection of a member counts (control/registry.go for nodes, control/proxies.go for
    proxies): a redial replaces the entry, and the end of a connection removes it only if it is
    still its own. */
module SessionRegistry {
  import opened Transcript

  function Without(agents: map<Id, nat>, member: Id, session: nat): map<Id, nat> {
    if member in agents && agents[member] == session then agents - {member} else agents
  }

  class Registry {
    var agents: map<Id, nat>

    constructor ()
      ensures agents == map[]
    {
      agents := map[];
    }

    method Register(member: Id, session: nat)
      modifies this
      ensures agents == old(agents)[member := session]
    {
      agents := agents[member := session];
    }

    method Unregister(member: Id, session: nat)
      modifies this
      ensures agents == Without(old(agents), member, session)
    {
      if member in agents && agents[member] == session {
        agents := agents - {member};
      }
    }

    method Agent(member: Id) returns (session: Option<nat>)
      ensures session == if member in agents then Some(agents[member]) else None
    {
      if member in agents { return Some(agents[member]); }
      return None;
    }
  }

  /** `dialed[k]` is the member that opened connection `k`. */
  datatype Links = Links(agents: map<Id, nat>, dialed: seq<Id>, closed: set<nat>) {
    function Open(member: Id): Links {
      this.(agents := agents[member := |dialed|], dialed := dialed + [member])
    }

    function Close(session: nat): Links
      requires session < |dialed|
    {
      this.(agents := Without(agents, dialed[session], session), closed := closed + {session})
    }
  }

  datatype Step = Open(member: Id) | Close(session: nat)

  function Newest(dialed: seq<Id>, member: Id): (k: Option<nat>)
    ensures k.Some? ==> k.value < |dialed| && dialed[k.value] == member
  {
    if dialed == [] then None
    else if dialed[|dialed| - 1] == member then Some(|dialed| - 1)
    else Newest(dialed[..|dialed| - 1], member)
  }

  function RunFrom(l: Links, steps: seq<Step>): Links
    decreases |steps|
  {
    if steps == [] then l
    else
      var l' := match steps[0]
                case Open(member) => l.Open(member)
                case Close(session) => if session < |l.dialed| then l.Close(session) else l;
      RunFrom(l', steps[1..])
  }

  /** The member's newest connection, if it is still open. */
  function Live(l: Links, member: Id): Option<nat> {
    var k := Newest(l.dialed, member);
    if k.Some? && k.value !in l.closed then k else None
  }

  ghost predicate HoldsNewest(l: Links) {
    && (forall k :: k in l.closed ==> k < |l.dialed|)
    && forall member :: Live(l, member) == if member in l.agents then Some(l.agents[member]) else None
  }

  lemma OpenHolds(l: Links, member: Id)
    requires HoldsNewest(l)
    ensures HoldsNewest(l.Open(member))
  {
    var t := l.Open(member);
    assert t.dialed[..|t.dialed| - 1] == l.dialed;
    forall m ensures Live(t, m) == if m in t.agents then Some(t.agents[m]) else None {
      assert Live(l, m) == if m in l.agents then Some(l.agents[m]) else None;
    }
  }

  lemma CloseHolds(l: Links, session: nat)
    requires HoldsNewest(l) && session < |l.dialed|
    ensures HoldsNewest(l.Close(session))
  {
    var t := l.Close(session);
    forall m ensures Live(t, m) == if m in t.agents then Some(t.agents[m]) else None {
      assert Live(l, m) == if m in l.agents then Some(l.agents[m]) else None;
    }
  }

  lemma {:induction false} RunHolds(l: Links, steps: seq<Step>)
    requires HoldsNewest(l)
    ensures HoldsNewest(RunFrom(l, steps))
    decreases |steps|
  {
    if steps != [] {
      match steps[0]
      case Open(member) =>
        OpenHolds(l, member);
        RunHolds(l.Open(member), steps[1..]);
      case Close(session) =>
        if session < |l.dialed| {
          CloseHolds(l, session);
          RunHolds(l.Close(session), steps[1..]);
        } else {
          RunHolds(l, steps[1..]);
        }
    }
  }

  /** For every run of dial-ins and disconnects, in any order: the registry holds a member
      exactly while its newest connection lives, and holds that connection. */
  lemma RegistryHoldsNewest(steps: seq<Step>)
    ensures HoldsNewest(RunFrom(Links(map[], [], {}), steps))
  {
    RunHolds(Links(map[], [], {}), steps);
  }
}
