/** The agent catalogue: every playable agent with its key, display name and
    role, the list of keys, the agents grouped by role and the lookup by key. */
module Agents {
  import Tables

  datatype AgentRole = Duelist | Initiator | Controller | Sentinel

  const AGENT_ROLES: seq<AgentRole> := [Duelist, Initiator, Controller, Sentinel]

  datatype Agent = Agent(key: string, name: string, role: AgentRole)

  const AGENTS: seq<Agent> := [
    Agent("jett", "Jett", Duelist),
    Agent("phoenix", "Phoenix", Duelist),
    Agent("reyna", "Reyna", Duelist),
    Agent("raze", "Raze", Duelist),
    Agent("yoru", "Yoru", Duelist),
    Agent("neon", "Neon", Duelist),
    Agent("iso", "Iso", Duelist),
    Agent("waylay", "Waylay", Duelist),
    Agent("sova", "Sova", Initiator),
    Agent("breach", "Breach", Initiator),
    Agent("skye", "Skye", Initiator),
    Agent("kay-o", "KAY/O", Initiator),
    Agent("fade", "Fade", Initiator),
    Agent("gekko", "Gekko", Initiator),
    Agent("tejo", "Tejo", Initiator),
    Agent("brimstone", "Brimstone", Controller),
    Agent("viper", "Viper", Controller),
    Agent("omen", "Omen", Controller),
    Agent("astra", "Astra", Controller),
    Agent("harbor", "Harbor", Controller),
    Agent("clove", "Clove", Controller),
    Agent("sage", "Sage", Sentinel),
    Agent("cypher", "Cypher", Sentinel),
    Agent("killjoy", "Killjoy", Sentinel),
    Agent("chamber", "Chamber", Sentinel),
    Agent("deadlock", "Deadlock", Sentinel),
    Agent("vyse", "Vyse", Sentinel),
    Agent("veto", "Veto", Sentinel)
  ]

  /** `AGENT_KEYS`: the keys of a catalogue, in catalogue order. */
  function Keys(agents: seq<Agent>): (keys: seq<string>)
    ensures |keys| == |agents|
    ensures forall i :: 0 <= i < |agents| ==> keys[i] == agents[i].key
  {
    seq(|agents|, i requires 0 <= i < |agents| => agents[i].key)
  }

  datatype RoleGroup = RoleGroup(role: AgentRole, agents: seq<Agent>)

  /** `AGENTS_BY_ROLE`: one group per role, in role order, holding that role's agents in catalogue order. */
  function ByRole(roles: seq<AgentRole>, agents: seq<Agent>): (groups: seq<RoleGroup>)
    ensures |groups| == |roles|
    ensures forall i :: 0 <= i < |roles| ==>
      groups[i].role == roles[i] && groups[i].agents == Tables.Filter(agents, (a: Agent) => a.role == roles[i])
  {
    if roles == [] then []
    else [RoleGroup(roles[0], Tables.Filter(agents, (a: Agent) => a.role == roles[0]))] + ByRole(roles[1..], agents)
  }

  function TotalSize(groups: seq<RoleGroup>): nat {
    if groups == [] then 0 else |groups[0].agents| + TotalSize(groups[1..])
  }

  function CountRole(agents: seq<Agent>, role: AgentRole): nat {
    Tables.CountWhere(agents, (a: Agent) => a.role == role)
  }

  lemma {:induction false} FilterSize(agents: seq<Agent>, role: AgentRole)
    ensures |Tables.Filter(agents, (a: Agent) => a.role == role)| == CountRole(agents, role)
  {
    if agents != [] {
      FilterSize(agents[1..], role);
    }
  }

  lemma {:induction false} RoleCountsSum(agents: seq<Agent>)
    ensures CountRole(agents, Duelist) + CountRole(agents, Initiator) + CountRole(agents, Controller)
      + CountRole(agents, Sentinel) == |agents|
  {
    if agents != [] {
      RoleCountsSum(agents[1..]);
    }
  }

  /** The role groups partition the catalogue: every agent is in the group of its
      own role and no other, and the group sizes add up to the catalogue size. */
  lemma RoleGroupsPartition(agents: seq<Agent>)
    ensures var groups := ByRole(AGENT_ROLES, agents);
      TotalSize(groups) == |agents|
      && forall i, a :: 0 <= i < |groups| && a in agents ==> (a in groups[i].agents <==> a.role == groups[i].role)
  {
    var groups := ByRole(AGENT_ROLES, agents);
    forall i, a | 0 <= i < |groups| && a in agents
      ensures a in groups[i].agents <==> a.role == groups[i].role
    {
      Tables.FilterMembers(agents, (x: Agent) => x.role == AGENT_ROLES[i], a);
    }
    FilterSize(agents, Duelist);
    FilterSize(agents, Initiator);
    FilterSize(agents, Controller);
    FilterSize(agents, Sentinel);
    RoleCountsSum(agents);
    assert TotalSize(groups[3..]) == |groups[3].agents|;
    assert TotalSize(groups[2..]) == |groups[2].agents| + TotalSize(groups[3..]);
    assert TotalSize(groups[1..]) == |groups[1].agents| + TotalSize(groups[2..]);
  }

  /** `AGENT_LOOKUP`: a record from key to agent, a later duplicate key overwriting an earlier one. */
  function Lookup(agents: seq<Agent>): (m: map<string, Agent>)
    ensures forall k :: k in m ==> m[k].key == k && m[k] in agents
    ensures forall a :: a in agents ==> a.key in m
  {
    if agents == [] then map[]
    else
      var last := agents[|agents| - 1];
      var prefix := agents[..|agents| - 1];
      assert agents == prefix + [last];
      Lookup(prefix)[last.key := last]
  }

  /** The catalogue holds KAY/O under the key 'kay-o', the key the agent-name
      normaliser produces for it. */
  lemma CatalogueHasKayo()
    ensures AGENTS[11] == Agent("kay-o", "KAY/O", Initiator)
  {
  }

  /** Every catalogue key is in the lookup. */
  lemma KeyInLookup(agents: seq<Agent>, i: nat)
    requires i < |agents|
    ensures agents[i].key in Lookup(agents)
  {
    assert agents[i] in agents;
  }

  /** The entry under a key is the last agent with that key. */
  lemma {:induction false} LookupLast(agents: seq<Agent>, i: nat)
    requires i < |agents|
    requires forall j :: i < j < |agents| ==> agents[j].key != agents[i].key
    ensures Lookup(agents)[agents[i].key] == agents[i]
  {
    var last := agents[|agents| - 1];
    var prefix := agents[..|agents| - 1];
    if i < |agents| - 1 {
      LookupLast(prefix, i);
    }
  }
}
