/** The fleet line under the Agents setting: one group per agent state. */
module Fleet {
  import opened Text
  import opened Landing
  import opened AgentStatus

  datatype Why = WhyOff | WhyUnavailable | WhyUndelivered | WhyUnheard

  datatype Mark =
    | NoMark(why: Why)
    | Checking
    | ReadyMark(stack: string, hash: string, delivering: bool)
    | DownloadingMark
    | FailedMark(message: string)

  function MarkOf(status: Option<Status>, checking: bool): Mark {
    if checking then Checking
    else
      match status
      case None => NoMark(WhyUnheard)
      case Some(Off) => NoMark(WhyOff)
      case Some(Unavailable) => NoMark(WhyUnavailable)
      case Some(Undelivered(_)) => NoMark(WhyUndelivered)
      case Some(Ready(served, delivering)) =>
        ReadyMark(StackTitle(served.profiles), ShortHash(served.bundle), delivering)
      case Some(Downloading(_)) => DownloadingMark
      case Some(Error(_, message)) => FailedMark(message)
  }

  datatype Tone = Ok | Busy | Warn | Muted

  /** The agent state a group is about: its key, and the words it reads as. */
  datatype State = State(key: string, tone: Tone, lead: string, trail: string)

  function StateOf(mark: Mark): State {
    match mark
    case ReadyMark(_, _, _) => State("ready", Ok, "Ready on", "")
    case DownloadingMark => State("downloading", Busy, "", "delivering")
    case Checking => State("checking", Muted, "", "checking…")
    case FailedMark(_) => State("failed", Warn, "", "failed")
    case NoMark(WhyOff) => State("none:off", Muted, "", "agents off")
    case NoMark(WhyUnavailable) => State("none:unavailable", Muted, "", "no coding agents in this build")
    case NoMark(WhyUndelivered) => State("none:undelivered", Muted, "", "no coding agents delivered")
    case NoMark(WhyUnheard) => State("none:unheard", Muted, "", "not connected")
  }

  datatype Host = Host(name: string, status: Option<Status>, checking: bool)

  function HostState(h: Host): State {
    StateOf(MarkOf(h.status, h.checking))
  }

  /** A group while it grows. */
  datatype Growing = Growing(state: State, members: seq<Host>)

  datatype Group = Group(state: State, hosts: seq<Host>, trail: string)

  const NAMED_CAP := 2

  function Named(members: seq<Host>): seq<Host> {
    if |members| <= NAMED_CAP then members else members[..NAMED_CAP]
  }

  function More(members: seq<Host>): nat {
    |members| - |Named(members)|
  }

  function GroupOf(g: Growing): Group {
    var more := if More(g.members) == 0 then "" else "and " + Decimal(More(g.members)) + " more";
    Group(g.state, Named(g.members),
          if more == "" then g.state.trail else if g.state.trail == "" then more else more + " " + g.state.trail)
  }

  // ---------- the partition ----------

  /** The hosts in one state, in the order they are handed in. */
  function Members(hosts: seq<Host>, key: string): seq<Host> {
    if |hosts| == 0 then []
    else
      var front, last := Members(hosts[..|hosts| - 1], key), hosts[|hosts| - 1];
      if HostState(last).key == key then front + [last] else front
  }

  /** The states met, in the order they first appear. */
  function States(hosts: seq<Host>): (states: seq<State>)
  {
    if |hosts| == 0 then []
    else
      var front, s := States(hosts[..|hosts| - 1]), HostState(hosts[|hosts| - 1]);
      if HasKey(front, s.key) then front else front + [s]
  }

  predicate HasKey(states: seq<State>, key: string) {
    exists i :: 0 <= i < |states| && states[i].key == key
  }

  ghost predicate Partition(groups: seq<Growing>, hosts: seq<Host>) {
    |groups| == |States(hosts)|
    && forall g :: 0 <= g < |groups| ==>
                     groups[g].state == States(hosts)[g] && groups[g].members == Members(hosts, groups[g].state.key)
  }

  /** `groups.find((g) => g.state.key === key)`, as an index; the length where there is none. */
  method FindGroup(groups: seq<Growing>, key: string) returns (at: nat)
    ensures at <= |groups|
    ensures forall g :: 0 <= g < at ==> groups[g].state.key != key
    ensures at < |groups| ==> groups[at].state.key == key
  {
    at := 0;
    while at < |groups| && groups[at].state.key != key
      invariant at <= |groups|
      invariant forall g :: 0 <= g < at ==> groups[g].state.key != key
    {
      at := at + 1;
    }
  }

  lemma {:induction false} StatesDistinct(hosts: seq<Host>)
    ensures forall i, j :: 0 <= i < j < |States(hosts)| ==> States(hosts)[i].key != States(hosts)[j].key
  {
    if |hosts| > 0 {
      StatesDistinct(hosts[..|hosts| - 1]);
    }
  }

  lemma {:induction false} NoStateNoMembers(hosts: seq<Host>, key: string)
    ensures HasKey(States(hosts), key) <==> Members(hosts, key) != []
  {
    if |hosts| > 0 {
      NoStateNoMembers(hosts[..|hosts| - 1], key);
      var front := States(hosts[..|hosts| - 1]);
      var s := HostState(hosts[|hosts| - 1]);
      if !HasKey(front, s.key) {
        assert States(hosts)[|front|] == s;
        assert forall i :: 0 <= i < |front| ==> States(hosts)[i] == front[i];
      }
    }
  }

  /** One host joins its group, or opens it. */
  method Join(groups: seq<Growing>, ghost before: seq<Host>, host: Host) returns (r: seq<Growing>)
    requires Partition(groups, before)
    ensures Partition(r, before + [host])
  {
    var state := HostState(host);
    var at := FindGroup(groups, state.key);
    ghost var hosts := before + [host];
    assert hosts[..|hosts| - 1] == before;
    if at == |groups| {
      r := groups + [Growing(state, [host])];
      NoStateNoMembers(before, state.key);
      assert !HasKey(States(before), state.key);
    } else {
      r := groups[at := Growing(groups[at].state, groups[at].members + [host])];
      StatesDistinct(before);
      assert States(before)[at].key == state.key;
    }
  }

  method AgentFleetSummary(hosts: seq<Host>) returns (groups: seq<Group>)
    ensures |groups| == |States(hosts)|
    ensures forall g :: 0 <= g < |groups| ==>
                          groups[g] == GroupOf(Growing(States(hosts)[g], Members(hosts, States(hosts)[g].key)))
  {
    var growing: seq<Growing> := [];
    for i := 0 to |hosts|
      invariant Partition(growing, hosts[..i])
    {
      assert hosts[..i + 1] == hosts[..i] + [hosts[i]];
      growing := Join(growing, hosts[..i], hosts[i]);
    }
    assert hosts[..|hosts|] == hosts;
    groups := seq(|growing|, g requires 0 <= g < |growing| => GroupOf(growing[g]));
  }

  // ---------- what the partition keeps ----------

  /** Groups are keyed apart, in first-appearance order: a longer fleet only adds groups at the end. */
  lemma {:induction false} GroupsInFirstAppearance(a: seq<Host>, b: seq<Host>)
    ensures States(a) <= States(a + b)
    ensures forall i, j :: 0 <= i < j < |States(a)| ==> States(a)[i].key != States(a)[j].key
  {
    StatesDistinct(a);
    if |b| == 0 {
      assert a + b == a;
    } else {
      assert (a + b)[..|a + b| - 1] == a + b[..|b| - 1];
      GroupsInFirstAppearance(a, b[..|b| - 1]);
    }
  }

  /** A key says everything a group reads as, so a group's words are those of each of its hosts. */
  lemma KeyIsState(a: Mark, b: Mark)
    ensures StateOf(a).key == StateOf(b).key <==> StateOf(a) == StateOf(b)
  {
  }

  /** Where host `i` sits in its group. */
  function Place(hosts: seq<Host>, i: nat): nat
    requires i < |hosts|
  {
    |Members(hosts[..i], HostState(hosts[i]).key)|
  }

  /** A group holds only hosts of its own state, and all of the fleet's. */
  lemma {:induction false} MembersShareState(hosts: seq<Host>, key: string, host: Host)
    ensures host in Members(hosts, key) <==> host in hosts && HostState(host).key == key
  {
    if |hosts| > 0 {
      MembersShareState(hosts[..|hosts| - 1], key, host);
      assert hosts == hosts[..|hosts| - 1] + [hosts[|hosts| - 1]];
    }
  }

  /** Each host is in the group of its state, at the place its order gives it, and in no other. */
  lemma {:induction false} EachHostOnce(hosts: seq<Host>, i: nat)
    requires i < |hosts|
    ensures HasKey(States(hosts), HostState(hosts[i]).key)
    ensures Place(hosts, i) < |Members(hosts, HostState(hosts[i]).key)|
    ensures Members(hosts, HostState(hosts[i]).key)[Place(hosts, i)] == hosts[i]
    ensures forall key :: hosts[i] in Members(hosts, key) ==> key == HostState(hosts[i]).key
  {
    forall key | hosts[i] in Members(hosts, key) ensures key == HostState(hosts[i]).key {
      MembersShareState(hosts, key, hosts[i]);
    }
    var key := HostState(hosts[i]).key;
    var front := hosts[..|hosts| - 1];
    if i < |front| {
      EachHostOnce(front, i);
      assert front[..i] == hosts[..i];
    }
    NoStateNoMembers(hosts, key);
  }

  /** Two hosts of one state keep their order in its group. */
  lemma PlacesKeepOrder(hosts: seq<Host>, i: nat, j: nat)
    requires i < j < |hosts| && HostState(hosts[i]).key == HostState(hosts[j]).key
    ensures Place(hosts, i) < Place(hosts, j)
  {
    EachHostOnce(hosts[..j], i);
    assert hosts[..j][..i] == hosts[..i];
  }

  function Total(groups: seq<Group>, hosts: seq<Host>): nat {
    if |groups| == 0 then 0
    else
      var g := groups[|groups| - 1];
      Total(groups[..|groups| - 1], hosts) + |g.hosts| + More(Members(hosts, g.state.key))
  }

  function MemberTotal(states: seq<State>, hosts: seq<Host>): nat {
    if |states| == 0 then 0
    else MemberTotal(states[..|states| - 1], hosts) + |Members(hosts, states[|states| - 1].key)|
  }

  lemma {:induction false} OneMoreMember(states: seq<State>, hosts: seq<Host>, host: Host)
    requires forall i, j :: 0 <= i < j < |states| ==> states[i].key != states[j].key
    ensures MemberTotal(states, hosts + [host])
            == MemberTotal(states, hosts) + (if HasKey(states, HostState(host).key) then 1 else 0)
  {
    var key := HostState(host).key;
    if |states| > 0 {
      var front, last := states[..|states| - 1], states[|states| - 1];
      OneMoreMember(front, hosts, host);
      assert (hosts + [host])[..|hosts|] == hosts;
      assert HasKey(states, key) <==> HasKey(front, key) || last.key == key by {
        if HasKey(front, key) {
          var i :| 0 <= i < |front| && front[i].key == key;
          assert states[i].key == key;
        }
      }
      if last.key == key {
        assert !HasKey(front, key);
      }
    }
  }

  lemma {:induction false} MembersAddUp(hosts: seq<Host>)
    ensures MemberTotal(States(hosts), hosts) == |hosts|
  {
    if |hosts| > 0 {
      var front, last := hosts[..|hosts| - 1], hosts[|hosts| - 1];
      assert hosts == front + [last];
      MembersAddUp(front);
      StatesDistinct(front);
      OneMoreMember(States(front), front, last);
      if !HasKey(States(front), HostState(last).key) {
        NoStateNoMembers(front, HostState(last).key);
        assert States(hosts)[..|States(hosts)| - 1] == States(front);
      }
    }
  }

  lemma {:induction false} TotalsAgree(groups: seq<Group>, states: seq<State>, hosts: seq<Host>)
    requires |groups| == |states|
    requires forall g :: 0 <= g < |groups| ==> groups[g] == GroupOf(Growing(states[g], Members(hosts, states[g].key)))
    ensures Total(groups, hosts) == MemberTotal(states, hosts)
  {
    if |groups| > 0 {
      TotalsAgree(groups[..|groups| - 1], states[..|states| - 1], hosts);
    }
  }

  /** Named hosts and the counted rest are the whole fleet. */
  lemma NamedAndCounted(groups: seq<Group>, hosts: seq<Host>)
    requires |groups| == |States(hosts)|
    requires forall g :: 0 <= g < |groups| ==>
                           groups[g] == GroupOf(Growing(States(hosts)[g], Members(hosts, States(hosts)[g].key)))
    ensures Total(groups, hosts) == |hosts|
  {
    TotalsAgree(groups, States(hosts), hosts);
    MembersAddUp(hosts);
  }

  // ---------- the words ----------

  /** The first two hosts of a group are named, in order, and the rest are counted before its words. */
  lemma GroupNames(state: State, a: Host, b: Host, rest: seq<Host>)
    ensures GroupOf(Growing(state, [a])) == Group(state, [a], state.trail)
    ensures GroupOf(Growing(state, [a, b])) == Group(state, [a, b], state.trail)
    ensures rest != [] ==>
              GroupOf(Growing(state, [a, b] + rest))
              == Group(state, [a, b], "and " + Decimal(|rest|) + " more"
                                      + (if state.trail == "" then "" else " " + state.trail))
  {
    var members := [a, b] + rest;
    assert members[..2] == [a, b];
    var more := "and " + Decimal(|rest|) + " more";
    assert more != "" by { assert |more| >= 4; }
    assert more + "" == more;
    assert state.trail != "" ==> more + " " + state.trail == more + (" " + state.trail);
  }

  /** What each host reads as: one being checked as that, whatever it said last. */
  lemma HostReads(name: string, status: Option<Status>)
    ensures HostState(Host(name, status, true)) == State("checking", Muted, "", "checking…")
    ensures status.None? ==>
              HostState(Host(name, status, false)) == State("none:unheard", Muted, "", "not connected")
    ensures status == Some(Off) ==>
              HostState(Host(name, status, false)) == State("none:off", Muted, "", "agents off")
    ensures status == Some(Unavailable) ==>
              HostState(Host(name, status, false))
              == State("none:unavailable", Muted, "", "no coding agents in this build")
    ensures status.Some? && status.value.Undelivered? ==>
              HostState(Host(name, status, false))
              == State("none:undelivered", Muted, "", "no coding agents delivered")
    ensures status.Some? && status.value.Ready? ==>
              HostState(Host(name, status, false)) == State("ready", Ok, "Ready on", "")
    ensures status.Some? && status.value.Downloading? ==>
              HostState(Host(name, status, false)) == State("downloading", Busy, "", "delivering")
    ensures status.Some? && status.value.Error? ==>
              HostState(Host(name, status, false)) == State("failed", Warn, "", "failed")
  {
  }

  /** A mark carries what its host said: the set it is ready with, or the failure's own message. */
  lemma MarksCarry(status: Status)
    ensures status.Ready? ==>
              MarkOf(Some(status), false)
              == ReadyMark(StackTitle(status.served.profiles), ShortHash(status.served.bundle), status.delivering)
    ensures status.Error? ==> MarkOf(Some(status), false) == FailedMark(status.message)
  {
  }
}
