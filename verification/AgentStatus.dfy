/** A host's agent status, and the folds over it: staleness, a landed update, the fleet line. */
module AgentStatus {
  import opened Text
  import opened Json
  import opened Landing
  import opened ProfileList

  datatype Status =
    | Off
    | Unavailable
    | Undelivered(profiles: seq<string>)
    | Downloading(profiles: seq<string>)
    | Ready(served: DeliveredSet, delivering: bool)
    | Error(profiles: seq<string>, message: string)

  /** The stack a status is about; none for `Off` and `Unavailable`. */
  function StatusStack(status: Status): Option<seq<string>> {
    match status
    case Ready(served, _) => Some(References(served.profiles))
    case Undelivered(profiles) => Some(profiles)
    case Downloading(profiles) => Some(profiles)
    case Error(profiles, _) => Some(profiles)
    case Off => None
    case Unavailable => None
  }

  // ---------- staleness ----------

  const JUSPAY_PROFILE := "github:juspay/skills"

  function ReferencesTitle(references: seq<string>): string {
    JoinWith(seq(|references|, i requires 0 <= i < |references| =>
                   if references[i] == JUSPAY_PROFILE then "Juspay" else references[i]), " + ")
  }

  datatype SetName = SetName(stack: string, hash: string)

  datatype WaitingOn = OnDownload | OnFailed

  datatype NewTerminal = NowOff | NowSet(name: SetName) | Waiting(stack: string, on: WaitingOn)

  datatype Staleness = Current | Stale(had: SetName, now: NewTerminal)

  function NameOf(s: DeliveredSet): SetName {
    SetName(StackTitle(s.profiles), ShortHash(s.bundle))
  }

  /** The status, when it is about the setting's stack or about none. */
  function CaughtUp(status: Option<Status>, setting: Setting): Option<Status> {
    match status
    case None => None
    case Some(s) =>
      var stack := StatusStack(s);
      if stack.Some? && !SameStack(stack.value, setting.profiles) then None else status
  }

  function AgentStalenessOf(agents: Option<DeliveredSet>, status: Option<Status>, setting: Setting): Staleness {
    if agents.None? then Current
    else
      var had := NameOf(agents.value);
      if !setting.enabled then Stale(had, NowOff)
      else
        var sameReferences := SameStack(References(agents.value.profiles), setting.profiles);
        var title := ReferencesTitle(setting.profiles);
        var unheard := if sameReferences then Current else Stale(had, Waiting(title, OnDownload));
        match CaughtUp(status, setting)
        case None => unheard
        case Some(Ready(served, _)) =>
          if SameSet(served, agents.value) then Current else Stale(had, NowSet(NameOf(served)))
        case Some(Downloading(_)) => Stale(had, Waiting(title, OnDownload))
        case Some(Error(_, _)) => Stale(had, Waiting(title, OnFailed))
        case Some(Off) => unheard
        case Some(Unavailable) => unheard
        case Some(Undelivered(_)) => unheard
  }

  predicate AgentRestartReady(stale: Staleness) {
    stale.Stale? && !stale.now.Waiting?
  }

  /** What a new terminal on the host gets: nothing while agents are off, or before a set is there. */
  function Given(status: Option<Status>, setting: Setting): Option<DeliveredSet> {
    if setting.enabled && status.Some? && status.value.Ready? then Some(status.value.served) else None
  }

  /** Restarting whenever the pill offers it closes the staleness, for every terminal, status and setting. */
  lemma RestartClosesStaleness(agents: Option<DeliveredSet>, status: Option<Status>, setting: Setting)
    requires AgentRestartReady(AgentStalenessOf(agents, status, setting))
    ensures AgentStalenessOf(Given(status, setting), status, setting) == Current
    ensures Given(status, setting).None? <==> !setting.enabled
    ensures Given(status, setting) != agents
  {
  }

  /** And it is not offered where it would come back with no agents: while the host that has caught up
      still waits, a new terminal there gets none. */
  lemma WaitingGivesNothing(agents: Option<DeliveredSet>, status: Option<Status>, setting: Setting)
    requires var s := AgentStalenessOf(agents, status, setting); s.Stale? && s.now.Waiting?
    ensures setting.enabled && agents.Some?
    ensures CaughtUp(status, setting) == status ==> Given(status, setting).None?
  {
  }

  /** On a ready host that has caught up, current means exactly the same set: the same package and the
      same builds in order. */
  lemma CurrentMeansSameSet(agents: DeliveredSet, served: DeliveredSet, delivering: bool, setting: Setting)
    requires setting.enabled && SameStack(References(served.profiles), setting.profiles)
    ensures AgentStalenessOf(Some(agents), Some(Ready(served, delivering)), setting).Current? <==>
            served.bundle == agents.bundle && Paths(served.profiles) == Paths(agents.profiles)
  {
    SetKeyIdentifies(served, agents);
  }

  // ---------- a landed update ----------

  datatype LandedFacts = LandedFacts(stack: string, served: string)

  function Landed(status: Option<Status>): Option<LandedFacts> {
    match status
    case Some(Ready(served, _)) => Some(LandedFacts(JsonText(Strings(References(served.profiles))), SetKey(served)))
    case _ => None
  }

  predicate UpdateLanded(prev: Option<LandedFacts>, now: Option<LandedFacts>) {
    prev.Some? && now.Some? && prev.value.stack == now.value.stack && prev.value.served != now.value.served
  }

  /** An update landed exactly when both statuses are ready with the same references in order and
      different sets: comparing the two texts of facts loses nothing. */
  lemma UpdateLandedExactly(prev: Option<Status>, now: Option<Status>)
    ensures UpdateLanded(Landed(prev), Landed(now)) <==>
            prev.Some? && prev.value.Ready? && now.Some? && now.value.Ready?
            && References(prev.value.served.profiles) == References(now.value.served.profiles)
            && (prev.value.served.bundle != now.value.served.bundle
                || Paths(prev.value.served.profiles) != Paths(now.value.served.profiles))
  {
    if Landed(prev).Some? && Landed(now).Some? {
      var a, b := prev.value.served, now.value.served;
      StringsTextIsInjective(References(a.profiles), References(b.profiles));
      SetKeyIdentifies(a, b);
    }
  }

  // ---------- each verdict, by its facts ----------

  /** The status is about the setting's own stack, or about none. */
  predicate Heard(status: Option<Status>, setting: Setting) {
    status.Some?
    && match status.value
       case Ready(served, _) => References(served.profiles) == setting.profiles
       case Undelivered(profiles) => profiles == setting.profiles
       case Downloading(profiles) => profiles == setting.profiles
       case Error(profiles, _) => profiles == setting.profiles
       case Off => true
       case Unavailable => true
  }

  /** The host has said something a new terminal would go by: a ready set, a delivery, or its failure. */
  predicate Decides(status: Option<Status>, setting: Setting) {
    Heard(status, setting) && (status.value.Ready? || status.value.Downloading? || status.value.Error?)
  }

  lemma SameStackIsEqual(a: seq<string>, b: seq<string>)
    ensures SameStack(a, b) <==> a == b
  {
  }

  lemma HeardIsCaughtUp(status: Option<Status>, setting: Setting)
    ensures CaughtUp(status, setting) == if Heard(status, setting) then status else None
  {
    if status.Some? && StatusStack(status.value).Some? {
      SameStackIsEqual(StatusStack(status.value).value, setting.profiles);
    }
  }

  /** A terminal without agents is never stale. One with agents is stale, and may restart as a plain shell,
      wherever agents are off. Where they are on, a ready host of the same set leaves it current and one of
      another set offers that set; a delivery has it wait on the download and a failed one on the failure;
      and where the host has said nothing to go by, only another stack has it wait. */
  lemma StaleExactly(agents: DeliveredSet, status: Option<Status>, setting: Setting)
    ensures AgentStalenessOf(None, status, setting) == Current
    ensures var r := AgentStalenessOf(Some(agents), status, setting);
            var had := SetName(StackTitle(agents.profiles), ShortHash(agents.bundle));
            var title := ReferencesTitle(setting.profiles);
            && (!setting.enabled ==> r == Stale(had, NowOff))
            && (setting.enabled && Heard(status, setting) && status.value.Ready? ==>
                  var served := status.value.served;
                  r == if SameSet(served, agents) then Current
                       else Stale(had, NowSet(SetName(StackTitle(served.profiles), ShortHash(served.bundle)))))
            && (setting.enabled && Heard(status, setting) && status.value.Downloading? ==>
                  r == Stale(had, Waiting(title, OnDownload)))
            && (setting.enabled && Heard(status, setting) && status.value.Error? ==>
                  r == Stale(had, Waiting(title, OnFailed)))
            && (setting.enabled && !Decides(status, setting) ==>
                  r == if References(agents.profiles) == setting.profiles then Current
                       else Stale(had, Waiting(title, OnDownload)))
  {
    HeardIsCaughtUp(status, setting);
    SameStackIsEqual(References(agents.profiles), setting.profiles);
  }

  /** A stack of references is titled in order, Juspay's own profile by name. */
  lemma ReferencesAreTitled(reference: string, next: string, rest: seq<string>)
    ensures ReferencesTitle([]) == ""
    ensures ReferencesTitle(["github:juspay/skills"]) == "Juspay"
    ensures reference != "github:juspay/skills" ==> ReferencesTitle([reference]) == reference
    ensures ReferencesTitle([reference, next] + rest)
            == ReferencesTitle([reference]) + " + " + ReferencesTitle([next] + rest)
  {
    var all, more := [reference, next] + rest, [next] + rest;
    var names := seq(|all|, i requires 0 <= i < |all| => if all[i] == JUSPAY_PROFILE then "Juspay" else all[i]);
    var tail := seq(|more|, i requires 0 <= i < |more| => if more[i] == JUSPAY_PROFILE then "Juspay" else more[i]);
    assert names[1..] == tail;
  }
}
