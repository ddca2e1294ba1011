/** The router as the hook runs it: handlers and effects that update the page in place. */
module DeepLinkRouter {
  import opened Text
  import opened HostKeys
  import opened DeepLinks
  import opened RouterSpec
  import opened RouterProofs
  import opened RouterEndings

  class Router {
    const parse: Parser

    // The browser's: kept across a reload.
    var history: seq<Entry>
    var cur: nat
    var active: HostKey

    // The hook's own: gone with the document.
    var pending: Option<Arm>
    var intent: Option<string>

    // The surroundings, and the model's bookkeeping.
    var hosts: HostKey -> HostView
    var nextEntry: nat
    var nextArm: nat
    var log: seq<Note>

    ghost predicate Valid()
      reads this
    {
      Sound(parse) && cur < |history| && (pending.Some? ==> pending.value.route.TargetsTerminal())
    }

    ghost function Now(): Page
      reads this
      requires Valid()
    {
      PageData(history, cur, pending, intent, active, hosts, nextEntry, nextArm, log)
    }

    /** A tab before its first load: one entry, nothing armed. */
    constructor (parse: Parser, hash: string, active: HostKey, hosts: HostKey -> HostView)
      requires Sound(parse)
      ensures Valid() && this.parse == parse
      ensures Start(Now()) && Here(Now()) == Entry(0, hash, false) && this.active == active
    {
      this.parse := parse;
      this.history := [Entry(0, hash, false)];
      this.cur := 0;
      this.active := active;
      this.pending := None;
      this.intent := None;
      this.hosts := hosts;
      this.nextEntry := 1;
      this.nextArm := 0;
      this.log := [];
    }

    method StampEntryRouted()
      requires Valid()
      modifies this`history
      ensures Valid() && Now() == Stamp(old(Now()))
      ensures old(Core(parse, Now()) && pending.None?) ==> Core(parse, Now())
    {
      ghost var before := Now();
      history := history[cur := history[cur].(routed := true)];
      if Core(parse, before) && before.pending.None? {
        StampKeepsCore(parse, before);
      }
    }

    method Note(note: Note)
      requires Valid()
      modifies this`log
      ensures Valid() && Now() == Say(old(Now()), note)
    {
      log := log + [note];
    }

    /** Route and intent go together, and what was armed is dead; with nothing armed, an enacted route's
        intent stays. */
    method DisarmInFlightRoute()
      requires Valid()
      modifies this`pending, this`intent
      ensures Valid() && Now() == Disarm(old(Now()))
      ensures pending.None? && intent == (if old(pending).None? then old(intent) else None)
      ensures old(Core(parse, Now())) ==>
                Core(parse, Now()) && (old(pending).Some? ==> Dead(Now(), old(pending).value.id))
    {
      ghost var before := Now();
      if Core(parse, before) {
        DisarmKeepsCore(parse, before);
      }
      if pending.None? {
        return;
      }
      pending := None;
      intent := None;
    }

    method DisarmResolvedRoute()
      requires Valid()
      modifies this`pending, this`intent, this`history
      ensures Valid() && Now() == DisarmResolved(old(Now()))
      ensures pending.None? && history[cur].routed
      ensures old(Core(parse, Now())) ==>
                Core(parse, Now()) && (old(pending).Some? ==> Dead(Now(), old(pending).value.id))
    {
      DisarmInFlightRoute();
      StampEntryRouted();
    }

    method RouteTo(route: DeepLink)
      requires Valid() && route.TargetsTerminal() && IsEncodedHostKey(route.host)
      modifies this`active, this`intent, this`pending, this`nextArm
      ensures Valid() && Now() == RouteToTerminal(old(Now()), route)
      ensures old(Core(parse, Now()) && pending.None?) && !history[cur].routed && parse(history[cur].hash) == Link(route)
              ==> Core(parse, Now())
    {
      ghost var before := Now();
      active := HostOf(route.host);
      intent := Some(route.terminalId);
      pending := Some(Arm(nextArm, route));
      nextArm := nextArm + 1;
      if Core(parse, before) && before.pending.None? && !Here(before).routed
         && parse(Here(before).hash) == Link(route) {
        RouteKeepsCore(parse, before, route);
      }
    }

    /** A link routed once: everything but a terminal route is resolved, and stamped, here. */
    method NavigateTo(link: Parsed)
      requires Valid() && Routable(link)
      modifies this
      ensures Valid() && Now() == Navigate(old(Now()), link)
      ensures RoutedAs(old(Now()), Now(), link)
    {
      var deferStamp := link.Link? && link.link.TargetsTerminal();
      DisarmInFlightRoute();
      match link {
        case NoLink =>
        case Invalid(_) => Note(InvalidLinkToast);
        case Link(l) =>
          if l.SettingsLink? {
            Note(SettingsOpened);
          } else if l.HostLink? {
            active := HostOf(l.host);
          } else {
            RouteTo(l);
          }
      }
      if !deferStamp {
        StampEntryRouted();
      }
    }

    /** The settle-then-verdict effect. */
    method SettleEffect()
      requires Valid()
      modifies this
      ensures Valid() && Now() == Settle(old(Now()))
      ensures old(Core(parse, Now())) ==> Inv(parse, Now())
    {
      if Core(parse, Now()) {
        SettleReachesInv(parse, Now());
      }
      if pending.None? {
        return;
      }
      var a := pending.value;
      var id := a.route.terminalId;
      if EncodeHostKey(active) != a.route.host {
        DisarmResolvedRoute();
        return;
      }
      var view := hosts(active);
      if view.listPending {
        return;
      }
      if view.listError {
        DisarmResolvedRoute();
        Note(Failed(a.id, history[cur].id, ListError));
        return;
      }
      if id !in view.listed {
        if !view.authoritative {
          return;
        }
        DisarmResolvedRoute();
        Note(Failed(a.id, history[cur].id, Gone));
        return;
      }
      if id !in view.records {
        return;
      }
      if a.route.CodeLink? && view.records[id].Unresolved? {
        return;
      }
      if a.route.CodeLink? && view.records[id].NoRepo? {
        DisarmResolvedRoute();
        Note(Failed(a.id, history[cur].id, NotARepo));
        return;
      }
      pending := None;
      // The internal invariant enact checks: a code route gets here with a repository.
      assert a.route.CodeLink? ==> view.records[id].Repo?;
      if view.viewThrows {
        Note(EnactThrew(a.id, history[cur].id, a.route));
        return;
      }
      Note(Enacted(a.id, history[cur].id, a.route));
      StampEntryRouted();
    }

    /** The backstop timer of the armed route. */
    method BackstopTimer()
      requires Valid()
      modifies this
      ensures Valid() && Now() == BackstopFires(old(Now()))
      ensures pending.None?
      ensures old(pending).Some? ==>
                |log| == |old(log)| + 1
                && IsTimeout(log[|old(log)|], old(pending).value, old(history[cur].id), old(hosts(active)))
                && EndsWith(old(Now()), Now(), log[|old(log)|])
    {
      if pending.Some? {
        TimesOutByTheFacts(Now());
      }
      if pending.None? {
        return;
      }
      var a := pending.value;
      var view := hosts(active);
      var id := a.route.terminalId;
      DisarmResolvedRoute();
      if id in view.records && a.route.CodeLink? && view.records[id].Unresolved? {
        Note(Failed(a.id, history[cur].id, RepoNeverResolved));
      } else if !view.authoritative {
        Note(Failed(a.id, history[cur].id, DaemonDown));
      } else {
        Note(Failed(a.id, history[cur].id, Unreachable));
      }
    }

    method FromOutside(hash: string)
      requires Valid()
      modifies this
      ensures Valid() && Now() == NavigateFromExternal(parse, old(Now()), hash)
      ensures hash != "" ==> history[cur] == Entry(old(nextEntry), hash, pending.None?)
      ensures hash == "" ==> history[cur].routed && pending.None?
      ensures RoutedAs(if hash == "" then old(Now()) else Replace(old(Now()), hash), Now(), parse(hash))
      ensures old(Core(parse, Now())) ==> Core(parse, Now())
    {
      ghost var before := Now();
      if hash != "" {
        history := history[cur := Entry(nextEntry, hash, false)];
        nextEntry := nextEntry + 1;
      }
      NavigateTo(parse(hash));
      OutsideLands(parse, before, hash);
      assert Now() == NavigateFromExternal(parse, before, hash);
    }

    /** The launch consumer; it answers whether a launch was handled at all. */
    method LaunchConsumer(launch: Launch) returns (handled: bool)
      requires Valid()
      modifies this
      ensures Valid() && Now() == Deliver(parse, old(Now()), launch)
      ensures handled == !launch.NoLaunch?
      ensures !launch.LaunchHash? ==> Now() == old(Now()).(log := log)
      ensures old(Core(parse, Now())) ==> Core(parse, Now())
    {
      if Core(parse, Now()) {
        DeliverKeepsCore(parse, Now(), launch);
      }
      handled := !launch.NoLaunch?;
      match launch {
        case NoLaunch =>
        case LaunchWithoutUrl =>
        case MalformedLaunch => Note(BadLaunchToast);
        case LaunchHash(hash) => FromOutside(hash);
      }
    }

    method OnMount(queued: Launch)
      requires Valid()
      modifies this
      ensures Valid() && Now() == Boot(parse, old(Now()), queued)
      ensures queued.NoLaunch? && old(history[cur].routed) ==> Now() == old(Now())
      ensures queued.NoLaunch? && !old(history[cur].routed) ==>
                RoutedAs(old(Now()), Now(), parse(old(history[cur].hash)))
      ensures old(Core(parse, Now())) ==> Core(parse, Now())
    {
      if Core(parse, Now()) {
        BootKeepsCore(parse, Now(), queued);
      }
      var launchHandled := LaunchConsumer(queued);
      if !launchHandled && !history[cur].routed {
        NavigateTo(parse(history[cur].hash));
      }
    }

    /** A consumed entry is shown and nothing is done, but for disarming; any other is consumed here or
        has armed its route. */
    method OnHashChange()
      requires Valid()
      modifies this
      ensures Valid() && Now() == HashChanged(parse, old(Now()))
      ensures old(history[cur].routed) ==>
                pending.None? && history == old(history) && log == old(log) && active == old(active)
      ensures !old(history[cur].routed) ==> RoutedAs(old(Now()), Now(), parse(old(history[cur].hash)))
      ensures history[cur].routed <==> pending.None?
      ensures old(Core(parse, Disarm(Now()))) ==> Core(parse, Now())
    {
      if Core(parse, Disarm(Now())) {
        HashChangedKeepsCore(parse, Now());
      }
      if history[cur].routed {
        DisarmInFlightRoute();
        return;
      }
      NavigateTo(parse(history[cur].hash));
    }

    method FollowLink(hash: string)
      requires Valid()
      modifies this
      ensures Valid() && Now() == HashChanged(parse, PushEntry(old(Now()), hash))
    {
      history := history[..cur + 1] + [Entry(nextEntry, hash, false)];
      cur := cur + 1;
      nextEntry := nextEntry + 1;
      assert Now() == PushEntry(old(Now()), hash);
      OnHashChange();
    }

    /** The browser's doing alone: no handler hears of it. */
    method RenewEntry()
      requires Valid()
      modifies this`history, this`nextEntry
      ensures Valid() && Now() == Replace(old(Now()), old(Here(Now()).hash))
    {
      history := history[cur := Entry(nextEntry, history[cur].hash, false)];
      nextEntry := nextEntry + 1;
    }

    method TraverseTo(to: nat)
      requires Valid() && to < |history|
      modifies this
      ensures Valid() && var s := old(Now()).(cur := to);
                         Now() == if Here(s).hash == Here(old(Now())).hash then s else HashChanged(parse, s)
    {
      var shown := history[cur].hash;
      cur := to;
      if history[cur].hash != shown {
        OnHashChange();
      }
    }

    method Load(queued: Launch, world: HostKey -> HostView)
      requires Valid()
      modifies this
      ensures Valid() && Now() == Boot(parse, Unloaded(old(Now()), world), queued)
    {
      pending := None;
      intent := None;
      hosts := world;
      OnMount(queued);
    }

    /** What the surroundings do, and the handler it wakes. */
    method Wake(step: Step)
      requires Valid() && Enabled(Now(), step)
      modifies this
      ensures Valid() && Now() == Handle(parse, old(Now()), step)
    {
      match step {
        case Follow(hash) => FollowLink(hash);
        case FollowAgain => RenewEntry();
        case Traverse(to) => TraverseTo(to);
        case Outside(launch) => var _ := LaunchConsumer(launch);
        case SwitchHost(host) => active := host;
        case WorldMoves(world) => hosts := world;
        case Backstop => BackstopTimer();
        case Reload(queued, world) => Load(queued, world);
      }
    }

    /** One step of a run: the handler, then the effects. The page follows the state machine, and
        keeps its invariant exactly when the step is no silent replay. */
    method Perform(step: Step)
      requires Valid() && Enabled(Now(), step)
      modifies this
      ensures Valid() && Now() == Next(parse, old(Now()), step)
      ensures old(Inv(parse, Now())) ==> (Inv(parse, Now()) <==> old(!SilentReplay(Now(), step)))
    {
      ghost var before := Now();
      Wake(step);
      SettleEffect();
      if Inv(parse, before) {
        InvariantExactly(parse, before, step);
      }
    }
  }
}
